/**
 The mounted volume: a one-sector write-back window over the disk, FAT entries accessed
 through it, and the allocation of cluster chains.
*/
module Volumes {
  import opened Bytes
  import opened Geometry
  import opened DiskIO
  import opened FatBytes
  import opened FatMap
  import opened WriteBehind

  const DISK_ERROR: dword := 0xFFFF_FFFF

  // Writing the dirty sector itself, before its mirror, already shows all metadata.
  lemma FirstWriteAgrees(g: Layout, v: seq<Sector>, s: nat, x: Sector, st: Snapshot)
    requires s < |v| && g.Cacheable(s) && g.fatbase + g.FatSectors() <= |v|
    requires Agrees(Store(g, v, s, x), st) && forall t :: t in st.meta ==> g.Cacheable(t)
    ensures Agrees(v[s := x], st)
  {
  }

  class Volume {
    const disk: Disk
    const g: Layout
    const win: array<byte>
    var winsect: nat      // sector in the window, 0 if none
    var wflag: bool       // the window is dirty
    var lastClust: dword  // last allocated cluster
    var freeClust: dword  // number of free clusters, 0xFFFFFFFF if unknown
    var fsiFlag: bool     // the FSInfo sector is out of date

    ghost const first: set<nat>      // sectors holding the FAT or directory entries when the volume was mounted
    ghost const mirrored: bool       // the FAT copies agreed then
    ghost var view: seq<Sector>      // the sectors as the file system sees them
    ghost var fat: seq<nat>          // the entries of FAT copy 1
    ghost var meta: set<nat>         // sectors holding the FAT or directory entries
    ghost var steps: seq<Snapshot>   // the metadata after every change, oldest first

    // The work area right after mounting: nothing cached yet.
    constructor (d: Disk, layout: Layout, last: dword, free: dword, ghost m: set<nat>)
      requires layout.Sound(|d.sectors|)
      requires forall s :: s in m ==> s < |d.sectors| && layout.Cacheable(s)
      requires forall s: nat :: layout.InFat(s) ==> s in m
      modifies d
      ensures Valid() && fresh(win)
      ensures disk == d && g == layout && lastClust == last && freeClust == free && !fsiFlag
      ensures view == old(d.sectors) == d.sectors && meta == m && steps == [Snapshot(view, m)]
      ensures winsect == 0 && !wflag && first == m && d.log == [d.sectors]
      ensures mirrored <==> layout.fatbase + layout.FatSectors() <= |view| && Mirrored(layout, view)
    {
      disk := d;
      g := layout;
      win := new byte[512](_ => 0);
      winsect, wflag := 0, false;
      first, mirrored := m, layout.fatbase + layout.FatSectors() <= |d.sectors| && Mirrored(layout, d.sectors);
      lastClust, freeClust, fsiFlag := last, free, false;
      view, fat, meta, steps := d.sectors, FatOf(layout, d.sectors), m, [Snapshot(d.sectors, m)];
      new;
      d.log := [d.sectors];
      g.FatsInside(|view|);
      assert Agrees(view, steps[0]);
    }

    // The parts of the invariant that do not mention the window contents.
    ghost predicate Base()
      reads `view, `fat, `meta, `steps, disk
    {
      && win.Length == 512
      && |disk.sectors| == |view| && g.Sound(|view|) && g.fatbase + g.FatSectors() <= |view|
      && fat == FatOf(g, view)
      && (forall s :: s in meta ==> s < |view| && g.Cacheable(s))
      && (forall s: nat :: g.InFat(s) ==> s in meta)
      && |steps| > 0 && Agrees(view, steps[|steps| - 1]) && steps[|steps| - 1].meta == meta
      && MetaGrows(steps, first, meta)
      && (mirrored ==> Mirrored(g, view))
      && |disk.log| > 0 && disk.log[|disk.log| - 1] == disk.sectors
      && Chronicle(steps, disk.log)
    }

    ghost predicate Valid()
      reads `winsect, `wflag, `view, `fat, `meta, `steps, win, disk
    {
      && Base() && winsect < |view|
      && (wflag ==> g.Cacheable(winsect) && view == Store(g, disk.sectors, winsect, win[..]))
      && (!wflag ==> view == disk.sectors && (winsect != 0 ==> win[..] == view[winsect]))
    }

    // With a clean window, all FAT copies on the disk agree if they did when the volume was mounted.
    lemma CopiesAgree()
      requires Valid() && mirrored && !wflag
      ensures g.fatbase + g.FatSectors() <= |disk.sectors| && Mirrored(g, disk.sectors)
    {
    }

    // Valid() except that the window may have been given any contents.
    ghost predicate Staged()
      reads `winsect, `view, `fat, `meta, `steps, disk
    {
      && Base() && winsect < |view|
      && g.Cacheable(winsect)
      && forall s :: 0 <= s < |view| && s != winsect && !(g.InFat(winsect) && g.nFats == 2 && s == winsect + g.fsize)
           ==> disk.sectors[s] == view[s]
    }

    // The last step is the current metadata.
    lemma LastStep()
      requires Valid()
      ensures g.Sound(|view|) && g.fatbase + g.FatSectors() <= |view| && fat == FatOf(g, view) && |fat| == g.nFatent
      ensures |steps| > 0 && Agrees(view, steps[|steps| - 1]) && steps[|steps| - 1].meta == meta
    {
    }

    // With an allowed sector in the window, the window may be given any contents.
    lemma MayStage()
      requires Valid() && g.Cacheable(winsect) && winsect > 0
      ensures Staged() && win.Length == 512 && win[..] == view[winsect]
    {
    }

    // More sectors hold metadata from now on.
    ghost method AdoptMeta(m: set<nat>)
      requires Valid() && forall s :: s in m ==> s < |view| && g.Cacheable(s)
      modifies `meta, `steps
      ensures Valid() && meta == old(meta) + m && steps == old(steps) + [Snapshot(view, meta)]
    {
      meta := meta + m;
      steps := steps + [Snapshot(view, meta)];
      ChronicleStep(old(steps), disk.log, Snapshot(view, meta));
    }

    // Write the dirty window to its sector and, for a FAT sector, to the other FAT copies.
    method WriteBack() returns (res: FResult)
      requires Valid() && wflag
      modifies `wflag, disk
      ensures Valid() && !wflag && res == Ok
      ensures old(disk.log) < disk.log
    {
      hide Chronicle, Agrees, MetaGrows, FatOf, PowerOfTwo, Layout.Checked, Mirrored;
      var ok := disk.Write(win, winsect);
      if !ok { return DiskErr; }
      wflag := false;
      FirstWriteAgrees(g, old(disk.sectors), winsect, win[..], steps[|steps| - 1]);
      ChronicleWrite(steps, old(disk.log), disk.sectors, |steps| - 1);
      if winsect < g.fatbase + g.fsize {
        WriteMirrors();
      }
      return Ok;
    }

    lemma Copies()
      requires Base()
      ensures 1 <= g.nFats <= 2
    {
    }

    // Reflect the FAT sector in the window to all other FAT copies.
    method WriteMirrors()
      requires Base() && g.InFat(winsect) && winsect < |view|
      requires view == Store(g, disk.sectors, winsect, win[..]) && disk.sectors[winsect] == win[..]
      modifies disk
      ensures Base() && disk.sectors == view
      ensures old(disk.log) <= disk.log
    {
      hide Chronicle, Agrees, MetaGrows, FatOf, Layout.Sound, Layout.Checked, Mirrored, Layout.Cacheable;
      Copies();
      var wsect := winsect;
      var nf := g.nFats;
      while nf > 1
        invariant 1 <= nf <= g.nFats && Base()
        invariant nf == g.nFats ==> wsect == winsect
        invariant view == Store(g, disk.sectors, winsect, win[..]) && disk.sectors[winsect] == win[..]
        invariant nf < g.nFats ==> disk.sectors == view
        invariant old(disk.log) <= disk.log
      {
        ghost var log := disk.log;
        wsect := wsect + g.fsize;
        var _ := disk.Write(win, wsect);
        assert disk.sectors == view;
        ChronicleWrite(steps, log, view, |steps| - 1);
        nf := nf - 1;
      }
      assert disk.sectors == view;
    }

    // Write back the window if it is dirty, then load another sector; sector 0 only writes back.
    method MoveWindow(sector: nat) returns (res: FResult)
      requires Valid()
      modifies `winsect, `wflag, win, disk
      ensures Valid()
      ensures res == if sector == old(winsect) || sector < |view| then Ok else DiskErr
      ensures winsect == if res == Ok && sector != 0 then sector else old(winsect)
      ensures sector != old(winsect) ==> !wflag
      ensures sector == old(winsect) ==> wflag == old(wflag)
      ensures !old(wflag) ==> disk.sectors == old(disk.sectors)
      ensures old(wflag) && sector != old(winsect) ==> |old(disk.log)| < |disk.log|
      ensures old(disk.log) <= disk.log
    {
      if winsect != sector {
        if wflag {
          res := WriteBack();
          if res != Ok { return DiskErr; }
        }
        if sector != 0 {
          var ok := disk.Read(win, sector);
          if !ok { return DiskErr; }
          winsect := sector;
        }
      }
      return Ok;
    }

    // The window was changed: mark it dirty.
    method MarkDirty()
      requires Staged()
      modifies `wflag, `view, `fat, `steps
      ensures Valid() && wflag
      ensures view == Store(g, old(view), winsect, win[..])
      ensures steps == old(steps) + [Snapshot(view, meta)]
    {
      hide Mirrored, Chronicle, FatOf, PowerOfTwo;
      if Mirrored(g, view) { StoreKeepsMirrored(g, view, winsect, win[..]); }
      wflag := true;
      view := Store(g, view, winsect, win[..]);
      fat := FatOf(g, view);
      steps := steps + [Snapshot(view, meta)];
      assert view == Store(g, disk.sectors, winsect, win[..]);
      ChronicleStep(old(steps), disk.log, Snapshot(view, meta));
    }

    // Read a FAT entry: 1 for an invalid cluster number, DISK_ERROR if a sector cannot be read.
    method GetFat(clst: dword) returns (r: dword)
      requires Valid()
      modifies `winsect, `wflag, win, disk
      ensures Valid()
      ensures r == if g.IsCluster(clst) then fat[clst] else 1
      ensures g.IsCluster(clst) ==> g.Checked(|view|) && r == FromBytes(g, view, clst)
      ensures if g.IsCluster(clst) then g.InFat(winsect) else winsect == old(winsect)
      ensures old(disk.log) <= disk.log
    {
      if clst < 2 || clst >= g.nFatent {
        return 1;
      }
      EntryLocated(clst);
      EntryIsFromBytes(g, view, clst);
      match g.fsType
      case Fat12 => r := GetFat12(clst);
      case Fat16 => r := GetFat16(clst);
      case Fat32 => r := GetFat32(clst);
    }

    lemma EntryLocated(clst: dword)
      requires Valid() && g.IsCluster(clst)
      ensures g.Checked(|view|) && g.fatbase + g.FatSectors() <= |view| && win.Length == 512
    {
    }

    // What the window shows.
    lemma Loaded()
      requires Valid() && winsect != 0
      ensures win.Length == 512 && win[..] == view[winsect]
    {
    }

    // Load the byte at offset o of FAT copy 1 through the window.
    method LoadFatByte(o: nat) returns (res: FResult, b: byte)
      requires Valid() && o / 512 < g.fsize
      modifies `winsect, `wflag, win, disk
      ensures Valid() && winsect == FatSector(g, o) && res == Ok && b == FatByte(g, view, o)
      ensures old(disk.log) <= disk.log
    {
      b := 0;
      res := MoveWindow(FatSector(g, o));
      if res == Ok {
        b := win[o % 512];
      }
    }

    method GetFat12(clst: dword) returns (r: dword)
      requires Valid() && g.IsCluster(clst) && g.fsType == Fat12
      modifies `winsect, `wflag, win, disk
      ensures Valid() && g.InFat(winsect) && r == Entry(g, view, clst)
      ensures old(disk.log) <= disk.log
    {
      hide Chronicle, Agrees, MetaGrows, FatOf, PowerOfTwo, Mirrored, Store, Layout.FatBytes, Layout.VolumeEnd;
      g.Inside12(clst, |view|);
      var bc := Offset12(clst);
      var res, lo := LoadFatByte(bc);
      if res != Ok { return DISK_ERROR; }
      var hi;
      res, hi := LoadFatByte(bc + 1);
      if res != Ok { return DISK_ERROR; }
      return Pack12(lo, hi, clst % 2 == 1);
    }

    method GetFat16(clst: dword) returns (r: dword)
      requires Valid() && g.IsCluster(clst) && g.fsType == Fat16
      modifies `winsect, `wflag, win, disk
      ensures Valid() && g.InFat(winsect) && r == Entry(g, view, clst)
      ensures old(disk.log) <= disk.log
    {
      hide Chronicle, Agrees, MetaGrows, FatOf, PowerOfTwo, Mirrored;
      g.Inside16(clst, |view|);
      var res := MoveWindow(g.fatbase + clst / 256);
      if res != Ok { return DISK_ERROR; }
      return LdWord(win[..], clst * 2 % 512);
    }

    method GetFat32(clst: dword) returns (r: dword)
      requires Valid() && g.IsCluster(clst) && g.fsType == Fat32
      modifies `winsect, `wflag, win, disk
      ensures Valid() && g.InFat(winsect) && r == Entry(g, view, clst)
      ensures old(disk.log) <= disk.log
    {
      hide Chronicle, Agrees, MetaGrows, FatOf, PowerOfTwo, Mirrored;
      g.Inside32(clst, |view|);
      var res := MoveWindow(g.fatbase + clst / 128);
      if res != Ok { return DISK_ERROR; }
      return LdDword(win[..], clst * 4 % 512) % 0x1000_0000;
    }

    // Change a FAT entry. The entries of all other clusters, and all sectors outside the FAT, stay as they are.
    method PutFat(clst: dword, val: dword) returns (res: FResult)
      requires Valid()
      modifies `winsect, `wflag, `view, `fat, `steps, win, disk
      ensures Valid()
      ensures res == if g.IsCluster(clst) then Ok else IntErr
      ensures if res == Ok then wflag && g.InFat(winsect) else winsect == old(winsect)
      ensures view == if res == Ok then Put(g, old(view), clst, val) else old(view)
      ensures res == Ok ==> BytesStored(g, old(view), view, clst, val)
      ensures fat == if res == Ok then old(fat)[clst := val % Width(g.fsType)] else old(fat)
      ensures FatOnly(g, old(view), view)
      ensures res == Ok && g.fsType != Fat12 ==> steps == old(steps) + [Snapshot(view, meta)]
      ensures res != Ok ==> steps == old(steps)
      ensures old(disk.log) <= disk.log && old(steps) <= steps
    {
      if clst < 2 || clst >= g.nFatent {
        return IntErr;
      }
      PutIsUpdate(g, view, clst, val);
      PutStoresBytes(g, view, clst, val);
      match g.fsType
      case Fat12 => res := PutFat12(clst, val);
      case Fat16 => res := PutFat16(clst, val);
      case Fat32 => res := PutFat32(clst, val);
    }

    method PutFat12(clst: dword, val: dword) returns (res: FResult)
      requires Valid() && g.IsCluster(clst) && g.fsType == Fat12
      modifies `winsect, `wflag, `view, `fat, `steps, win, disk
      ensures Valid() && res == Ok && wflag && g.InFat(winsect)
      ensures view == Store12(g, old(view), clst, val)
      ensures old(disk.log) <= disk.log && old(steps) <= steps
    {
      hide Chronicle, Agrees, MetaGrows, FatOf, PowerOfTwo, Mirrored, Valid, StoreByte;
      EntryLocated(clst);
      g.Inside12(clst, |view|);
      var bc, odd := Offset12(clst), clst % 2 == 1;
      res := PutLow12(bc, val, odd);
      if res != Ok { return; }
      res := PutHigh12(bc + 1, val, odd);
      Store12InTwoSteps(g, old(view), clst, val);
    }

    method PutLow12(bc: nat, val: dword, odd: bool) returns (res: FResult)
      requires Valid() && bc / 512 < g.fsize
      modifies `winsect, `wflag, `view, `fat, `steps, win, disk
      ensures Valid() && res == Ok
      ensures view == StoreByte(g, old(view), bc, Low12(FatByte(g, old(view), bc), val, odd))
      ensures old(disk.log) <= disk.log && old(steps) <= steps
    {
      var p;
      res, p := LoadFatByte(bc);
      if res != Ok { return; }
      StoreFatByte(bc, Low12(p, val, odd));
    }

    method PutHigh12(bc: nat, val: dword, odd: bool) returns (res: FResult)
      requires Valid() && bc / 512 < g.fsize
      modifies `winsect, `wflag, `view, `fat, `steps, win, disk
      ensures Valid() && res == Ok && wflag && g.InFat(winsect)
      ensures view == StoreByte(g, old(view), bc, High12(FatByte(g, old(view), bc), val, odd))
      ensures old(disk.log) <= disk.log && old(steps) <= steps
    {
      var p;
      res, p := LoadFatByte(bc);
      if res != Ok { return; }
      StoreFatByte(bc, High12(p, val, odd));
    }

    // Change a byte of the FAT sector in the window.
    method StoreFatByte(o: nat, b: byte)
      requires Valid() && o / 512 < g.fsize && winsect == FatSector(g, o)
      modifies `wflag, `view, `fat, `steps, win
      ensures Valid() && wflag
      ensures view == StoreByte(g, old(view), o, b)
      ensures steps == old(steps) + [Snapshot(view, meta)]
    {
      win[o % 512] := b;
      assert win[..] == old(win[..])[o % 512 := b];
      MarkDirty();
    }

    method PutFat16(clst: dword, val: dword) returns (res: FResult)
      requires Valid() && g.IsCluster(clst) && g.fsType == Fat16
      modifies `winsect, `wflag, `view, `fat, `steps, win, disk
      ensures Valid() && res == Ok && wflag && g.InFat(winsect)
      ensures view == Store16(g, old(view), clst, val)
      ensures steps == old(steps) + [Snapshot(view, meta)]
      ensures old(disk.log) <= disk.log && old(steps) <= steps
    {
      hide Chronicle, Agrees, MetaGrows, FatOf, PowerOfTwo, Mirrored, Valid, Store;
      EntryLocated(clst);
      g.Inside16(clst, |view|);
      res := MoveWindow(g.fatbase + clst / 256);
      if res != Ok { return; }
      StoreFatWord(clst * 2 % 512, val);
    }

    method StoreFatWord(p: nat, val: dword)
      requires Valid() && g.InFat(winsect) && p + 2 <= 512
      modifies `wflag, `view, `fat, `steps, win
      ensures Valid() && wflag
      ensures view == Store(g, old(view), winsect, StWord(old(view)[winsect], p, val))
      ensures steps == old(steps) + [Snapshot(view, meta)]
    {
      StoreWord(win, p, val);
      MarkDirty();
    }

    method PutFat32(clst: dword, val: dword) returns (res: FResult)
      requires Valid() && g.IsCluster(clst) && g.fsType == Fat32
      modifies `winsect, `wflag, `view, `fat, `steps, win, disk
      ensures Valid() && res == Ok && wflag && g.InFat(winsect)
      ensures view == Store32(g, old(view), clst, val)
      ensures steps == old(steps) + [Snapshot(view, meta)]
      ensures old(disk.log) <= disk.log && old(steps) <= steps
    {
      hide Chronicle, Agrees, MetaGrows, FatOf, PowerOfTwo, Mirrored, Valid, Store, LdDword, StDword, Merge32;
      hide Layout.FatBytes, Layout.VolumeEnd;
      EntryLocated(clst);
      g.Inside32(clst, |view|);
      res := MoveWindow(g.fatbase + clst / 128);
      if res != Ok { return; }
      var p := clst * 4 % 512;
      Loaded();
      StoreFatDword(p, Merge32(LdDword(win[..], p), val));
    }

    method StoreFatDword(p: nat, val: dword)
      requires Valid() && g.InFat(winsect) && p + 4 <= 512
      modifies `wflag, `view, `fat, `steps, win
      ensures Valid() && wflag
      ensures view == Store(g, old(view), winsect, StDword(old(view)[winsect], p, val))
      ensures steps == old(steps) + [Snapshot(view, meta)]
    {
      StoreDword(win, p, val);
      MarkDirty();
    }
  }
}
