/**
 Open files: reading and writing byte streams over a cluster chain, with a private sector
 buffer for partial sectors and direct transfers for whole ones.
*/
module Files {
  import opened Bytes
  import opened Geometry
  import opened DiskIO
  import opened FatMap
  import opened Volumes
  import opened Blocks
  import opened FileMap
  import opened FileGrowth
  import opened Ordering
  import opened Allocator
  import opened WriteBehind
  import opened Entries
  import opened Syncing
  import Mount
  import Chains

  // Distance from sector b up to sector a in 32-bit arithmetic.
  function Distance(a: nat, b: nat): nat {
    (a - b) % 0x1_0000_0000
  }

  lemma DistanceInRun(a: nat, b: nat, cc: nat)
    requires a < 0x1_0000_0000 && b + cc <= 0x1_0000_0000
    ensures Distance(a, b) < cc <==> b <= a < b + cc
    ensures b <= a < b + cc ==> Distance(a, b) == a - b
  {
  }

  function Max(a: nat, b: nat): nat {
    if a < b then b else a
  }

  lemma SameSector(p: nat, q: nat)
    requires p % 512 + q < 512
    ensures (p + q) / 512 == p / 512 && (p + q) % 512 == p % 512 + q
  {
  }

  lemma SliceGrows(s: seq<byte>, a: nat, b: nat, c: nat)
    requires a <= b <= c <= |s|
    ensures s[a..b] + s[b..c] == s[a..c]
  {
  }

  // The test for a file size that reaches 4 GB.
  lemma SizeReachesLimit(a: dword, b: dword)
    ensures Add32(a, b) < a <==> a + b >= 0x1_0000_0000
  {
  }

  // Enter the next cluster of a chain: the following one, or a new one behind the last. The file in state s with
  // contents d stays in order unless the FAT is inconsistent.
  method GrowChain(fs: Volume, from: dword, ghost s: FileState, ghost d: seq<byte>, ghost seeking: bool)
    returns (clst: dword)
    requires fs.Valid() && Fit(fs.g, fs.fat, fs.view, s, d, fs.winsect, fs.meta, seeking)
    requires FreeIsUnused(fs.g, fs.fat, fs.meta)
    requires fs.g.csize > 0 && (s.fptr == 0 <==> s.cs == []) && from == if s.fptr == 0 then 0 else s.clust
    requires EntersNext(fs.g, fs.fat, Eoc(fs.g), s, Chains.Create(fs.fat, Eoc(fs.g), fs.lastClust, from))
    modifies fs, fs.win, fs.disk
    ensures fs.meta == old(fs.meta)
    ensures InOrder(fs.g, old(fs.steps)) ==> InOrder(fs.g, fs.steps)
    ensures fs.Valid() && |fs.view| == |old(fs.view)| && FatOnly(fs.g, old(fs.view), fs.view)
    ensures fs.winsect == old(fs.winsect) || fs.g.InFat(fs.winsect)
    ensures var r := Chains.Create(old(fs.fat), Eoc(fs.g), old(fs.lastClust), from);
            && clst == r.code && fs.fat == r.fat
            && (clst != 1 ==>
                  var t := s.(sclust := if s.fptr == 0 then clst else s.sclust, cs := ChainAfter(s.cs, r));
                  && Fit(fs.g, fs.fat, fs.view, t, d, fs.winsect, fs.meta, seeking)
                  && Grown(old(fs.fat), fs.fat, s.cs, t.cs) && FreeIsUnused(fs.g, fs.fat, fs.meta))
            && (!r.grew ==> r.fat == old(fs.fat))
    ensures old(fs.disk.log) <= fs.disk.log && old(fs.steps) <= fs.steps
  {
    hide FatOf, FatMap.Entry, Fit, Volume.Valid, Volume.Base, Chains.Create, EntersNext, FreeIsUnused, Grown, Shows;
    hide Agrees, InOrder;
    hide Eoc, Layout.Checked, Layout.FatSectors, FatOnly, Chains.GrowthTrace;
    GrowFacts(fs, from, s);
    ghost var eoc, before := Eoc(fs.g), fs.winsect;
    ghost var r := Chains.Create(fs.fat, eoc, fs.lastClust, from);
    ghost var f, v, steps := fs.fat, fs.view, fs.steps;
    fs.LastStep();
    clst := CreateChain(fs, from, false);
    if r.grew && InOrder(fs.g, steps) {
      if from != 0 { FileClusterOut(fs.g, f, v, s, d, before, fs.meta, seeking, from); }
      GrowthIsSafe(fs.g, v, fs.meta, steps, fs.steps, eoc, clst, from);
    }
    if clst != 1 {
      ExtendKeeps(fs.g, f, fs.fat, v, fs.view, eoc, s, r, d, fs.meta, before, fs.winsect, seeking);
    }
  }

  // No cluster of a file holds metadata.
  lemma FileClusterOut(g: Layout, f: seq<nat>, v: seq<Sector>, s: FileState, d: seq<byte>, winsect: nat,
                       meta: set<nat>, seeking: bool, c: dword)
    requires Fit(g, f, v, s, d, winsect, meta, seeking) && s.cs != [] && c == s.cs[|s.cs| - 1]
    ensures g.nFatent >= 2 && !ClusterIn(g, c, meta)
  {
    var t := g.Clust2Sect(c);
    assert OfCluster(g, c, t) && g.InCluster(s.cs[|s.cs| - 1], t);
  }

  lemma GrowFacts(fs: Volume, from: dword, s: FileState)
    requires fs.Valid() && fs.g.csize > 0
    requires EntersNext(fs.g, fs.fat, Eoc(fs.g), s, Chains.Create(fs.fat, Eoc(fs.g), fs.lastClust, from))
    ensures 3 <= |fs.fat| == fs.g.nFatent <= Eoc(fs.g) && fs.g.fatbase + fs.g.FatSectors() <= |fs.view|
    ensures fs.g.Checked(|fs.view|)
    ensures var r := Chains.Create(fs.fat, Eoc(fs.g), fs.lastClust, from);
            && r.code < 0x1_0000_0000
            && (r.grew && from != 0 ==> s.cs != [] && from == s.cs[|s.cs| - 1])
            && (r.grew ==>
                  && fs.g.IsCluster(r.code) && fs.fat[r.code] == 0 && from < fs.g.nFatent
                  && (from != 0 ==> fs.fat[from] != 0))
            && (!r.grew ==> r.fat == fs.fat)
  {
    hide FatOf, FatMap.Entry, PowerOfTwo, Linked;
    EocEnds(fs.g, |fs.view|);
    var r := Chains.Create(fs.fat, Eoc(fs.g), fs.lastClust, from);
    if r.grew && from != 0 {
      LinkedBehindLast(fs.fat, Eoc(fs.g), s.cs, r.code, from);
    }
  }

  // Linking behind cluster `from` is linking behind the last cluster of the chain.
  lemma LinkedBehindLast(f: seq<nat>, eoc: nat, cs: seq<dword>, c: nat, from: nat)
    requires c < |f| <= eoc && from < |f| && f[c] == 0 && f[from] >= |f| && (cs != [] ==> cs[|cs| - 1] < |f|)
    requires f[c := eoc][from := c] == Linked(f, eoc, cs, c)
    ensures cs != [] && from == cs[|cs| - 1]
  {
    assert Linked(f, eoc, cs, c)[from] == c;
  }

  class File {
    const fs: Volume
    const seeking: bool      // the configuration has f_lseek (_FS_MINIMIZE <= 2)
    const buf: array<byte>
    const dirSect: nat       // sector and slot of the directory entry
    const dirSlot: nat
    const canRead: bool
    const canWrite: bool
    var error: bool
    var written: bool
    var dirty: bool
    var fptr: dword
    var fsize: dword
    var sclust: dword        // start cluster, 0 if there is none
    var clust: dword         // cluster of the byte in front of fptr
    var dsect: nat           // sector in buf, 0 if none
    ghost var contents: seq<byte>
    ghost var chain: seq<dword>
    ghost var dk: nat        // position of dsect in the chain

    // A freshly opened file: its directory entry names the chain cs and the size.
    constructor (v: Volume, withSeek: bool, r: bool, w: bool, sector: nat, slot: nat, start: dword, size: dword,
                 ghost cs: seq<dword>)
      requires v.Valid() && ChainFrom(v.g, v.fat, start, cs) && size <= 512 * Capacity(v.g, cs)
      requires Apart(v.g, v.winsect, v.meta, cs)
      ensures Valid() && fresh(buf) && fs == v && seeking == withSeek
      ensures dirSect == sector && dirSlot == slot && canRead == r && canWrite == w && !error && !written && !dirty
      ensures fptr == 0 && fsize == size && sclust == start && chain == cs
      ensures v.g.Checked(|v.view|) && Proper(v.g, cs) && contents == Data(v.g, v.view, cs, size)
    {
      hide FatOf, FatMap.Entry, Chronicle, Store, Capacity, Content, Volume.Valid, Layout.Checked, Fit, Ready;
      hide Tracking, Valid;
      fs, seeking, canRead, canWrite, dirSect, dirSlot := v, withSeek, r, w, sector, slot;
      error, written, dirty := false, false, false;
      fptr, fsize, sclust, clust, dsect := 0, size, start, 0, 0;
      buf := new byte[512](_ => 0);
      chain, dk := cs, 0;
      new;
      FreshContents(cs);
      contents := Content(fs.g, fs.view, State(), size);
      FreshIsValid(cs);
    }

    lemma FreshContents(cs: seq<dword>)
      requires fs.Valid() && ChainFrom(fs.g, fs.fat, sclust, cs) && fsize <= 512 * Capacity(fs.g, cs) && chain == cs
      requires buf.Length == 512 && !dirty
      ensures fs.g.Checked(|fs.view|) && Proper(fs.g, chain) && |Content(fs.g, fs.view, State(), fsize)| == fsize
      ensures Content(fs.g, fs.view, State(), fsize) == Data(fs.g, fs.view, chain, fsize)
    {
      hide FatOf, FatMap.Entry, Chronicle, Store, Capacity;
      ChainIsProper(fs.g, fs.fat, cs);
    }

    lemma FreshIsValid(cs: seq<dword>)
      requires fs.Valid() && ChainFrom(fs.g, fs.fat, sclust, cs) && fsize <= 512 * Capacity(fs.g, cs) && chain == cs
      requires buf.Length == 512
      requires Apart(fs.g, fs.winsect, fs.meta, cs) && buf != fs.win && fptr == 0 && dsect == 0 && !dirty
      requires fs.g.Checked(|fs.view|) && Proper(fs.g, chain) && contents == Content(fs.g, fs.view, State(), fsize)
      ensures Valid()
    {
      hide FatOf, FatMap.Entry, Chronicle, Store, Capacity, Content, Volume.Valid;
      assert |contents| == fsize;
    }

    ghost function State(): FileState
      requires buf.Length == 512
      reads this, buf
    {
      FileState(fptr, fsize, sclust, clust, dsect, dirty, buf[..], chain, dk)
    }

    // Chain and buffer are in order; the pointer and the current cluster may be under way.
    ghost predicate Ready()
      reads this, buf, fs, fs.win, fs.disk
    {
      && fs.Valid() && buf.Length == 512 && buf != fs.win
      && Fit(fs.g, fs.fat, fs.view, State(), contents, fs.winsect, fs.meta, seeking)
    }

    ghost predicate Valid()
      reads this, buf, fs, fs.win, fs.disk
    {
      Ready() && Tracking(fs.g, State()) && fptr <= fsize == |contents|
    }

    // ----- reading

    // On a sector boundary: enter the cluster of the pointer and return its sector.
    method Locate() returns (res: FResult, sect: nat)
      requires Valid() && fptr % 512 == 0 && fptr < fsize
      modifies `clust, fs`winsect, fs`wflag, fs.win, fs.disk
      ensures fs.winsect == old(fs.winsect) || fs.g.InFat(fs.winsect)
      ensures Ready() && res == Ok
      ensures Ordinal(fs.g, fptr / 512) < |chain|
      ensures clust == chain[Ordinal(fs.g, fptr / 512)] && sect == SectorAt(fs.g, chain, fptr / 512)
      ensures old(fs.disk.log) <= fs.disk.log
    {
      hide *;
      LocateFacts();
      sect := 0;
      ghost var s, before := FileState(fptr, fsize, sclust, clust, dsect, dirty, buf[..], chain, dk), fs.winsect;
      var csect := BitAnd(fptr / 512, fs.g.csize - 1);
      if csect == 0 {
        var clst;
        if fptr == 0 {
          clst := sclust;
        } else {
          clst := fs.GetFat(clust);
        }
        if clst < 2 { return IntErr, sect; }
        if clst == DISK_ERROR { return DiskErr, sect; }
        clust := clst;
      }
      sect := fs.g.Clust2Sect(clust);
      if sect == 0 { return IntErr, sect; }
      sect := sect + csect;
      res := Ok;
      ReadyThrough(s, before);
    }

    lemma LocateFacts()
      requires Valid() && fptr % 512 == 0 && fptr < fsize
      ensures fs.Valid() && fs.g.csize > 0 && fs.g.nFatent >= 2 && buf.Length == 512 && buf != fs.win
      ensures Fit(fs.g, fs.fat, fs.view, FileState(fptr, fsize, sclust, clust, dsect, dirty, buf[..], chain, dk),
                  contents, fs.winsect, fs.meta, seeking)
      ensures Ordinal(fs.g, fptr / 512) < |chain|
      ensures var c, csect := chain[Ordinal(fs.g, fptr / 512)], BitAnd(fptr / 512, fs.g.csize - 1);
              && 1 < c < DISK_ERROR && fs.g.Clust2Sect(c) > 0
              && fs.g.Clust2Sect(c) + csect == SectorAt(fs.g, chain, fptr / 512)
              && if csect != 0 then clust == c
                 else if fptr == 0 then sclust == c
                 else fs.g.IsCluster(clust) && |fs.fat| > clust && fs.fat[clust] == c
    {
      hide FatOf, FatMap.Entry, SectorAt, Ordinal, Proper, Chronicle, Store, Content;
      EnteredIsNext(fs.g, fs.fat, fs.view, State());
      EocEnds(fs.g, |fs.view|);
    }

    lemma ReadyThrough(s: FileState, before: nat)
      requires fs.Valid() && buf.Length == 512 && buf != fs.win
      requires Fit(fs.g, fs.fat, fs.view, s, contents, before, fs.meta, seeking)
      requires fs.winsect == before || fs.g.InFat(fs.winsect)
      requires s.(clust := clust) == FileState(fptr, fsize, sclust, clust, dsect, dirty, buf[..], chain, dk)
      ensures Ready()
    {
      FitAnyCluster(fs.g, fs.fat, fs.view, s, clust, contents, before, fs.meta, seeking);
      hide Backed, Content;
      if fs.winsect != before {
        FitInFat(fs.g, fs.fat, fs.view, s.(clust := clust), contents, before, fs.winsect, fs.meta, seeking);
      }
    }

    // Read cc whole sectors at the pointer.
    method ReadDirect(sect: nat, cc: nat) returns (res: FResult, data: seq<byte>)
      requires Ready() && fptr % 512 == 0 && 1 <= cc && fptr + 512 * cc <= |contents|
      requires Ordinal(fs.g, fptr / 512) < |chain| && Rest(fs.g, fptr / 512) + cc <= fs.g.csize
      requires sect == SectorAt(fs.g, chain, fptr / 512)
      ensures res == Ok && data == contents[fptr..fptr + 512 * cc]
    {
      hide Fit, Volume.Valid, Gather;
      DirectFacts(sect, cc);
      var ok;
      ok, data := ReadDataRun(fs, sect, cc);
      if !ok { return DiskErr, data; }
      DistanceInRun(dsect, sect, cc);
      ghost var raw := data;
      if seeking && dirty && Distance(dsect, sect) < cc {
        var x := 512 * Distance(dsect, sect);
        data := data[..x] + buf[..] + data[x + 512..];
      }
      DirectMatches(sect, cc, raw, data);
      res := Ok;
    }

    lemma DirectFacts(sect: nat, cc: nat)
      requires Ready() && 1 <= cc && Ordinal(fs.g, fptr / 512) < |chain| && Rest(fs.g, fptr / 512) + cc <= fs.g.csize
      requires sect == SectorAt(fs.g, chain, fptr / 512)
      ensures Bypass(fs, sect, cc) && sect + cc <= 0x1_0000_0000 && dsect < 0x1_0000_0000
    {
      hide FatOf, Entry, Content, SectorAt, Ordinal, Rest, Proper, Capacity, Layout.Checked, Chronicle, Agrees;
      hide MetaGrows;
      hide Mirrored, Store, Apart;
      RunApart(fs.g, fs.winsect, fs.meta, chain, fptr / 512, cc, |fs.view|);
    }

    // What a direct transfer delivers is the contents, if a dirty buffer among the sectors is put in place.
    lemma DirectMatches(sect: nat, cc: nat, raw: seq<byte>, data: seq<byte>)
      requires Ready() && fptr % 512 == 0 && fptr + 512 * cc <= |contents| && sect + cc <= |fs.view|
      requires Ordinal(fs.g, fptr / 512) < |chain| && Rest(fs.g, fptr / 512) + cc <= fs.g.csize
      requires sect == SectorAt(fs.g, chain, fptr / 512) && raw == Gather(fs.view, sect, cc)
      requires var x := 512 * (dsect - sect);
               data == if seeking && dirty && sect <= dsect < sect + cc then raw[..x] + buf[..] + raw[x + 512..]
                 else raw
      ensures data == contents[fptr..fptr + 512 * cc]
    {
      hide FatOf, Entry, Content, SectorAt, Ordinal, Rest, Capacity, Layout.Checked, Volume.Valid, Apart, Backed;
      hide Gather;
      var overlay := seeking && dirty && sect <= dsect < sect + cc;
      if !seeking && dirty {
        BufferInFront(fs.g, fs.fat, fs.view, State());
        BufferBehind(fs.g, fs.fat, fs.view, State(), cc);
      }
      DirectData(fs.g, fs.fat, fs.view, State(), |contents|, cc, raw, data, overlay);
    }

    // Write the dirty buffer back.
    method FlushBuffer() returns (res: FResult)
      requires Ready() && dirty
      modifies `dirty, fs`view, fs.disk
      ensures Ready() && !dirty && res == Ok
      ensures |fs.view| == |old(fs.view)| && Through(fs.view, State()) == old(Through(fs.view, State()))
      ensures fs.view == old(fs.view)[dsect := buf[..]]
      ensures old(fs.disk.log) <= fs.disk.log
    {
      hide FatOf, Entry, SectorAt, Ordinal, Rest, Capacity, Layout.Checked;
      BufferPlace();
      var ok := WriteData(fs, buf, dsect);
      if !ok { return DiskErr; }
      FlushKeeps(fs.g, old(fs.fat), old(fs.view), old(State()));
      dirty := false;
      res := Ok;
    }

    lemma BufferPlace()
      requires Ready() && dsect != 0
      ensures IsFileData(fs, dsect, 1) && fs.g.fatbase + fs.g.FatSectors() <= dsect < |fs.view|
    {
      SectorPlace(fs.g, chain, dk, |fs.view|);
    }

    // Bring the sector at the pointer into the buffer.
    method FillBuffer(sect: nat) returns (res: FResult)
      requires Ready() && Ordinal(fs.g, fptr / 512) < |chain| && sect == SectorAt(fs.g, chain, fptr / 512)
      modifies `dirty, `dsect, `dk, buf, fs`view, fs.disk
      ensures Ready() && res == Ok && dsect == sect && dsect != 0 && dk == fptr / 512
      ensures |fs.view| == |old(fs.view)| && Through(fs.view, State()) == old(Through(fs.view, State()))
      ensures OnlyIn(fs.g, chain, old(fs.view), fs.view)
      ensures dirty ==> old(dirty)
      ensures old(fs.disk.log) <= fs.disk.log
    {
      hide FatOf, Entry, SectorAt, Ordinal, Rest, Capacity, Layout.Checked, Data, Chronicle, Agrees, MetaGrows;
      hide Mirrored, Store;
      BufferPosition(fs.g, fs.fat, fs.view, State(), fptr / 512);
      res := Ok;
      if dsect != sect {
        if dirty {
          BufferIsOwn();
          res := FlushBuffer();
          if res != Ok { return; }
        }
        res := LoadBuffer(sect);
      }
    }

    lemma BufferIsOwn()
      requires Ready() && dsect != 0
      ensures exists i :: 0 <= i < |chain| && fs.g.InCluster(chain[i], dsect)
    {
      SectorPlace(fs.g, chain, dk, |fs.view|);
    }

    // Read the sector at the pointer into the clean buffer.
    method LoadBuffer(sect: nat) returns (res: FResult)
      requires Ready() && !dirty && Ordinal(fs.g, fptr / 512) < |chain| && sect == SectorAt(fs.g, chain, fptr / 512)
      modifies `dsect, `dk, buf
      ensures Ready() && res == Ok && dsect == sect && dsect != 0 && dk == fptr / 512
    {
      hide *;
      LoadFacts(sect);
      ghost var t := FileState(fptr, fsize, sclust, clust, sect, dirty, fs.view[sect], chain, fptr / 512);
      var ok := ReadData(fs, buf, sect);
      if !ok { return DiskErr; }
      dsect := sect;
      dk := fptr / 512;
      ReadyAs(t);
      res := Ok;
    }

    lemma LoadFacts(sect: nat)
      requires Ready() && !dirty && Ordinal(fs.g, fptr / 512) < |chain| && sect == SectorAt(fs.g, chain, fptr / 512)
      ensures fs.Valid() && buf.Length == 512 && buf != fs.win && 0 < sect < |fs.view| && Bypass(fs, sect, 1)
      ensures Fit(fs.g, fs.fat, fs.view,
          FileState(fptr, fsize, sclust, clust, sect, dirty, fs.view[sect], chain, fptr / 512),
                  contents, fs.winsect, fs.meta, seeking)
    {
      OneInCluster(fs.g, fptr / 512);
      RunApart(fs.g, fs.winsect, fs.meta, chain, fptr / 512, 1, |fs.view|);
      LoadKeeps(fs.g, fs.fat, fs.view, State(), fptr / 512);
    }

    lemma ReadyAs(s: FileState)
      requires fs.Valid() && buf.Length == 512 && buf != fs.win
      requires Fit(fs.g, fs.fat, fs.view, s, contents, fs.winsect, fs.meta, seeking)
      requires s == FileState(fptr, fsize, sclust, clust, dsect, dirty, buf[..], chain, dk)
      ensures Ready()
    {
    }

    // Move the pointer on.
    method MoveBy(n: nat)
      requires Ready() && fptr + n < 0x1_0000_0000 && Tracking(fs.g, State().(fptr := fptr + n))
      modifies `fptr
      ensures Ready() && Tracking(fs.g, State()) && fptr == old(fptr) + n
    {
      hide FatOf, Entry, SectorAt, Capacity, Layout.Checked, Data, Ordinal, Rest;
      fptr := fptr + n;
    }

    // Read whole sectors at the pointer, as many as btr asks for and the cluster holds.
    method ReadWhole(sect: nat, btr: nat) returns (res: FResult, data: seq<byte>)
      requires Ready() && fsize == |contents| && Entering(fs.g, State()) && fptr % 512 == 0
      requires 512 <= btr <= |contents| - fptr
      requires sect == SectorAt(fs.g, chain, fptr / 512)
      modifies `fptr
      ensures Valid() && res == Ok && 0 < |data| <= btr && fptr == old(fptr) + |data|
      ensures data == contents[old(fptr)..fptr]
    {
      hide *;
      ReadyFacts();
      var cc := Clip(fs.g, fptr / 512, btr / 512);
      WholeFacts(btr / 512);
      ghost var p := fptr + 512 * cc;
      res, data := ReadDirect(sect, cc);
      if res != Ok { return; }
      WholeTracked(p);
      MoveBy(512 * cc);
      BecomesValid();
    }

    // Read from the buffered sector.
    method ReadPartial(btr: nat) returns (data: seq<byte>)
      requires Ready() && fsize == |contents| && Entering(fs.g, State()) && dsect != 0 && dk == fptr / 512
      requires 0 < btr <= |contents| - fptr
      modifies `fptr
      ensures Valid() && 0 < |data| <= btr && fptr == old(fptr) + |data|
      ensures data == contents[old(fptr)..fptr]
    {
      hide *;
      ReadyFacts();
      var rcnt := 512 - fptr % 512;
      if rcnt > btr { rcnt := btr; }
      data := buf[fptr % 512..fptr % 512 + rcnt];
      BufferedBytes(rcnt);
      AdvanceInside(rcnt);
      MoveBy(rcnt);
      BecomesValid();
    }

    lemma ReadyFacts()
      requires Ready()
      ensures buf.Length == 512 && fs.g.csize > 0 && fs.g.nFatent >= 2
    {
    }

    lemma AdvanceInside(n: nat)
      requires Ready() && Entering(fs.g, State()) && dsect != 0 && dk == fptr / 512
      requires 0 < n <= 512 - fptr % 512 && fptr + n < 0x1_0000_0000
      ensures Tracking(fs.g, State().(fptr := fptr + n))
    {
      AdvancePartial(fs.g, State(), n);
    }

    lemma BecomesValid()
      requires Ready() && fs.g.csize > 0 && fs.g.nFatent >= 2 && Tracking(fs.g, State()) && fptr <= fsize == |contents|
      ensures Valid()
    {
    }

    lemma BufferedBytes(n: nat)
      requires Ready() && dsect != 0 && dk == fptr / 512 && n <= 512 - fptr % 512 && fptr + n <= |contents|
      ensures buf[fptr % 512..fptr % 512 + n] == contents[fptr..fptr + n]
    {
      hide FatOf, Entry, Content, Backed, Volume.Valid;
      var a, b := buf[fptr % 512..fptr % 512 + n], contents[fptr..fptr + n];
      forall q | 0 <= q < n
        ensures a[q] == b[q]
      {
        SameSector(fptr, q);
        BufferedByte(fs.g, fs.fat, fs.view, State(), |contents|, fptr + q);
      }
    }

    // On a sector boundary: read whole sectors if at least one is asked for, else bring the sector into the buffer.
    method EnterSector(btr: nat) returns (res: FResult, data: seq<byte>)
      requires Valid() && fptr % 512 == 0 && 0 < btr <= |contents| - fptr
      modifies `fptr, `clust, `dirty, `dsect, `dk, buf, fs`view, fs`winsect, fs`wflag, fs.win, fs.disk
      ensures fs.winsect == old(fs.winsect) || fs.g.InFat(fs.winsect)
      ensures res == Ok && |data| <= btr && fptr == old(fptr) + |data| && fs.g.csize > 0
      ensures data == contents[old(fptr)..fptr] && Ready()
      ensures OnlyIn(fs.g, chain, old(fs.view), fs.view)
      ensures if btr / 512 > 0 then Valid() && data != []
              else data == [] && Entering(fs.g, State()) && dsect != 0 && dk == fptr / 512
      ensures dirty ==> old(dirty)
      ensures old(fs.disk.log) <= fs.disk.log
    {
      hide *;
      ReadFacts();
      NothingChanged(fs.g, chain, fs.view);
      data := [];
      var sect;
      res, sect := Locate();
      if res != Ok { return; }
      StillEntering();
      if btr / 512 > 0 {
        res, data := ReadWhole(sect, btr);
        ReadFacts();
      } else {
        res := FillBuffer(sect);
        StillEntering();
      }
    }

    lemma ReadFacts()
      requires Valid()
      ensures Ready() && fs.g.csize > 0 && fs.g.nFatent >= 2 && buf.Length == 512
      ensures fptr <= fsize == |contents| < 0x1_0000_0000
    {
    }

    lemma AlreadyBuffered()
      requires Valid() && fptr % 512 != 0
      ensures Ready() && fs.g.csize > 0 && Entering(fs.g, State()) && dsect != 0 && dk == fptr / 512
    {
      InsideSector(fs.g, State());
    }

    // Read some bytes at the pointer: a run of whole sectors, or part of one.
    method ReadStep(btr: nat) returns (res: FResult, data: seq<byte>)
      requires Valid() && 0 < btr <= |contents| - fptr
      modifies `fptr, `clust, `dirty, `dsect, `dk, buf, fs`view, fs`winsect, fs`wflag, fs.win, fs.disk
      ensures fs.winsect == old(fs.winsect) || fs.g.InFat(fs.winsect)
      ensures Valid() && res == Ok && 0 < |data| <= btr && fptr == old(fptr) + |data|
      ensures data == contents[old(fptr)..fptr]
      ensures OnlyIn(fs.g, chain, old(fs.view), fs.view)
      ensures dirty ==> old(dirty)
      ensures old(fs.disk.log) <= fs.disk.log
    {
      hide *;
      ReadFacts();
      NothingChanged(fs.g, chain, fs.view);
      res, data := Ok, [];
      if fptr % 512 == 0 {
        res, data := EnterSector(btr);
        if res != Ok || btr / 512 > 0 { return; }
      } else {
        AlreadyBuffered();
      }
      data := ReadPartial(btr);
    }

    // Read exactly btr bytes, none of them behind the end of the file.
    method ReadAll(btr: nat) returns (res: FResult, data: seq<byte>)
      requires Valid() && btr <= |contents| - fptr
      modifies `fptr, `clust, `dirty, `dsect, `dk, buf, fs`view, fs`winsect, fs`wflag, fs.win, fs.disk
      ensures fs.winsect == old(fs.winsect) || fs.g.InFat(fs.winsect)
      ensures Valid() && res == Ok && fptr == old(fptr) + btr && data == contents[old(fptr)..fptr]
      ensures fs.g.nFatent >= 2 && OnlyIn(fs.g, chain, old(fs.view), fs.view)
      ensures dirty ==> old(dirty)
      ensures old(fs.disk.log) <= fs.disk.log
    {
      hide *;
      ReadFacts();
      NothingChanged(fs.g, chain, fs.view);
      res, data := Ok, [];
      var n := btr;
      while n > 0
        invariant Valid() && res == Ok && 0 <= n <= btr && fptr == old(fptr) + (btr - n)
        invariant data == contents[old(fptr)..fptr]
        invariant fs.winsect == old(fs.winsect) || fs.g.InFat(fs.winsect)
        invariant OnlyIn(fs.g, chain, old(fs.view), fs.view)
        invariant dirty ==> old(dirty)
        invariant old(fs.disk.log) <= fs.disk.log
      {
        ghost var v, mid := fs.view, fptr;
        var d;
        res, d := ReadStep(n);
        if res != Ok { return; }
        OnlyInTransitive(fs.g, chain, old(fs.view), v, fs.view);
        SliceGrows(contents, old(fptr), mid, fptr);
        data := data + d;
        n := n - |d|;
      }
    }

    // Read up to btr bytes at the pointer, as many as the file holds from there on.
    method FRead(btr: dword) returns (res: FResult, data: seq<byte>)
      requires Valid()
      modifies `fptr, `clust, `dirty, `dsect, `dk, `error, buf, fs`view, fs`winsect, fs`wflag, fs.win, fs.disk
      ensures fs.winsect == old(fs.winsect) || fs.g.InFat(fs.winsect)
      ensures Valid() && error == old(error)
      ensures res == if error then IntErr else if !canRead then Denied else Ok
      ensures |data| == if res != Ok then 0 else if btr > fsize - old(fptr) then fsize - old(fptr) else btr
      ensures fptr == old(fptr) + |data| && data == contents[old(fptr)..fptr]
      ensures OnlyIn(fs.g, chain, old(fs.view), fs.view)
      ensures dirty ==> old(dirty)
      ensures old(fs.disk.log) <= fs.disk.log
    {
      hide *;
      ValidFacts();
      NothingChanged(fs.g, chain, fs.view);
      data := [];
      res := if error then IntErr else if !canRead then Denied else Ok;
      if res == Ok {
        res, data := ReadAll(if btr > fsize - fptr then fsize - fptr else btr);
        error := error || res != Ok;
      }
    }

    // ----- writing

    // No cluster is free, and the pointer is at the end of the chain: not one more byte fits.
    ghost predicate Full()
      reads `fptr, `chain, fs`fat
    {
      NoneFree(fs.fat) && fptr == 512 * Capacity(fs.g, chain)
    }

    lemma BecomesFull()
      requires NoneFree(fs.fat) && fptr == 512 * Capacity(fs.g, chain)
      ensures Full()
    {
    }

    // On a cluster boundary: the cluster to enter, newly allocated if the chain ends here.
    // 0 if the volume is full, 1 if the FAT is inconsistent.
    method StretchChain() returns (clst: dword)
      requires Ready() && Tracking(fs.g, State()) && fptr <= |contents|
      requires fptr % 512 == 0 && Rest(fs.g, fptr / 512) == 0
      requires FreeIsUnused(fs.g, fs.fat, fs.meta)
      modifies `sclust, `chain
      modifies fs, fs.win, fs.disk
      ensures fs.meta == old(fs.meta)
      ensures InOrder(fs.g, old(fs.steps)) ==> InOrder(fs.g, fs.steps)
      ensures |fs.view| == |old(fs.view)| && FatOnly(fs.g, old(fs.view), fs.view)
      ensures fs.winsect == old(fs.winsect) || fs.g.InFat(fs.winsect)
      ensures clst != 1 ==>
                && Ready() && Grown(old(fs.fat), fs.fat, old(chain), chain)
                && FreeIsUnused(fs.g, fs.fat, fs.meta)
      ensures clst == 0 ==> chain == old(chain) && sclust == old(sclust) && Full()
      ensures clst == 1 ==> HasOne(old(fs.fat))
      ensures clst > 1 ==>
              && clst < DISK_ERROR && Ordinal(fs.g, fptr / 512) < |chain|
              && chain[Ordinal(fs.g, fptr / 512)] == clst
      ensures old(fs.disk.log) <= fs.disk.log && old(fs.steps) <= fs.steps
    {
      hide *;
      StretchFacts();
      if fptr == 0 && sclust != 0 {
        clst := sclust;
      } else {
        clst := Extend();
        if clst == 0 { BecomesFull(); }
      }
    }

    lemma StretchFacts()
      requires Ready() && Tracking(fs.g, State()) && fptr <= |contents|
      requires fptr % 512 == 0 && Rest(fs.g, fptr / 512) == 0
      ensures fs.g.csize > 0 && fs.g.fatbase + fs.g.FatSectors() <= |fs.view|
      ensures FatOnly(fs.g, fs.view, fs.view) && Grown(fs.fat, fs.fat, chain, chain)
      ensures fptr == 0 && sclust != 0 ==>
              && 1 < sclust < DISK_ERROR && Ordinal(fs.g, fptr / 512) < |chain|
              && chain[Ordinal(fs.g, fptr / 512)] == sclust
      ensures !(fptr == 0 && sclust != 0) ==>
        var r := GrowthAhead();
        && (fptr == 0 <==> chain == []) && EntersNext(fs.g, fs.fat, Eoc(fs.g), State(), r) && r.code < 0x1_0000_0000
        && (r.code == 0 ==>
              && ChainAfter(chain, r) == chain && NoneFree(fs.fat) && fptr == 512 * Capacity(fs.g, chain)
              && !r.grew && (fptr == 0 ==> sclust == 0))
        && (r.code == 1 ==> HasOne(fs.fat))
        && (r.code > 1 ==> && r.code < DISK_ERROR && Ordinal(fs.g, fptr / 512) < |ChainAfter(chain, r)|
                           && ChainAfter(chain, r)[Ordinal(fs.g, fptr / 512)] == r.code)
    {
      hide FatOf, FatMap.Entry, Capacity, SectorAt, Linked, Chronicle, Store;
      NothingGrown(fs.fat, chain);
      if fptr == 0 && sclust != 0 {
        EntersFirst(fs.g, fs.fat, fs.view, State());
      } else {
        EocEnds(fs.g, |fs.view|);
        StretchOutcome(fs.g, fs.fat, fs.view, Eoc(fs.g), fs.lastClust, State());
        CapacityReached(fs.g, chain, fptr);
      }
    }

    method Extend() returns (clst: dword)
      requires Ready() && FreeIsUnused(fs.g, fs.fat, fs.meta) && fs.g.csize > 0 && (fptr == 0 <==> chain == [])
      requires EntersNext(fs.g, fs.fat, Eoc(fs.g), State(), GrowthAhead())
      modifies `sclust, `chain
      modifies fs, fs.win, fs.disk
      ensures fs.meta == old(fs.meta)
      ensures InOrder(fs.g, old(fs.steps)) ==> InOrder(fs.g, fs.steps)
      ensures |fs.view| == |old(fs.view)| && FatOnly(fs.g, old(fs.view), fs.view)
      ensures fs.winsect == old(fs.winsect) || fs.g.InFat(fs.winsect)
      ensures clst == old(GrowthAhead()).code
      ensures clst != 1 ==>
                && Ready() && Grown(old(fs.fat), fs.fat, old(chain), chain)
                && FreeIsUnused(fs.g, fs.fat, fs.meta)
      ensures old(GrowthAhead()).code < 0x1_0000_0000 && chain == ChainAfter(old(chain), old(GrowthAhead()))
      ensures sclust == if old(fptr) == 0 then clst else old(sclust)
      ensures !old(GrowthAhead()).grew ==> fs.fat == old(fs.fat)
      ensures old(fs.disk.log) <= fs.disk.log && old(fs.steps) <= fs.steps
    {
      hide FatOf, Entry, Chains.Create, Ordinal, Rest, Capacity, SectorAt, Linked, Fit, FreeIsUnused, Eoc;
      hide Volume.Valid, Grown, Layout.Checked, FatOnly, Allocated, EntersNext;
      ghost var r := GrowthAhead();
      clst := GrowChain(fs, if fptr == 0 then 0 else clust, State(), contents, seeking);
      if fptr == 0 { sclust := clst; }
      chain := ChainAfter(chain, r);
    }

    // What stretching does from here.
    ghost function GrowthAhead(): Chains.Growth
      requires Ready()
      reads this, buf, fs, fs.win, fs.disk
    {
      Chains.Create(fs.fat, Eoc(fs.g), fs.lastClust, if fptr == 0 then 0 else clust)
    }

    // On a sector boundary: enter the cluster of the pointer; more is false if the volume is full.
    method EnterCluster(csect: nat) returns (res: FResult, more: bool)
      requires Ready() && Tracking(fs.g, State()) && fptr <= |contents| && fptr % 512 == 0
      requires csect == Rest(fs.g, fptr / 512)
      requires FreeIsUnused(fs.g, fs.fat, fs.meta)
      modifies `sclust, `chain, `clust
      modifies fs, fs.win, fs.disk
      ensures fs.meta == old(fs.meta)
      ensures InOrder(fs.g, old(fs.steps)) ==> InOrder(fs.g, fs.steps)
      ensures |fs.view| == |old(fs.view)| && FatOnly(fs.g, old(fs.view), fs.view)
      ensures fs.winsect == old(fs.winsect) || fs.g.InFat(fs.winsect)
      ensures res == Ok || (res == IntErr && HasOne(old(fs.fat)))
      ensures res == Ok ==>
              && Ready() && Grown(old(fs.fat), fs.fat, old(chain), chain)
              && FreeIsUnused(fs.g, fs.fat, fs.meta)
      ensures res == Ok && more ==> Entering(fs.g, State())
      ensures res == Ok && !more ==> Tracking(fs.g, State()) && Full()
      ensures old(fs.disk.log) <= fs.disk.log && old(fs.steps) <= fs.steps
    {
      assert fs.Valid() && fs.g.Checked(|fs.view|);
      assert FatOnly(fs.g, fs.view, fs.view);
      NothingGrown(fs.fat, chain);
      res, more := Ok, true;
      if csect == 0 {
        res, more := EnterNextCluster();
      } else {
        StaysInCluster(fs.g, State());
      }
    }

    method EnterNextCluster() returns (res: FResult, more: bool)
      requires Ready() && Tracking(fs.g, State()) && fptr <= |contents| && fptr % 512 == 0
      requires Rest(fs.g, fptr / 512) == 0
      requires FreeIsUnused(fs.g, fs.fat, fs.meta)
      modifies `sclust, `chain, `clust
      modifies fs, fs.win, fs.disk
      ensures fs.meta == old(fs.meta)
      ensures InOrder(fs.g, old(fs.steps)) ==> InOrder(fs.g, fs.steps)
      ensures |fs.view| == |old(fs.view)| && FatOnly(fs.g, old(fs.view), fs.view)
      ensures fs.winsect == old(fs.winsect) || fs.g.InFat(fs.winsect)
      ensures res == Ok || (res == IntErr && HasOne(old(fs.fat)))
      ensures res == Ok ==>
              && Ready() && Grown(old(fs.fat), fs.fat, old(chain), chain)
              && FreeIsUnused(fs.g, fs.fat, fs.meta)
      ensures res == Ok && more ==> Entering(fs.g, State())
      ensures res == Ok && !more ==> Tracking(fs.g, State()) && Full()
      ensures old(fs.disk.log) <= fs.disk.log && old(fs.steps) <= fs.steps
    {
      hide FatOf, Entry, Fit, FreeIsUnused, Grown, FatOnly, Volume.Valid, Ordinal, Capacity, Full, Layout.Checked;
      res, more := Ok, false;
      var clst := StretchChain();
      if clst == 1 { return IntErr, false; }
      if clst == DISK_ERROR { return DiskErr, false; }
      if clst != 0 {
        more := true;
        FitAnyCluster(fs.g, fs.fat, fs.view, State(), clst, contents, fs.winsect, fs.meta, seeking);
        clust := clst;
      }
    }

    method FlushIfDirty() returns (res: FResult)
      requires Ready()
      modifies `dirty, fs`view, fs.disk
      ensures Ready() && !dirty && res == Ok && OnlyIn(fs.g, chain, old(fs.view), fs.view)
      ensures old(fs.disk.log) <= fs.disk.log
    {
      NothingChanged(fs.g, chain, fs.view);
      res := Ok;
      if dirty {
        BufferIsOwn();
        res := FlushBuffer();
      }
    }

    // The sector of the pointer in the current cluster.
    method CurrentSector(csect: nat) returns (res: FResult, sect: nat)
      requires Ready() && Entering(fs.g, State()) && csect == Rest(fs.g, fptr / 512)
      ensures res == Ok && sect == SectorAt(fs.g, chain, fptr / 512)
    {
      fs.g.ZeroIffInvalid(clust, |fs.view|);
      res := Ok;
      sect := fs.g.Clust2Sect(clust);
      if sect == 0 { return IntErr, sect; }
      sect := sect + csect;
    }

    // Enter the cluster of the pointer and write the buffer back.
    method EnterFlushed(csect: nat) returns (res: FResult, more: bool)
      requires Ready() && Tracking(fs.g, State()) && fptr <= |contents| && fptr % 512 == 0
      requires csect == Rest(fs.g, fptr / 512)
      requires FreeIsUnused(fs.g, fs.fat, fs.meta)
      modifies `sclust, `chain, `clust, `dirty
      modifies fs, fs.win, fs.disk
      ensures fs.meta == old(fs.meta)
      ensures InOrder(fs.g, old(fs.steps)) ==> InOrder(fs.g, fs.steps)
      ensures fs.winsect == old(fs.winsect) || fs.g.InFat(fs.winsect)
      ensures res == Ok || (res == IntErr && HasOne(old(fs.fat)))
      ensures res == Ok ==>
        && Ready() && Grown(old(fs.fat), fs.fat, old(chain), chain) && FreeIsUnused(fs.g, fs.fat, fs.meta)
        && OnlyIn(fs.g, chain, old(fs.view), fs.view)
      ensures res == Ok && !more ==> Tracking(fs.g, State()) && Full()
      ensures res == Ok && more ==> Entering(fs.g, State()) && !dirty
      ensures old(fs.disk.log) <= fs.disk.log && old(fs.steps) <= fs.steps
    {
      hide *;
      RegionBounds();
      ghost var u := fs.view;
      res, more := EnterCluster(csect);
      if res == Ok {
        ghost var v := fs.view;
        FatOnlyIsOnlyIn(fs.g, chain, u, v);
        if more {
          EnteringFacts();
          res := FlushIfDirty();
          OnlyInTransitive(fs.g, chain, u, v, fs.view);
          StillEntering();
        }
      }
    }

    lemma RegionBounds()
      requires Ready()
      ensures fs.g.fatbase + fs.g.FatSectors() <= |fs.view| && fs.g.nFatent >= 2 && fs.g.csize > 0 && buf.Length == 512
    {
    }

    lemma RestOfPointer()
      requires Ready()
      ensures fs.g.csize > 0 && fs.g.nFatent >= 2 && buf.Length == 512
      ensures BitAnd(fptr / 512, fs.g.csize - 1) == Rest(fs.g, fptr / 512)
    {
      hide FatOf, Entry, Chronicle, Agrees, MetaGrows, Mirrored, Store, BitAnd, Proper, Content, Apart;
      MaskIsRemainder(fptr / 512, fs.g.csize);
    }

    // On a sector boundary: enter the cluster of the pointer, write the buffer back and find the sector.
    method EnterForWrite() returns (res: FResult, more: bool, sect: nat)
      requires Ready() && Tracking(fs.g, State()) && fptr <= |contents| && fptr % 512 == 0
      requires FreeIsUnused(fs.g, fs.fat, fs.meta)
      modifies `sclust, `chain, `clust, `dirty
      modifies fs, fs.win, fs.disk
      ensures fs.meta == old(fs.meta)
      ensures InOrder(fs.g, old(fs.steps)) ==> InOrder(fs.g, fs.steps)
      ensures fs.winsect == old(fs.winsect) || fs.g.InFat(fs.winsect)
      ensures res == Ok || (res == IntErr && HasOne(old(fs.fat)))
      ensures res == Ok ==>
        && Ready() && Grown(old(fs.fat), fs.fat, old(chain), chain) && FreeIsUnused(fs.g, fs.fat, fs.meta)
        && OnlyIn(fs.g, chain, old(fs.view), fs.view)
      ensures res == Ok && !more ==> Tracking(fs.g, State()) && Full()
      ensures res == Ok && more ==> Entering(fs.g, State()) && !dirty && sect == SectorAt(fs.g, chain, fptr / 512)
      ensures old(fs.disk.log) <= fs.disk.log && old(fs.steps) <= fs.steps
    {
      hide *;
      RestOfPointer();
      sect := 0;
      var csect := BitAnd(fptr / 512, fs.g.csize - 1);
      res, more := EnterFlushed(csect);
      if res == Ok && more {
        res, sect := CurrentSector(csect);
      }
    }

    // Copy x into the buffer at offset o.
    method CopyIn(o: nat, x: seq<byte>)
      requires o + |x| <= buf.Length
      modifies buf
      ensures buf[..] == old(buf[..])[..o] + x + old(buf[..])[o + |x|..]
    {
      forall k | 0 <= k < |x| { buf[o + k] := x[k]; }
      assert buf[..] == old(buf[..])[..o] + x + old(buf[..])[o + |x|..];
    }

    // Refill the clean buffer if a direct write of cc sectors at sect overwrote its sector.
    method Refill(sect: nat, data: seq<byte>, cc: nat)
      requires buf.Length == 512 && !dirty && 512 * cc <= |data| && dsect < 0x1_0000_0000 && sect + cc <= 0x1_0000_0000
      modifies buf, `dirty
      ensures State() == Refilled(old(State()), sect, data, cc) && !dirty
    {
      DistanceInRun(dsect, sect, cc);
      if Distance(dsect, sect) < cc {
        var x := 512 * Distance(dsect, sect);
        CopyIn(0, data[x..x + 512]);
        dirty := false;
      }
    }

    // Write cc whole sectors at the pointer, past the buffer.
    method PutRun(sect: nat, data: seq<byte>, cc: nat) returns (res: FResult)
      requires Ready() && !dirty && fptr % 512 == 0 && fptr <= |contents| && 1 <= cc && 512 * cc <= |data|
      requires Ordinal(fs.g, fptr / 512) < |chain| && Rest(fs.g, fptr / 512) + cc <= fs.g.csize
      requires sect == SectorAt(fs.g, chain, fptr / 512)
      modifies fs`view, fs.disk
      ensures fs.Valid() && res == Ok && sect + cc <= 0x1_0000_0000 && dsect < 0x1_0000_0000
      ensures OnlyIn(fs.g, chain, old(fs.view), fs.view)
      ensures Fit(fs.g, fs.fat, fs.view, Refilled(State(), sect, data, cc), Patch(contents, fptr, data[..512 * cc]),
          fs.winsect, fs.meta, seeking)
      ensures old(fs.disk.log) <= fs.disk.log
    {
      hide *;
      PutRunFacts(sect, data, cc);
      var ok := WriteDataRun(fs, data, sect, cc);
      res := if ok then Ok else DiskErr;
    }

    lemma PutRunFacts(sect: nat, data: seq<byte>, cc: nat)
      requires Ready() && !dirty && fptr % 512 == 0 && fptr <= |contents| && 1 <= cc && 512 * cc <= |data|
      requires Ordinal(fs.g, fptr / 512) < |chain| && Rest(fs.g, fptr / 512) + cc <= fs.g.csize
      requires sect == SectorAt(fs.g, chain, fptr / 512)
      ensures fs.Valid() && IsFileData(fs, sect, cc) && sect + cc <= |fs.view| <= 0x1_0000_0000
      ensures dsect < 0x1_0000_0000 && buf.Length == 512
      ensures fs.g.nFatent >= 2 && OnlyIn(fs.g, chain, fs.view, Overwrite(fs.view, sect, data, cc))
      ensures Fit(fs.g, fs.fat, Overwrite(fs.view, sect, data, cc), Refilled(State(), sect, data, cc),
                  Patch(contents, fptr, data[..512 * cc]), fs.winsect, fs.meta, seeking)
    {
      hide FatOf, FatMap.Entry, Ordinal, Rest, SectorAt, Capacity, Content, OnlyIn, Refilled, Patch, Chronicle, Store;
      RunApart(fs.g, fs.winsect, fs.meta, chain, fptr / 512, cc, |fs.view|);
      RunOnlyIn(fs.g, chain, fs.view, fptr / 512, data, cc);
      DirectWriteFits(fs.g, fs.fat, fs.view, State(), contents, data, cc, fs.winsect, fs.meta, seeking);
    }

    // Write cc whole sectors at the pointer.
    method WriteDirect(sect: nat, data: seq<byte>, cc: nat) returns (res: FResult)
      requires Ready() && !dirty && fptr % 512 == 0 && fptr <= |contents| && 1 <= cc && 512 * cc <= |data|
      requires Ordinal(fs.g, fptr / 512) < |chain| && Rest(fs.g, fptr / 512) + cc <= fs.g.csize
      requires sect == SectorAt(fs.g, chain, fptr / 512)
      modifies `contents, `dirty, buf, fs`view, fs.disk
      ensures Ready() && !dirty && res == Ok && contents == Patch(old(contents), fptr, data[..512 * cc])
      ensures OnlyIn(fs.g, chain, old(fs.view), fs.view)
      ensures old(fs.disk.log) <= fs.disk.log
    {
      hide FatOf, Entry, Ordinal, Rest, SectorAt, Capacity, Fit, Volume.Valid, OnlyIn, Refilled, Patch;
      res := PutRun(sect, data, cc);
      if res != Ok { return; }
      Refill(sect, data, cc);
      contents := Patch(contents, fptr, data[..512 * cc]);
    }

    // Write whole sectors at the pointer, as many as data fills and the cluster holds.
    method WriteWhole(sect: nat, data: seq<byte>) returns (res: FResult, n: nat)
      requires Ready() && !dirty && Entering(fs.g, State()) && fptr % 512 == 0 && fptr <= |contents|
      requires 512 <= |data| && fptr + |data| < 0x1_0000_0000 && sect == SectorAt(fs.g, chain, fptr / 512)
      modifies `fptr, `contents, `dirty, buf, fs`view, fs.disk
      ensures Ready() && Tracking(fs.g, State()) && res == Ok && 0 < n <= |data| && fptr == old(fptr) + n
      ensures contents == Patch(old(contents), old(fptr), data[..n])
      ensures OnlyIn(fs.g, chain, old(fs.view), fs.view)
      ensures old(fs.disk.log) <= fs.disk.log
    {
      hide *;
      ReadyFacts();
      var cc := Clip(fs.g, fptr / 512, |data| / 512);
      WholeFacts(|data| / 512);
      ghost var p := fptr + 512 * cc;
      n := 0;
      res := WriteDirect(sect, data, cc);
      if res != Ok { return; }
      n := 512 * cc;
      WholeTracked(p);
      MoveBy(n);
    }

    lemma WholeFacts(n: nat)
      requires Ready() && fs.g.csize > 0 && Entering(fs.g, State()) && fptr % 512 == 0 && 1 <= n
      requires fptr + 512 * n < 0x1_0000_0000
      ensures var cc := Clip(fs.g, fptr / 512, n);
              && 0 < cc <= n && Ordinal(fs.g, fptr / 512) < |chain| && Rest(fs.g, fptr / 512) + cc <= fs.g.csize
              && Tracked(fptr + 512 * cc)
    {
      hide *;
      RegionBounds();
      EnteringFacts();
      CheckedPower();
      ClipFits(fs.g, fptr / 512, n);
      var cc := Clip(fs.g, fptr / 512, n);
      AdvanceWhole(fs.g, State(), cc);
      NowTracked(fptr + 512 * cc);
    }

    lemma CheckedPower()
      requires Ready()
      ensures fs.g.csize > 0 && PowerOfTwo(fs.g.csize) && State().fptr == fptr
    {
    }

    lemma NowTracked(p: nat)
      requires buf.Length == 512 && fs.g.csize > 0 && fs.g.nFatent >= 2 && p < 0x1_0000_0000 && p % 512 == 0
      requires Tracking(fs.g, State().(fptr := p))
      ensures Tracked(p)
    {
    }

    // The pointer may move to p on a sector boundary.
    ghost predicate Tracked(p: nat)
      requires fs.g.csize > 0
      reads `clust, `chain
    {
      && p % 512 == 0 && p <= 512 * Capacity(fs.g, chain)
      && (p > 0 ==> Ordinal(fs.g, (p - 1) / 512) < |chain| && clust == chain[Ordinal(fs.g, (p - 1) / 512)])
    }

    lemma WholeTracked(p: nat)
      requires buf.Length == 512 && fs.g.csize > 0 && fs.g.nFatent >= 2 && p < 0x1_0000_0000 && Tracked(p)
      ensures Tracking(fs.g, State().(fptr := p))
    {
    }

    // The buffer is filled for writing: it holds its sector, or lies at the growing edge of the file.
    ghost predicate Held()
      reads this, buf, fs, fs.win, fs.disk
    {
      && fs.Valid() && buf.Length == 512 && buf != fs.win
      && Holding(fs.g, fs.fat, fs.view, State(), contents) && Apart(fs.g, fs.winsect, fs.meta, chain)
    }

    // Bring the sector at the pointer into the clean buffer, except at the growing edge of the file.
    method FillForWrite(sect: nat) returns (res: FResult)
      requires Ready() && !dirty && fptr % 512 == 0 && Ordinal(fs.g, fptr / 512) < |chain|
      requires sect == SectorAt(fs.g, chain, fptr / 512)
      requires fptr <= |contents| && (fptr >= fsize ==> |contents| == fptr)
      modifies `dsect, `dk, buf
      ensures Held() && res == Ok && dk == fptr / 512
    {
      hide FatOf, Entry, SectorAt, Ordinal, Rest, Capacity, Layout.Checked, Data, Volume.Valid;
      res := Ok;
      if dsect != sect {
        if fptr < fsize {
          res := LoadBuffer(sect);
          if res != Ok { return; }
        }
      }
      FilledHolds(fs.g, fs.fat, fs.view, State(), contents, fptr / 512);
      hide Backed, Holding;
      dsect := sect;
      dk := fptr / 512;
    }

    // Inside a sector the buffer is already filled.
    lemma HeldInside()
      requires Ready() && Tracking(fs.g, State()) && fptr % 512 != 0
      ensures Held() && dk == fptr / 512 && Entering(fs.g, State())
    {
      BackedHolds(fs.g, fs.fat, fs.view, State(), contents);
      InsideSector(fs.g, State());
    }

    // Put part of a sector into the buffer.
    method PutPartial(x: seq<byte>)
      requires Held() && Entering(fs.g, State()) && dk == fptr / 512 && fptr <= |contents|
      requires 0 < |x| <= 512 - fptr % 512 && fptr + |x| < 0x1_0000_0000
      modifies `fptr, `contents, `dirty, buf
      ensures Ready() && Tracking(fs.g, State()) && fptr == old(fptr) + |x|
      ensures contents == Patch(old(contents), old(fptr), x)
    {
      hide *;
      PartialFacts(x);
      ghost var b := buf[..fptr % 512] + x + buf[fptr % 512 + |x|..];
      ghost var t := FileState(fptr + |x|, fsize, sclust, clust, dsect, true, b, chain, dk);
      CopyIn(fptr % 512, x);
      contents := Patch(contents, fptr, x);
      dirty := true;
      fptr := fptr + |x|;
      ReadyAs(t);
      StateIs(t);
    }

    lemma StateIs(s: FileState)
      requires buf.Length == 512 && s == FileState(fptr, fsize, sclust, clust, dsect, dirty, buf[..], chain, dk)
      ensures State() == s
    {
    }

    lemma PartialFacts(x: seq<byte>)
      requires Held() && Entering(fs.g, State()) && dk == fptr / 512 && fptr <= |contents|
      requires 0 < |x| <= 512 - fptr % 512 && fptr + |x| < 0x1_0000_0000
      ensures fs.Valid() && buf.Length == 512 && buf != fs.win && fs.g.nFatent >= 2
      ensures var t := FileState(fptr + |x|, fsize, sclust, clust, dsect, true,
          buf[..fptr % 512] + x + buf[fptr % 512 + |x|..], chain, dk);
              Fit(fs.g, fs.fat, fs.view, t, Patch(contents, fptr, x), fs.winsect, fs.meta, seeking) && Tracking(fs.g, t)
    {
      hide FatOf, FatMap.Entry, Holding, Fit, Tracking, Patch, Chronicle, Store, Entering;
      PartialKeeps(fs.g, fs.fat, fs.view, State(), contents, x, fs.winsect, fs.meta, seeking);
      var o := fptr % 512;
      assert buf[..][..o] == buf[..o] && buf[..][o + |x|..] == buf[o + |x|..];
      assert Partly(State(), x).buf == buf[..o] + x + buf[o + |x|..];
    }

    // A file object in the middle of a write.
    ghost predicate Writing()
      reads this, buf, fs, fs.win, fs.disk
    {
      && Ready() && Tracking(fs.g, State()) && FreeIsUnused(fs.g, fs.fat, fs.meta)
      && |contents| == Max(fsize, fptr)
    }

    lemma WritingFacts()
      requires Writing()
      ensures Ready() && Tracking(fs.g, State()) && FreeIsUnused(fs.g, fs.fat, fs.meta)
      ensures fs.g.nFatent >= 2 && fs.g.csize > 0 && buf.Length == 512
      ensures |contents| == Max(fsize, fptr) && fptr <= |contents| && (fptr >= fsize ==> |contents| == fptr)
    {
    }

    lemma StillWriting(d: seq<byte>, pos: nat, x: seq<byte>)
      requires Ready() && fs.g.csize > 0 && fs.g.nFatent >= 2 && Tracking(fs.g, State())
      requires FreeIsUnused(fs.g, fs.fat, fs.meta)
      requires |d| == Max(fsize, pos) && contents == Patch(d, pos, x) && fptr == pos + |x|
      ensures Writing()
    {
    }

    lemma EnteringFacts()
      requires buf.Length == 512 && fs.g.csize > 0 && Entering(fs.g, State())
      ensures Ordinal(fs.g, fptr / 512) < |chain| && clust == chain[Ordinal(fs.g, fptr / 512)]
    {
    }

    lemma StillEntering()
      requires buf.Length == 512 && fs.g.csize > 0
      requires Ordinal(fs.g, fptr / 512) < |chain| && clust == chain[Ordinal(fs.g, fptr / 512)]
      ensures Entering(fs.g, State())
    {
    }

    // On a sector boundary: write whole sectors if data fills at least one, else fill the buffer.
    method WriteBoundary(data: seq<byte>) returns (res: FResult, more: bool, n: nat)
      requires Writing() && fptr % 512 == 0 && data != [] && fptr + |data| < 0x1_0000_0000
      modifies `fptr, `sclust, `chain, `clust, `dirty, `dsect, `dk, `contents, buf
      modifies fs, fs.win, fs.disk
      ensures fs.meta == old(fs.meta)
      ensures InOrder(fs.g, old(fs.steps)) ==> InOrder(fs.g, fs.steps)
      ensures fs.winsect == old(fs.winsect) || fs.g.InFat(fs.winsect)
      ensures res == Ok || (res == IntErr && HasOne(old(fs.fat)))
      ensures res == Ok && (!more || |data| >= 512) ==>
        && Writing() && n <= |data| && fptr == old(fptr) + n && (if more then n > 0 else n == 0 && Full())
        && Wrote(fs.g, old(fs.fat), old(fs.view), old(chain), old(contents), fs.fat, fs.view, chain, contents,
             old(fptr), data[..n])
      ensures res == Ok && more && |data| < 512 ==>
        && Held() && dk == fptr / 512 && Entering(fs.g, State()) && fptr == old(fptr) && contents == old(contents)
        && FreeIsUnused(fs.g, fs.fat, fs.meta) && Grown(old(fs.fat), fs.fat, old(chain), chain)
        && OnlyIn(fs.g, chain, old(fs.view), fs.view)
      ensures old(fs.disk.log) <= fs.disk.log && old(fs.steps) <= fs.steps
    {
      hide *;
      WritingFacts();
      ghost var f, u, cs, d, pos := fs.fat, fs.view, chain, contents, fptr;
      n := 0;
      var sect;
      res, more, sect := EnterForWrite();
      if res == Ok {
        ghost var v := fs.view;
        if !more {
          PatchedNothing(d, pos);
          NothingChanged(fs.g, chain, v);
        } else if |data| / 512 > 0 {
          res, n := WriteWhole(sect, data);
        } else {
          EnteringFacts();
          res := FillForWrite(sect);
          StillEntering();
        }
        if !more || |data| / 512 > 0 {
          EnteredThenWrote(fs.g, f, u, cs, d, fs.fat, v, chain, fs.view, pos, data[..n]);
          StillWriting(d, pos, data[..n]);
        }
      }
    }

    // Write some bytes at the pointer: a run of whole sectors, or part of one; none if the volume is full.
    method WriteStep(data: seq<byte>) returns (res: FResult, more: bool, n: nat)
      requires Writing() && data != [] && fptr + |data| < 0x1_0000_0000
      modifies `fptr, `sclust, `chain, `clust, `dirty, `dsect, `dk, `contents, buf
      modifies fs, fs.win, fs.disk
      ensures fs.meta == old(fs.meta)
      ensures InOrder(fs.g, old(fs.steps)) ==> InOrder(fs.g, fs.steps)
      ensures fs.winsect == old(fs.winsect) || fs.g.InFat(fs.winsect)
      ensures res == Ok || (res == IntErr && HasOne(old(fs.fat)))
      ensures res == Ok ==>
        && Writing() && n <= |data| && fptr == old(fptr) + n && (if more then n > 0 else n == 0 && Full())
        && Wrote(fs.g, old(fs.fat), old(fs.view), old(chain), old(contents), fs.fat, fs.view, chain, contents,
             old(fptr), data[..n])
      ensures old(fs.disk.log) <= fs.disk.log && old(fs.steps) <= fs.steps
    {
      hide *;
      WritingFacts();
      ghost var f, u, cs, d, pos := fs.fat, fs.view, chain, contents, fptr;
      res, more, n := Ok, true, 0;
      if fptr % 512 == 0 {
        res, more, n := WriteBoundary(data);
        if res != Ok || !more || |data| / 512 > 0 { return; }
      } else {
        HeldInside();
        NothingGrown(fs.fat, chain);
        NothingChanged(fs.g, chain, fs.view);
      }
      n := 512 - fptr % 512;
      if n > |data| { n := |data|; }
      PutPartial(data[..n]);
      NothingChanged(fs.g, chain, fs.view);
      EnteredThenWrote(fs.g, f, u, cs, d, fs.fat, fs.view, chain, fs.view, pos, data[..n]);
      StillWriting(d, pos, data[..n]);
    }

    // The bytes x were written from position pos on, since the FAT was f, the sectors v, the chain cs and the
    // contents d.
    ghost predicate Into(f: seq<nat>, v: seq<Sector>, cs: seq<dword>, d: seq<byte>, pos: nat, x: seq<byte>)
      reads this, buf, fs, fs.win, fs.disk
    {
      && Writing() && fs.g.nFatent >= 2 && fptr == pos + |x|
      && Wrote(fs.g, f, v, cs, d, fs.fat, fs.view, chain, contents, pos, x)
    }

    lemma IntoStarts()
      requires Writing()
      ensures Into(fs.fat, fs.view, chain, contents, fptr, [])
    {
      WroteNothing(fs.g, fs.fat, fs.view, chain, contents, fptr);
    }

    lemma IntoGoesOn(f: seq<nat>, u: seq<Sector>, cs: seq<dword>, c: seq<byte>, h: seq<nat>, v: seq<Sector>,
                     ds: seq<dword>, d: seq<byte>, pos: nat, x: seq<byte>, y: seq<byte>)
      requires fs.g.nFatent >= 2 && Wrote(fs.g, f, u, cs, c, h, v, ds, d, pos, x) && Into(h, v, ds, d, pos + |x|, y)
      ensures Into(f, u, cs, c, pos, x + y)
    {
      hide Wrote;
      WroteJoins(fs.g, f, u, cs, c, h, v, ds, d, fs.fat, fs.view, chain, contents, pos, x, y);
    }

    lemma IntoFacts(f: seq<nat>, v: seq<Sector>, cs: seq<dword>, d: seq<byte>, pos: nat, x: seq<byte>)
      requires Into(f, v, cs, d, pos, x)
      ensures Writing() && fs.g.nFatent >= 2 && fptr == pos + |x|
      ensures Wrote(fs.g, f, v, cs, d, fs.fat, fs.view, chain, contents, pos, x)
      ensures HasOne(fs.fat) ==> HasOne(f)
    {
      if HasOne(fs.fat) {
        GrownHasOne(fs.g, f, fs.fat, cs, sclust, chain);
      }
    }

    lemma IntoStep(f: seq<nat>, v: seq<Sector>, cs: seq<dword>, d: seq<byte>, pos: nat, x: seq<byte>)
      requires Writing() && fs.g.nFatent >= 2 && fptr == pos + |x|
      requires Wrote(fs.g, f, v, cs, d, fs.fat, fs.view, chain, contents, pos, x)
      ensures Into(f, v, cs, d, pos, x)
    {
    }

    // Go on writing data behind its first bw bytes.
    method WriteMore(data: seq<byte>, bw: nat, ghost f: seq<nat>, ghost v: seq<Sector>, ghost cs: seq<dword>,
                     ghost d: seq<byte>, ghost pos: nat)
      returns (res: FResult, more: bool, n: nat)
      requires bw < |data| && pos + |data| < 0x1_0000_0000 && Into(f, v, cs, d, pos, data[..bw])
      modifies `fptr, `sclust, `chain, `clust, `dirty, `dsect, `dk, `contents, buf
      modifies fs, fs.win, fs.disk
      ensures fs.meta == old(fs.meta)
      ensures InOrder(fs.g, old(fs.steps)) ==> InOrder(fs.g, fs.steps)
      ensures fs.winsect == old(fs.winsect) || fs.g.InFat(fs.winsect)
      ensures res == Ok || (res == IntErr && HasOne(f))
      ensures res == Ok ==> bw + n <= |data| && Into(f, v, cs, d, pos, data[..bw + n]) && if more then n > 0
          else n == 0 && Full()
      ensures old(fs.disk.log) <= fs.disk.log && old(fs.steps) <= fs.steps
    {
      hide *;
      IntoFacts(f, v, cs, d, pos, data[..bw]);
      ghost var h, w, ds, e := fs.fat, fs.view, chain, contents;
      res, more, n := WriteStep(data[bw..]);
      if res == Ok {
        IntoStep(h, w, ds, e, pos + bw, data[bw..][..n]);
        IntoGoesOn(f, v, cs, d, h, w, ds, e, pos, data[..bw], data[bw..][..n]);
        assert data[..bw] + data[bw..][..n] == data[..bw + n];
      }
    }

    // Write data at the pointer, all of it unless the volume gets full.
    method WriteAll(data: seq<byte>) returns (res: FResult, bw: nat)
      requires Writing() && fptr + |data| < 0x1_0000_0000
      modifies `fptr, `sclust, `chain, `clust, `dirty, `dsect, `dk, `contents, buf
      modifies fs, fs.win, fs.disk
      ensures fs.meta == old(fs.meta)
      ensures InOrder(fs.g, old(fs.steps)) ==> InOrder(fs.g, fs.steps)
      ensures fs.winsect == old(fs.winsect) || fs.g.InFat(fs.winsect)
      ensures res == Ok || (res == IntErr && HasOne(old(fs.fat)))
      ensures res == Ok ==>
              && bw <= |data|
              && Into(old(fs.fat), old(fs.view), old(chain), old(contents), old(fptr), data[..bw])
      ensures res == Ok && bw < |data| ==> Full()
      ensures old(fs.disk.log) <= fs.disk.log && old(fs.steps) <= fs.steps
    {
      hide *;
      IntoStarts();
      res, bw := Ok, 0;
      ghost var f, v, cs, d, pos, winsect := fs.fat, fs.view, chain, contents, fptr, fs.winsect;
      assert data[..0] == [];
      while bw < |data|
        invariant (fs.winsect == winsect || fs.g.InFat(fs.winsect)) && fs.meta == old(fs.meta)
        invariant InOrder(fs.g, old(fs.steps)) ==> InOrder(fs.g, fs.steps)
        invariant res == Ok && bw <= |data| && Into(f, v, cs, d, pos, data[..bw])
        invariant old(fs.disk.log) <= fs.disk.log && old(fs.steps) <= fs.steps
      {
        var more, n;
        res, more, n := WriteMore(data, bw, f, v, cs, d, pos);
        if res != Ok || !more { return; }
        bw := bw + n;
      }
    }

    // Write data at the pointer: as much of it as the volume has room for, nothing if the file would reach 4 GB.
    // The contents are patched at the old pointer, and nothing outside the FAT copies and the file's own,
    // possibly longer, chain changes. An error means a corrupt FAT.
    method FWrite(data: seq<byte>) returns (res: FResult, bw: nat)
      requires Valid() && |data| < 0x1_0000_0000 && FreeIsUnused(fs.g, fs.fat, fs.meta)
      modifies `fptr, `fsize, `sclust, `chain, `clust, `dirty, `dsect, `dk, `contents, `error, `written, buf
      modifies fs, fs.win, fs.disk
      ensures fs.meta == old(fs.meta)
      ensures InOrder(fs.g, old(fs.steps)) ==> InOrder(fs.g, fs.steps)
      ensures old(error) ==> res == IntErr
      ensures !old(error) && !canWrite ==> res == Denied
      ensures !old(error) && canWrite ==> res == Ok || (res == IntErr && error && HasOne(old(fs.fat)))
      ensures res != Ok && (old(error) || !canWrite) ==>
        && Valid() && bw == 0 && fs.view == old(fs.view) && fs.fat == old(fs.fat) && error == old(error)
        && chain == old(chain) && contents == old(contents) && fptr == old(fptr) && written == old(written)
      ensures res != Ok && (old(error) || !canWrite) ==>
          dirty == old(dirty) && sclust == old(sclust) && fsize == old(fsize)
      ensures fs.winsect == old(fs.winsect) || fs.g.InFat(fs.winsect)
      ensures res == Ok ==>
        && Valid() && FreeIsUnused(fs.g, fs.fat, fs.meta) && !error && written && bw <= |data|
        && fptr == old(fptr) + bw && fsize == Max(old(fsize), fptr)
        && contents == Patch(old(contents), old(fptr), data[..bw])
        && Grown(old(fs.fat), fs.fat, old(chain), chain) && OnlyIn(fs.g, chain, old(fs.view), fs.view)
      ensures res == Ok && old(fsize) + |data| >= 0x1_0000_0000 ==> bw == 0
      ensures res == Ok && bw < |data| && old(fsize) + |data| < 0x1_0000_0000 ==> Full()
      ensures old(fs.disk.log) <= fs.disk.log && old(fs.steps) <= fs.steps
    {
      hide *;
      ValidFacts();
      SizeReachesLimit(fsize, |data|);
      bw := 0;
      res := if error then IntErr else if !canWrite then Denied else Ok;
      if res == Ok {
        var btw := if Add32(fsize, |data|) < fsize then 0 else |data|;
        res, bw := Transfer(data[..btw]);
        if res != Ok { error := true; }
      }
    }

    lemma ValidFacts()
      requires Valid()
      ensures fptr <= fsize == |contents| && fs.g.nFatent >= 2 && buf.Length == 512
      ensures FreeIsUnused(fs.g, fs.fat, fs.meta) ==> Writing()
    {
    }

    // The transfer itself, and the new file size.
    method Transfer(data: seq<byte>) returns (res: FResult, bw: nat)
      requires Valid() && Writing() && fsize + |data| < 0x1_0000_0000 && fs.g.nFatent >= 2
      modifies `fptr, `fsize, `sclust, `chain, `clust, `dirty, `dsect, `dk, `contents, `written, buf
      modifies fs, fs.win, fs.disk
      ensures fs.meta == old(fs.meta)
      ensures InOrder(fs.g, old(fs.steps)) ==> InOrder(fs.g, fs.steps)
      ensures res == Ok || (res == IntErr && HasOne(old(fs.fat)))
      ensures fs.winsect == old(fs.winsect) || fs.g.InFat(fs.winsect)
      ensures res == Ok ==>
        && Valid() && FreeIsUnused(fs.g, fs.fat, fs.meta) && written && bw <= |data|
        && fptr == old(fptr) + bw && fsize == Max(old(fsize), fptr)
        && contents == Patch(old(contents), old(fptr), data[..bw])
        && Grown(old(fs.fat), fs.fat, old(chain), chain) && OnlyIn(fs.g, chain, old(fs.view), fs.view)
      ensures res == Ok && bw < |data| ==> Full()
      ensures old(fs.disk.log) <= fs.disk.log && old(fs.steps) <= fs.steps
    {
      hide *;
      ValidFacts();
      ghost var f, v, cs, d, pos := fs.fat, fs.view, chain, contents, fptr;
      res, bw := WriteAll(data);
      if res != Ok { return; }
      IntoFacts(f, v, cs, d, pos, data[..bw]);
      WrittenFacts(f, v, cs, d, pos, data[..bw]);
      EndWrite();
    }

    // Record the new file size.
    method EndWrite()
      requires Ready() && fs.g.csize > 0 && fs.g.nFatent >= 2 && Tracking(fs.g, State())
      requires |contents| == Max(fsize, fptr)
      modifies `fsize, `written
      ensures Valid() && written && fsize == Max(old(fsize), fptr)
    {
      hide Volume.Valid, Fit, Capacity, Ordinal;
      FitAnySize(fs.g, fs.fat, fs.view, State(), if fptr > fsize then fptr else fsize, contents, fs.winsect, fs.meta,
                 seeking);
      if fptr > fsize { fsize := fptr; }
      written := true;
    }

    lemma WrittenFacts(f: seq<nat>, v: seq<Sector>, cs: seq<dword>, d: seq<byte>, pos: nat, x: seq<byte>)
      requires Writing() && fs.g.nFatent >= 2 && Wrote(fs.g, f, v, cs, d, fs.fat, fs.view, chain, contents, pos, x)
      ensures pos <= |d| && contents == Patch(d, pos, x) && Grown(f, fs.fat, cs, chain)
      ensures OnlyIn(fs.g, chain, v, fs.view)
      ensures FreeIsUnused(fs.g, fs.fat, fs.meta) && Ready() && fs.g.csize > 0 && Tracking(fs.g, State())
      ensures |contents| == Max(fsize, fptr)
    {
    }

    // ----- synchronizing

    // The directory entry lies in a directory sector.
    ghost predicate Listed()
      reads fs
    {
      dirSlot < 16 && dirSect in fs.meta && dirSect < |fs.view| && !fs.g.InFats(dirSect) && fs.g.Cacheable(dirSect)
    }

    lemma StillListed()
      requires fs.Valid() && dirSlot < 16 && dirSect in fs.meta && !fs.g.InFats(dirSect)
      ensures Listed()
    {
    }

    ghost function OwnEntry(): Slot
      requires Listed()
      reads fs
    {
      SlotAt(fs.view[dirSect], dirSlot)
    }

    // Update the directory entry in the window.
    method UpdateEntry(time: dword) returns (res: FResult)
      requires fs.Valid() && Listed() && (sclust != 0 ==> sclust < fs.g.nFatent && fs.fat[sclust] != 0)
      modifies fs, fs.win, fs.disk
      ensures fs.Valid() && res == Ok && fs.meta == old(fs.meta) && fs.fat == old(fs.fat) && fs.winsect == dirSect
      ensures |fs.view| == |old(fs.view)| && fs.lastClust == old(fs.lastClust)
      ensures fs.view == old(fs.view)[dirSect := WithSlot(old(fs.view)[dirSect], dirSlot,
          Synced(old(OwnEntry()), fsize, sclust, time))]
      ensures InOrder(fs.g, old(fs.steps)) ==> InOrder(fs.g, fs.steps)
      ensures old(fs.disk.log) <= fs.disk.log && old(fs.steps) <= fs.steps
    {
      hide FatOf, FatMap.Entry, InOrder, Agrees, Chronicle, Layout.Checked, Synced, WithSlot;
      ghost var v, steps, e := fs.view, fs.steps, Synced(OwnEntry(), fsize, sclust, time);
      SyncedSlotIsLive(time);
      fs.LastStep();
      if InOrder(fs.g, steps) {
        SlotChangeIsSafe(fs.g, v, fs.meta, steps, dirSect, dirSlot, e);
      }
      OtherThanFat(fs.g, v, dirSect, WithSlot(v[dirSect], dirSlot, e));
      res := fs.MoveWindow(dirSect);
      if res != Ok { return; }
      StoreSynced(fs.win, dirSlot, fsize, sclust, time);
      fs.MarkDirty();
    }

    lemma SyncedSlotIsLive(time: dword)
      requires fs.Valid() && Listed() && (sclust != 0 ==> sclust < fs.g.nFatent && fs.fat[sclust] != 0)
      ensures SlotLive(fs.fat, Synced(OwnEntry(), fsize, sclust, time)) && dirSect > 0
    {
      SyncedReadsBack(OwnEntry(), fsize, sclust, time);
    }

    // The disk holds the whole file: its entry names chain and size, the FAT the chain, and the chain the contents.
    ghost predicate Durable()
      reads this, fs.disk
    {
      var d := fs.disk.sectors;
      && fs.g.Checked(|d|) && dirSect < |d| && dirSlot < 16 && Proper(fs.g, chain)
      && fsize <= 512 * Capacity(fs.g, chain)
      && StartCluster(SlotAt(d[dirSect], dirSlot)) == sclust && FileSize(SlotAt(d[dirSect], dirSlot)) == fsize
      && ChainFrom(fs.g, FatOf(fs.g, d), sclust, chain)
      && Data(fs.g, d, chain, fsize) == contents
    }

    lemma BecomesDurable(time: dword, e: Slot)
      requires Valid() && !dirty && fs.disk.sectors == fs.view && Listed()
      requires OwnEntry() == Synced(e, fsize, sclust, time)
      ensures Durable()
    {
      SyncedReadsBack(e, fsize, sclust, time);
    }

    lemma ValidAs(s: FileState)
      requires fs.Valid() && buf.Length == 512 && buf != fs.win
      requires Fit(fs.g, fs.fat, fs.view, s, contents, fs.winsect, fs.meta, seeking)
      requires fs.g.csize > 0 && fs.g.nFatent >= 2 && Tracking(fs.g, s) && fptr <= fsize == |contents|
      requires s == FileState(fptr, fsize, sclust, clust, dsect, dirty, buf[..], chain, dk)
      ensures Valid()
    {
    }

    lemma ValidParts(s: FileState)
      requires Valid() && s == FileState(fptr, fsize, sclust, clust, dsect, dirty, buf[..], chain, dk)
      ensures Ready() && fs.g.csize > 0 && fs.g.nFatent >= 2 && Tracking(fs.g, s) && fptr <= fsize == |contents|
    {
    }

    // Facts about a file whose contents are about to be synchronized, in the state s.
    lemma SyncFacts(s: FileState)
      requires Ready() && Listed()
      requires s == FileState(fptr, fsize, sclust, clust, dsect, dirty, buf[..], chain, dk)
      ensures fs.Valid() && buf.Length == 512 && buf != fs.win && fs.g.Trusted() && fs.g.Checked(|fs.view|)
      ensures Fit(fs.g, fs.fat, fs.view, s, contents, fs.winsect, fs.meta, seeking)
      ensures sclust != 0 ==> sclust < fs.g.nFatent && fs.fat[sclust] != 0
      ensures |fs.view| > dirSect && dirSect in fs.meta
    {
      if sclust != 0 {
        Chains.ChainEntries(fs.fat, chain, 0);
      }
    }

    // Write the window and the FSInfo sector back. The file, in state t, stays in order.
    method FlushVolume(ghost t: FileState)
      requires fs.Valid() && Listed() && Fit(fs.g, fs.fat, fs.view, t, contents, fs.winsect, fs.meta, seeking)
      modifies fs`winsect, fs`wflag, fs`view, fs`fat, fs`fsiFlag, fs.win, fs.disk
      ensures fs.Valid() && Listed() && fs.fat == old(fs.fat) && !fs.wflag && fs.disk.sectors == fs.view
      ensures |fs.view| == |old(fs.view)|
      ensures Fit(fs.g, fs.fat, fs.view, t, contents, fs.winsect, fs.meta, seeking)
      ensures forall s :: 0 <= s < |fs.view| && fs.view[s] != old(fs.view)[s] ==> s < fs.g.fatbase + fs.g.FatSectors()
      ensures fs.view[dirSect] == old(fs.view)[dirSect] && (fs.winsect == old(fs.winsect) || fs.winsect == 0)
      ensures old(fs.disk.log) <= fs.disk.log
    {
      hide Volume.Valid, Fit, Mount.FsInfo, FatOf, FatMap.Entry, Layout.Checked, Layout.Trusted;
      ghost var before, u := fs.winsect, fs.view;
      VolumeFront(|u|);
      var _ := Sync(fs);
      FrontChangeKeeps(fs.g, fs.fat, u, t, contents, before, fs.winsect, fs.meta, seeking, fs.view);
    }

    lemma VolumeFront(limit: nat)
      requires fs.Valid() && limit == |fs.view|
      ensures 0 < fs.g.database && fs.g.fatbase + fs.g.FatSectors() <= fs.g.database && |fs.view| > 0
      ensures fs.g.fsType == Fat32 ==>
              && fs.g.fsiSector < fs.g.database && fs.g.fsiSector < fs.g.fatbase
              && fs.g.fsiSector < |fs.view|
    {
      FrontIsFront(fs.g, limit);
      fs.g.FatsInside(limit);
    }

    // Write the buffer, the directory entry and the window back. A file that was written is on the disk afterwards.
    method FSync(time: dword) returns (res: FResult)
      requires Valid() && Listed()
      modifies `dirty, `written, fs, fs.win, fs.disk
      ensures Valid() && Listed() && res == Ok && !written && fs.meta == old(fs.meta) && fs.fat == old(fs.fat)
      ensures old(written) ==> !dirty && Durable() && !fs.wflag && fs.disk.sectors == fs.view
      ensures !old(written) ==> fs.view == old(fs.view) && dirty == old(dirty) && fs.winsect == old(fs.winsect)
      ensures fs.g.nFatent >= 2 && SyncOnly(fs.g, chain, dirSect, old(fs.view), fs.view)
      ensures dirSect < |fs.view| == |old(fs.view)| && dirSlot < 16
      ensures old(written) ==>
                fs.view[dirSect] ==
                WithSlot(old(fs.view)[dirSect], dirSlot,
                         Synced(SlotAt(old(fs.view)[dirSect], dirSlot), fsize, sclust, time))
      ensures fs.winsect == old(fs.winsect) || fs.winsect == dirSect || fs.winsect == 0
      ensures InOrder(fs.g, old(fs.steps)) ==> InOrder(fs.g, fs.steps)
      ensures old(fs.disk.log) <= fs.disk.log && old(fs.steps) <= fs.steps
    {
      hide Valid, Ready, Tracking, Fit, OnlyIn, Durable, InOrder, Synced, WithSlot, Volume.Valid, Mount.FsInfo, FatOf;
      hide FatMap.Entry;
      hide Layout.Checked, Chains.IsChain, Proper, Held, Writing, SyncOnly, Layout.Trusted;
      res := Ok;
      ValidFacts();
      NothingSynced(fs.g, chain, dirSect, fs.view);
      if written {
        ghost var s := FileState(fptr, fsize, sclust, clust, dsect, dirty, buf[..], chain, dk);
        ghost var t := s.(dirty := false);
        ValidParts(s);
        TrackingAnyBuffer(fs.g, s, buf[..], false);
        res := FlushIfDirty();
        if res != Ok { return; }
        FlushedListed(old(fs.view));
        SyncFacts(t);
        EntryUntouched(old(fs.view), t);
        ghost var v, winsect, e := fs.view, fs.winsect, Synced(OwnEntry(), fsize, sclust, time);
        res := UpdateEntry(time);
        if res != Ok { return; }
        MetaChangeKeeps(fs.g, fs.fat, v, t, contents, winsect, fs.meta, seeking, dirSect, fs.view[dirSect]);
        WithSlotAt(v[dirSect], dirSlot, e, dirSlot);
        written := false;
        FlushVolume(t);
        SyncedOnly(fs.g, chain, dirSect, old(fs.view), v, WithSlot(v[dirSect], dirSlot, e), fs.view);
        ValidAs(t);
        BecomesDurable(time, SlotAt(v[dirSect], dirSlot));
      }
    }

    // Writing the buffer back does not touch the sector of the directory entry.
    lemma EntryUntouched(v: seq<Sector>, t: FileState)
      requires fs.g.nFatent >= 2 && dirSect in fs.meta && dirSect < |v| && !fs.g.InFats(dirSect) && t.cs == chain
      requires OnlyIn(fs.g, chain, v, fs.view) && Fit(fs.g, fs.fat, fs.view, t, contents, fs.winsect, fs.meta, seeking)
      ensures dirSect < |fs.view| && fs.view[dirSect] == v[dirSect]
    {
      hide Backed, Content;
    }

    lemma FlushedListed(v: seq<Sector>)
      requires fs.g.nFatent >= 2 && OnlyIn(fs.g, chain, v, fs.view) && dirSlot < 16 && dirSect in fs.meta
      requires dirSect < |v|
      requires !fs.g.InFats(dirSect) && fs.g.Cacheable(dirSect)
      ensures Listed() && |fs.view| == |v|
    {
    }

    // The boot record and the FSInfo sector lie in front of the data area.
    lemma FrontIsFront(g: Layout, limit: nat)
      requires g.Checked(limit) && g.Trusted()
      ensures 0 < g.database && (g.fsType == Fat32 ==> g.fsiSector < g.database && g.fsiSector < g.fatbase)
    {
      g.FatsInside(limit);
    }

    // ----- beside other files

    // The part of validity that depends on the volume only through its FAT f, sectors v, window sector and metadata.
    ghost predicate Stands(f: seq<nat>, v: seq<Sector>, winsect: nat, meta: set<nat>)
      reads this, buf
    {
      && buf.Length == 512 && buf != fs.win && fs.g.csize > 0 && fs.g.nFatent >= 2
      && Fit(fs.g, f, v, State(), contents, winsect, meta, seeking)
      && Tracking(fs.g, State()) && fptr <= fsize == |contents|
    }

    lemma ValidStands()
      ensures Valid() <==> fs.Valid() && Stands(fs.fat, fs.view, fs.winsect, fs.meta)
    {
    }

    lemma NoNewOne(f: seq<nat>, cs: seq<dword>)
      requires Valid() && Grown(f, fs.fat, cs, chain) && HasOne(fs.fat)
      ensures HasOne(f)
    {
      GrownHasOne(fs.g, f, fs.fat, cs, sclust, chain);
    }

    // Another file of the volume was read or written.
    lemma OtherTransferred(f: seq<nat>, v: seq<Sector>, before: nat, cs: seq<dword>, ds: seq<dword>)
      requires fs.Valid() && Stands(f, v, before, fs.meta) && fs.g.nFatent >= 2
      requires Grown(f, fs.fat, cs, ds) && OnlyIn(fs.g, ds, v, fs.view) && Separate(chain, cs)
      requires fs.winsect == before || fs.g.InFat(fs.winsect)
      ensures Valid() && Separate(chain, ds)
    {
      hide Fit, Volume.Valid, Tracking;
      OtherFileKept(fs.g, f, fs.fat, v, fs.view, cs, ds, State(), contents, before, fs.winsect, fs.meta, seeking);
    }

    // Another file of the volume was synchronized.
    lemma OtherSynchronized(v: seq<Sector>, before: nat, cs: seq<dword>, t: nat)
      requires fs.Valid() && Stands(fs.fat, v, before, fs.meta) && fs.g.nFatent >= 2
      requires SyncOnly(fs.g, cs, t, v, fs.view) && Separate(chain, cs)
      requires t in fs.meta && (fs.winsect == before || fs.winsect == t || fs.winsect == 0)
      ensures Valid()
    {
      hide Fit, Volume.Valid, Tracking;
      OtherFileSynced(fs.g, fs.fat, v, fs.view, cs, t, State(), contents, before, fs.winsect, fs.meta, seeking);
    }
  }
}
