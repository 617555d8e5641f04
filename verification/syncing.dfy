/**
 Flushing a volume, and how the free-cluster count survives to the next mount.
*/
module Syncing {
  import opened Bytes
  import opened Geometry
  import opened DiskIO
  import opened FatMap
  import opened WriteBehind
  import opened Volumes
  import opened Allocator
  import opened Mount
  import Chains

  // Write back the window and, if the free count changed, the FSInfo sector.
  method Sync(fs: Volume) returns (res: FResult)
    requires fs.Valid()
    modifies fs`winsect, fs`wflag, fs`view, fs`fat, fs`fsiFlag, fs.win, fs.disk
    ensures fs.Valid() && res == Ok && !fs.wflag && fs.disk.sectors == fs.view
    ensures fs.view == if fs.g.fsType == Fat32 && old(fs.fsiFlag)
                       then old(fs.view)[fs.g.fsiSector := FsInfo(fs.freeClust, fs.lastClust)]
                       else old(fs.view)
    ensures fs.fsiFlag == (old(fs.fsiFlag) && fs.g.fsType != Fat32)
    ensures fs.fat == old(fs.fat) && (fs.winsect == old(fs.winsect) || fs.winsect == 0)
    ensures old(fs.disk.log) <= fs.disk.log
  {
    hide Entry, FatOf, FsInfo, Chronicle, Layout.Checked, Store, Mirrored, MetaGrows, Agrees;
    res := fs.MoveWindow(0);
    if fs.winsect == 0 { ZeroIsClean(fs); }
    if res == Ok {
      if fs.g.fsType == Fat32 && fs.fsiFlag {
        fs.winsect := 0;
        WriteFsInfo(fs);
        fs.fsiFlag := false;
      }
    }
  }

  // The window never holds sector 0 dirty, since the FAT starts behind the boot record.
  lemma ZeroIsClean(fs: Volume)
    requires fs.Valid() && fs.winsect == 0
    ensures !fs.wflag
  {
  }

  method WriteFsInfo(fs: Volume)
    requires fs.Valid() && fs.winsect == 0 && fs.g.fsType == Fat32
    modifies fs`view, fs`fat, fs.win, fs.disk
    ensures fs.Valid()
    ensures fs.view == old(fs.view)[fs.g.fsiSector := FsInfo(fs.freeClust, fs.lastClust)]
    ensures fs.fat == old(fs.fat)
    ensures old(fs.disk.log) <= fs.disk.log
  {
    hide Entry, FatOf, FsInfo, Chronicle, Layout.Checked, Store;
    ZeroIsClean(fs);
    BuildFsInfo(fs.win, fs.freeClust, fs.lastClust);
    ghost var log := fs.disk.log;
    var _ := fs.disk.Write(fs.win, fs.g.fsiSector);
    fs.view := fs.disk.sectors;
    ChronicleWrite(fs.steps, log, fs.view, |fs.steps| - 1);
    FatFrame(fs.g, old(fs.view), fs.view);
  }

  method BuildFsInfo(win: array<byte>, free: dword, last: dword)
    requires win.Length == 512
    modifies win
    ensures win[..] == FsInfo(free, last)
  {
    forall i | 0 <= i < 512 { win[i] := 0; }
    assert win[..] == ZeroSector();
    StoreWord(win, 510, 0xAA55);
    StoreDword(win, 0, 0x4161_5252);
    StoreDword(win, 484, 0x6141_7272);
    StoreDword(win, 488, free);
    StoreDword(win, 492, last);
  }

  // A known free count that needs no write-back is the one in the FSInfo sector.
  ghost predicate InfoCurrent(g: Layout, v: seq<Sector>, free: dword, dirty: bool)
    requires g.fsiSector < |v|
  {
    g.fsType == Fat32 && !dirty && free != UNKNOWN ==>
      IsFsInfo(v[g.fsiSector]) && LdDword(v[g.fsiSector], 488) == free
  }

  // A sync leaves the count current.
  lemma SyncedIsCurrent(g: Layout, v: seq<Sector>, w: seq<Sector>, free: dword, last: dword, dirty: bool)
    requires g.fsiSector < |v| && InfoCurrent(g, v, free, dirty)
    requires w == if g.fsType == Fat32 && dirty then v[g.fsiSector := FsInfo(free, last)] else v
    ensures InfoCurrent(g, w, free, false) || g.fsType != Fat32
  {
    FsInfoReadsBack(free, last);
  }

  // Mounting again a FAT32 disk that was synced finds the same layout and the same free count.
  lemma RemountFindsCount(d: seq<Sector>, e: seq<Sector>, free: dword)
    requires |d| == |e| && MountOutcome(d).Mounted?
    requires var g, bsect := MountOutcome(d).layout, BootSector(d);
             && g.fsType == Fat32 && g.Sound(|d|) && g.fsiSector > bsect && g.fatbase > bsect
             && (forall s :: 0 <= s < g.fatbase && s != g.fsiSector ==> e[s] == d[s])
             && InfoCurrent(g, e, free, false) && free != UNKNOWN
    ensures MountOutcome(e).Mounted? && MountOutcome(e).layout == MountOutcome(d).layout && MountOutcome(e).free == free
  {
    hide Accepts, LayoutOf, ReadBpb, Layout.Checked, LdWord, LdDword;
    MountOutcome(d).layout.FatsInside(|d|);
    assert e[0] == d[0];
    assert e[BootSector(d)] == d[BootSector(d)];
  }

  // ----- runs of the allocator on a volume

  // The allocator state of a volume.
  ghost function StateOf(fs: Volume, chains: map<nat, seq<nat>>): Chains.AllocState
    requires fs.g.Checked(|fs.view|)
    reads fs
  {
    Chains.AllocState(fs.fat, fs.lastClust, fs.freeClust, chains)
  }

  lemma IncreasedIsSum(free: dword, k: nat)
    requires free + k < UNKNOWN
    ensures Increased(free, k) == free + k
  {
  }

  lemma FreeIsSmall(g: Layout, f: seq<nat>, limit: nat)
    requires g.Sound(limit) && |f| == g.nFatent
    ensures Chains.CountFree(f) < 0x1000_0000
  {
    Chains.FreeBelowBound(f, |f|);
  }

  // Perform one operation on a volume whose free count is exact: the outcome is that of Chains.Step.
  method PerformOne(fs: Volume, op: Chains.Operation, ghost chains: map<nat, seq<nat>>)
    requires fs.Valid() && fs.freeClust != UNKNOWN
    requires Chains.Consistent(StateOf(fs, chains), Eoc(fs.g)) && Chains.Enabled(StateOf(fs, chains), op)
    modifies fs`winsect, fs`wflag, fs`view, fs`fat, fs`steps, fs`meta, fs`lastClust, fs`freeClust, fs`fsiFlag, fs.win
    modifies fs.disk
    ensures fs.Valid() && |fs.view| == |old(fs.view)| && FatOnly(fs.g, old(fs.view), fs.view)
    ensures var t := Chains.Step(old(StateOf(fs, chains)), Eoc(fs.g), op); StateOf(fs, t.chains) == t
    ensures fs.freeClust != UNKNOWN
    ensures fs.fsiFlag == (old(fs.fsiFlag) || fs.freeClust != old(fs.freeClust))
    ensures old(fs.disk.log) <= fs.disk.log && old(fs.steps) <= fs.steps
  {
    match op
    case Stretch(clst) => PerformStretch(fs, clst, chains);
    case Discard(head) => PerformDiscard(fs, head, chains);
  }

  method PerformStretch(fs: Volume, clst: dword, ghost chains: map<nat, seq<nat>>)
    requires fs.Valid() && fs.freeClust != UNKNOWN
    requires Chains.Consistent(StateOf(fs, chains), Eoc(fs.g))
    modifies fs`winsect, fs`wflag, fs`view, fs`fat, fs`steps, fs`meta, fs`lastClust, fs`freeClust, fs`fsiFlag, fs.win
    modifies fs.disk
    ensures fs.Valid() && |fs.view| == |old(fs.view)| && FatOnly(fs.g, old(fs.view), fs.view)
    ensures var t := Chains.Step(old(StateOf(fs, chains)), Eoc(fs.g), Chains.Stretch(clst)); StateOf(fs, t.chains) == t
    ensures fs.freeClust != UNKNOWN
    ensures fs.fsiFlag == (old(fs.fsiFlag) || fs.freeClust != old(fs.freeClust))
    ensures old(fs.disk.log) <= fs.disk.log && old(fs.steps) <= fs.steps
  {
    hide Entry, FatOf, FatOnly, Shows, Chains.Create;
    Chains.StepKeepsCount(StateOf(fs, chains), Eoc(fs.g), Chains.Stretch(clst));
    FreeIsSmall(fs.g, fs.fat, |fs.view|);
    var _ := CreateChain(fs, clst, false);
  }

  method PerformDiscard(fs: Volume, head: dword, ghost chains: map<nat, seq<nat>>)
    requires fs.Valid() && fs.freeClust != UNKNOWN
    requires Chains.Consistent(StateOf(fs, chains), Eoc(fs.g))
    requires Chains.Enabled(StateOf(fs, chains), Chains.Discard(head))
    modifies fs`winsect, fs`wflag, fs`view, fs`fat, fs`steps, fs`meta, fs`lastClust, fs`freeClust, fs`fsiFlag, fs.win
    modifies fs.disk
    ensures fs.Valid() && |fs.view| == |old(fs.view)| && FatOnly(fs.g, old(fs.view), fs.view)
    ensures var t := Chains.Step(old(StateOf(fs, chains)), Eoc(fs.g), Chains.Discard(head)); StateOf(fs, t.chains) == t
    ensures fs.freeClust != UNKNOWN
    ensures fs.fsiFlag == (old(fs.fsiFlag) || fs.freeClust != old(fs.freeClust))
    ensures old(fs.disk.log) <= fs.disk.log && old(fs.steps) <= fs.steps
  {
    hide Entry, FatOf, FatOnly, Shows, Chains.Remove, Chains.RemovalTrace;
    ghost var f := fs.fat;
    Chains.RemoveOnlyFrees(f, head);
    FreeIsSmall(fs.g, Chains.Remove(f, head).fat, |fs.view|);
    IncreasedIsSum(fs.freeClust, Chains.Remove(f, head).freed);
    assert fs.g.IsCluster(head);
    var _ := RemoveChain(fs, head);
  }

  // Nothing in front of the FAT changed but the FSInfo sector.
  ghost predicate BootKept(g: Layout, v: seq<Sector>, w: seq<Sector>) {
    |v| == |w| && forall s :: 0 <= s < g.fatbase && s < |v| && s != g.fsiSector ==> w[s] == v[s]
  }

  // The allocator touches neither the boot records nor the FSInfo sector.
  lemma AllocatorKeepsInfo(g: Layout, v: seq<Sector>, w: seq<Sector>, free: dword, free': dword, dirty: bool,
                           dirty': bool)
    requires g.fatbase + g.FatSectors() <= |v| == |w| && FatOnly(g, v, w) && g.fsiSector < g.fatbase
    requires InfoCurrent(g, v, free, dirty) && dirty' == (dirty || free' != free)
    ensures InfoCurrent(g, w, free', dirty')
    ensures forall s :: 0 <= s < g.fatbase ==> w[s] == v[s]
  {
  }

  // Perform a run of operations on a volume whose free count is exact.
  method PerformRun(fs: Volume, ops: seq<Chains.Operation>, ghost chains: map<nat, seq<nat>>)
    returns (ghost live: map<nat, seq<nat>>)
    requires fs.Valid() && fs.freeClust != UNKNOWN && fs.g.fsiSector < fs.g.fatbase
    requires InfoCurrent(fs.g, fs.view, fs.freeClust, fs.fsiFlag)
    requires Chains.Consistent(StateOf(fs, chains), Eoc(fs.g)) && Chains.Legal(StateOf(fs, chains), Eoc(fs.g), ops)
    modifies fs, fs.win, fs.disk
    ensures fs.Valid() && fs.freeClust != UNKNOWN && |fs.view| == |old(fs.view)|
    ensures BootKept(fs.g, old(fs.view), fs.view) && InfoCurrent(fs.g, fs.view, fs.freeClust, fs.fsiFlag)
    ensures StateOf(fs, live) == Chains.Run(old(StateOf(fs, chains)), Eoc(fs.g), ops)
    ensures old(fs.disk.log) <= fs.disk.log && old(fs.steps) <= fs.steps
  {
    hide Entry, FatOf, FatOnly, Chains.Step, InfoCurrent, Chains.CountFree, Chains.Consistent, Volume.Valid;
    hide Chains.Legal;
    hide Layout.Checked, Chains.Run, Chains.Enabled, Eoc, BootKept;
    VolumeFacts(fs);
    ghost var v, eoc, s := fs.view, Eoc(fs.g), StateOf(fs, chains);
    BootKeptRefl(fs.g, v);
    live := chains;
    for i := 0 to |ops|
      invariant fs.Valid() && |fs.view| == |v| && fs.g.Checked(|fs.view|) && fs.freeClust != UNKNOWN && |fs.fat| >= 3
      invariant BootKept(fs.g, v, fs.view) && InfoCurrent(fs.g, fs.view, fs.freeClust, fs.fsiFlag)
      invariant Chains.Consistent(StateOf(fs, live), eoc) && Chains.Legal(StateOf(fs, live), eoc, ops[i..])
      invariant Chains.Run(StateOf(fs, live), eoc, ops[i..]) == Chains.Run(s, eoc, ops)
      invariant old(fs.disk.log) <= fs.disk.log && old(fs.steps) <= fs.steps
    {
      ghost var before := StateOf(fs, live);
      ghost var w, free, dirty := fs.view, fs.freeClust, fs.fsiFlag;
      FirstOperation(before, eoc, ops, i);
      PerformOne(fs, ops[i], live);
      AllocatorKeepsInfo(fs.g, w, fs.view, free, fs.freeClust, dirty, fs.fsiFlag);
      BootStillKept(fs.g, v, w, fs.view);
      live := Chains.Step(before, eoc, ops[i]).chains;
      VolumeFacts(fs);
    }
    NoOperation(StateOf(fs, live), eoc, ops);
  }

  lemma VolumeFacts(fs: Volume)
    requires fs.Valid()
    ensures fs.g.Sound(|fs.view|) && fs.g.Checked(|fs.view|) && fs.g.fatbase + fs.g.FatSectors() <= |fs.view|
    ensures |fs.fat| >= 3
  {
  }

  lemma FirstOperation(s: Chains.AllocState, eoc: nat, ops: seq<Chains.Operation>, i: nat)
    requires i < |ops| && Chains.Consistent(s, eoc) && Chains.Legal(s, eoc, ops[i..])
    ensures Chains.Enabled(s, ops[i]) && Chains.Consistent(Chains.Step(s, eoc, ops[i]), eoc)
    ensures Chains.Legal(Chains.Step(s, eoc, ops[i]), eoc, ops[i + 1..])
    ensures Chains.Run(s, eoc, ops[i..]) == Chains.Run(Chains.Step(s, eoc, ops[i]), eoc, ops[i + 1..])
  {
    hide Chains.Step, Chains.Consistent;
    assert ops[i..][1..] == ops[i + 1..];
    Chains.StepKeepsConsistent(s, eoc, ops[i]);
  }

  lemma NoOperation(s: Chains.AllocState, eoc: nat, ops: seq<Chains.Operation>)
    requires |s.fat| >= 3 && Chains.Legal(s, eoc, ops[|ops|..])
    ensures Chains.Run(s, eoc, ops[|ops|..]) == s
  {
  }

  lemma BootKeptRefl(g: Layout, v: seq<Sector>)
    ensures BootKept(g, v, v)
  {
  }

  lemma BootStillKept(g: Layout, v: seq<Sector>, w: seq<Sector>, x: seq<Sector>)
    requires BootKept(g, v, w) && |x| == |w| && g.fatbase <= |w| && forall s :: 0 <= s < g.fatbase ==> x[s] == w[s]
    ensures BootKept(g, v, x)
  {
  }

  // Perform a whole run of operations on a mounted FAT32 volume with an exact free count, sync it, and
  // mount the disk again: the new mount finds the number of clusters that are free at the end of the run.
  method RunSyncRemount(fs: Volume, ops: seq<Chains.Operation>, ghost chains: map<nat, seq<nat>>) returns (r: Outcome)
    requires fs.Valid() && fs.g.fsType == Fat32 && fs.freeClust != UNKNOWN && fs.g.fsiSector < fs.g.fatbase
    requires MountOutcome(fs.view).Mounted? && MountOutcome(fs.view).layout == fs.g
    requires BootSector(fs.view) < fs.g.fsiSector && InfoCurrent(fs.g, fs.view, fs.freeClust, fs.fsiFlag)
    requires Chains.Consistent(StateOf(fs, chains), Eoc(fs.g)) && Chains.Legal(StateOf(fs, chains), Eoc(fs.g), ops)
    modifies fs, fs.win, fs.disk
    ensures var t := Chains.Run(old(StateOf(fs, chains)), Eoc(fs.g), ops);
            && fs.Valid() && fs.fat == t.fat && Chains.Consistent(t, Eoc(fs.g))
            && r.Mounted? && r.layout == fs.g && r.free == Chains.CountFree(t.fat)
    ensures old(fs.disk.log) <= fs.disk.log && old(fs.steps) <= fs.steps
  {
    hide Entry, FatOf, FatOnly, Chains.Step, MountOutcome, InfoCurrent, Chains.CountFree, RecordKind, Chains.Consistent;
    hide Volume.Valid, Chains.Legal, Layout.Checked, Chains.Run, Eoc;
    VolumeFacts(fs);
    ghost var v, s := fs.view, StateOf(fs, chains);
    Chains.RunKeepsConsistent(s, Eoc(fs.g), ops);
    ghost var live := PerformRun(fs, ops, chains);
    ghost var w, dirty := fs.view, fs.fsiFlag;
    var _ := Sync(fs);
    VolumeFacts(fs);
    SyncedIsCurrent(fs.g, w, fs.view, fs.freeClust, fs.lastClust, dirty);
    CountIsExact(StateOf(fs, live), Eoc(fs.g));
    RemountFindsCount(v, fs.view, fs.freeClust);
    var win := new byte[512](_ => 0);
    r := ChkMounted(fs.disk, win);
  }

  lemma CountIsExact(s: Chains.AllocState, eoc: nat)
    requires Chains.Consistent(s, eoc) && s.free != UNKNOWN
    ensures s.free == Chains.CountFree(s.fat)
  {
  }
}
