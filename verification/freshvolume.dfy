/**
 From formatting on: a formatted disk mounts with an empty root directory, and runs on it start from there.
*/
module FreshVolumes {
  import opened Bytes
  import opened Geometry
  import opened DiskIO
  import opened FatMap
  import opened Volumes
  import opened Entries
  import opened FileMap
  import opened FileGrowth
  import opened Cursor
  import opened Directory
  import opened Ordering
  import opened Tables
  import opened DirTables
  import opened LongNames
  import opened Lookup
  import opened Files
  import opened OpenFiles
  import opened Mount
  import opened Formatting
  import opened MakeFs
  import opened Sessions
  import opened SessionRuns
  import Chains

  // The start clusters of the directories of a new volume, and the chain of its root directory.
  function RootStarts(t: FsType): set<nat> {
    if t == Fat32 then {2} else {}
  }

  function RootChain(t: FsType): seq<dword> {
    if t == Fat32 then [2] else []
  }

  // Sector s belongs to the root directory of a new volume.
  ghost predicate InNewRoot(g: Layout, s: nat)
    requires g.nFatent >= 2
  {
    if g.fsType == Fat32 then g.InCluster(2, s) else InRoot(g, s)
  }

  // ----- the FAT

  lemma FreshLinks(g: Layout, d: seq<Sector>, n: nat)
    requires g.Checked(|d|) && IsFresh(g, d, n)
    ensures LinksLive(FatOf(g, d)) && !HasOne(FatOf(g, d))
    ensures g.fsType == Fat32 ==> Chains.IsChain(FatOf(g, d), [2]) && FatOf(g, d)[2] != 0
  {
    hide FatOf, Chains.CountFree;
    if g.fsType == Fat32 {
      Chains.ChainEntries(FatOf(g, d), [2], 0);
    }
  }

  lemma PathLinks(f: seq<nat>, p: seq<nat>)
    requires Path(f, p)
    ensures |p| > 1 ==> f[p[0]] < |f|
  {
    if |p| > 1 {
      assert f[p[0]] == p[1];
    }
  }

  // The root directory is the only one.
  lemma FreshDirs(g: Layout, d: seq<Sector>, n: nat, s: nat)
    requires g.Checked(|d|) && IsFresh(g, d, n) && IsDirSector(g, FatOf(g, d), RootStarts(g.fsType), s)
    ensures InNewRoot(g, s)
  {
    hide FatOf, Chains.CountFree, Layout.Checked, Layout.Clust2Sect;
    var f := FatOf(g, d);
    if g.fsType == Fat32 {
      Chains.ChainEntries(f, [2], 0);
      var p: seq<nat> :| Path(f, p) && p[0] in {2} && OfCluster(g, p[|p| - 1], s);
      PathLinks(f, p);
    }
  }

  // ----- the root directory

  lemma ZeroSlot(o: nat)
    requires o < 16
    ensures SlotAt(ZeroSector(), o)[0] == 0
  {
  }

  lemma RootHolds(g: Layout, i: nat, limit: nat)
    requires g.Sound(limit) && Proper(g, RootChain(g.fsType)) && i < Size(g, RootChain(g.fsType))
    requires g.fsType == Fat32 ==> g.dirbase == 2
    ensures g.csize > 0 && g.nFatent >= 2
    ensures RootChain(g.fsType) != [] ==> Ordinal(g, i / 16) < |RootChain(g.fsType)|
    ensures InNewRoot(g, DirSector(g, RootChain(g.fsType), i)) && DirSector(g, RootChain(g.fsType), i) < limit
  {
    hide Layout.Clust2Sect;
    Bounds(g, limit);
    DirSectorPlace(g, RootChain(g.fsType), i, limit);
  }

  // With a root directory of zeros, all of its entries are end marks.
  lemma BlankTable(g: Layout, d: seq<Sector>)
    requires g.Sound(|d|) && g.nFatent >= 2 && Proper(g, RootChain(g.fsType)) && (g.fsType == Fat32 ==> g.dirbase == 2)
    requires forall s: nat :: s < |d| && InNewRoot(g, s) ==> d[s] == ZeroSector()
    ensures forall i :: 0 <= i < Size(g, RootChain(g.fsType)) ==> DirTables.Table(g, d, RootChain(g.fsType))[i][0] == 0
    ensures Orderly(DirTables.Table(g, d, RootChain(g.fsType)))
  {
    hide Layout.Checked, Layout.Clust2Sect, SlotAt, InNewRoot, Proper;
    var cs := RootChain(g.fsType);
    forall i | 0 <= i < Size(g, cs)
      ensures SlotOf(g, d, cs, i)[0] == 0
    {
      RootHolds(g, i, |d|);
      ZeroSlot(i % 16);
    }
  }

  // A volume with a fresh FAT and a root directory of zeros may be mounted.
  lemma FreshIsMountable(g: Layout, d: seq<Sector>, n: nat)
    requires g.Sound(|d|) && g.nFatent >= 2 && IsFresh(g, d, n) && (g.fsType == Fat32 ==> g.dirbase == 2)
    requires forall s: nat :: s < |d| && InNewRoot(g, s) ==> d[s] == ZeroSector()
    ensures Mountable(g, d, RootStarts(g.fsType), 0, RootChain(g.fsType))
    ensures Proper(g, RootChain(g.fsType))
    ensures forall i :: 0 <= i < Size(g, RootChain(g.fsType)) ==> DirTables.Table(g, d, RootChain(g.fsType))[i][0] == 0
  {
    hide FatOf, InNewRoot, SectorLive, Layout.Clust2Sect, HasOne, LinksLive, Orderly, IsFresh, IsDirSector, Size;
    var f: seq<nat> := FatOf(g, d);
    var cs := RootChain(g.fsType);
    Bounds(g, |d|);
    FreshLinks(g, d, n);
    forall s: nat | s < |d| && IsDirSector(g, f, RootStarts(g.fsType), s)
      ensures SectorLive(f, d[s])
    {
      FreshDirs(g, d, n, s);
      ZeroIsLive(f);
    }
    ChainIsProper(g, f, cs);
    BlankTable(g, d);
  }

  // ----- formatting

  lemma NewRootIsZero(e: seq<Sector>, d: seq<Sector>, p: Plan, sfd: byte, time: dword, s: nat)
    requires p.au < 0x100 && p.nRsv < 0x1_0000 && Laid(e, d, p, sfd, time)
    requires LayoutFor(p).Sound(|d|) && s < |d| && LayoutFor(p).nFatent >= 2 && InNewRoot(LayoutFor(p), s)
    ensures d[s] == ZeroSector()
  {
    hide IsBoot, FirstFat, IsInfo, IsPartitionTable;
    var g := LayoutFor(p);
    g.FatsInside(|d|);
    if g.fsType == Fat32 {
      g.ClusterBlock(2, |d|);
    }
  }

  // A formatted disk may be mounted; its root directory is empty.
  lemma FormattedIsMountable(e: seq<Sector>, d: seq<Sector>, p: Plan, sfd: byte, unit: dword, block: dword, time: dword)
    requires |d| < 0x1_0000_0000 && PlanFormat(|d|, sfd, unit, block) == Planned(p)
    requires p.au < 0x100 && p.nRsv < 0x1_0000 && Laid(e, d, p, sfd, time)
    requires p.BData() + p.au <= |d| && p.nClst + 2 <= MAX_FATENT
    ensures MountOutcome(d).Mounted? && MountOutcome(d).layout == LayoutFor(p)
    ensures Mountable(LayoutFor(p), d, RootStarts(p.t), 0, RootChain(p.t))
    ensures LayoutFor(p).Checked(|d|) && Proper(LayoutFor(p), RootChain(p.t))
    ensures forall i :: 0 <= i < Size(LayoutFor(p), RootChain(p.t)) ==>
                          DirTables.Table(LayoutFor(p), d, RootChain(p.t))[i][0] == 0
  {
    hide PlanFormat, Laid, IsFresh, Layout.Checked, Mountable, Proper, InNewRoot, Size;
    FormattedMounts(e, d, p, sfd, unit, block, time);
    Bounds(LayoutFor(p), |d|);
    forall s: nat | s < |d| && InNewRoot(LayoutFor(p), s)
      ensures d[s] == ZeroSector()
    {
      NewRootIsZero(e, d, p, sfd, time, s);
    }
    FreshIsMountable(LayoutFor(p), d, p.nClst);
  }

  // ----- runs

  // The chain of the directory only grows in a run.
  lemma {:induction false} ChainGrows(g: Layout, ms: seq<Moment>, calls: seq<Call>, rs: seq<Reply>, up: word -> word,
                                      k: nat)
    requires History(g, ms, calls, rs, up) && k <= |calls|
    ensures ms[k].chain <= ms[|calls|].chain
    decreases |calls| - k
  {
    hide Creates, PlayStep, Moves, SameNames;
    if k < |calls| {
      assert Follows(g, ms[k], calls[k], rs[k], ms[k + 1], up);
      ChainGrows(g, ms, calls, rs, up, k + 1);
    }
  }

  // A run that leaves the directory without a chain extends nothing.
  lemma NothingExtended(g: Layout, ms: seq<Moment>, calls: seq<Call>, rs: seq<Reply>, up: word -> word)
    requires History(g, ms, calls, rs, up) && ms[|calls|].chain == [] && g.nFatent >= 2
    ensures SafeRun(g, ms)
  {
    hide Follows;
    forall k | 0 <= k < |calls|
      ensures SafeCall(g, ms[k], ms[k + 1])
    {
      ChainGrows(g, ms, calls, rs, up, k);
      ChainGrows(g, ms, calls, rs, up, k + 1);
    }
  }

  // The static root directory has no chain.
  lemma StaticRoot(fs: Volume, dj: Dir, ds: seq<dword>)
    requires dj.fs == fs && fs.Valid() && Listing(dj, ds) && dj.sclust == 0 && fs.g.fsType != Fat32
    ensures ds == [] && fs.g.nFatent >= 2
  {
    Bounds(fs.g, |fs.view|);
  }

  lemma MomentHasChain(fs: Volume, dj: Dir, ds: seq<dword>, files: seq<File>)
    requires dj.fs.Valid() && Listing(dj, ds)
    ensures MomentOf(fs, dj, ds, files).chain == ds
  {
  }

  // Format a disk, mount it, and carry out any sequence of calls in its root directory. The run starts with no file and
  // an empty table; with a static root directory every image the disk has from the mount on is safe.
  method FormatAndRun(d: Disk, win: array<byte>, sfd: byte, unit: dword, block: dword, time: dword, calls: seq<Call>,
                      up: word -> word)
    returns (fs: Volume, dj: Dir, files: seq<File>, rs: seq<Reply>, ghost ms: seq<Moment>, ghost ds: seq<dword>)
    requires win.Length == 512 && |d.sectors| < 0x1_0000_0000
    requires match PlanFormat(|d.sectors|, sfd, unit, block)
             case Rejected(_) => false
             case Planned(p) =>
               p.End() <= |d.sectors| && p.BData() + p.au <= |d.sectors| && p.nClst + 2 <= MAX_FATENT
    requires UpperCases(up) && AreCalls(calls)
    modifies d, win
    ensures fresh(fs) && fs.disk == d && Session(fs, dj, ds, files)
    ensures fs.g == LayoutFor(PlanFormat(|old(d.sectors)|, sfd, unit, block).plan)
    ensures History(fs.g, ms, calls, rs, up) && ms[0].streams == []
    ensures forall i :: 0 <= i < |ms[0].table| ==> ms[0].table[i][0] == 0
    ensures dj.fs.Valid() && Listing(dj, ds) && ms[|calls|] == MomentOf(fs, dj, ds, files)
    ensures StoredThroughout(fs.g, ms)
    ensures SafeRun(fs.g, ms) || fs.g.fsType != Fat32 ==>
              ImagesSafe(fs.g, d.log, 0, RootStarts(fs.g.fsType))
  {
    hide *;
    ghost var e, p := d.sectors, PlanFormat(|d.sectors|, sfd, unit, block).plan;
    var res := MkFs(d, win, sfd, unit, block, time);
    ghost var v := d.sectors;
    FormattedIsMountable(e, v, p, sfd, unit, block, time);
    PlacesFor(p);
    fs, dj, files, rs, ms, ds := MountAndRun(d, 0, calls, up, RootStarts(p.t), RootChain(p.t));
    if fs.g.fsType != Fat32 {
      StaticRoot(fs, dj, ds);
      MomentHasChain(fs, dj, ds, files);
      NothingExtended(fs.g, ms, calls, rs, up);
    }
  }
}
