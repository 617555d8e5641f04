/**
 Allocation and release of cluster chains on a mounted volume, and the FSInfo sector that
 carries the free-cluster count across mounts.
*/
module Allocator {
  import opened Bytes
  import opened Geometry
  import opened DiskIO
  import opened FatMap
  import opened FatBytes
  import opened WriteBehind
  import opened Volumes
  import Chains

  const UNKNOWN: dword := 0xFFFF_FFFF

  // The end mark as it reads back from an entry.
  function Eoc(g: Layout): nat {
    0x0FFF_FFFF % Width(g.fsType)
  }

  // End marks are no cluster numbers, and every cluster number fits an entry.
  lemma EocEnds(g: Layout, limit: nat)
    requires g.Sound(limit)
    ensures g.nFatent <= Eoc(g) < Width(g.fsType)
    ensures forall c :: 0 <= c < g.nFatent ==> c % Width(g.fsType) == c
  {
    match g.fsType
    case Fat12 =>
    case Fat16 =>
    case Fat32 =>
  }

  // No entry can be mistaken for a disk error.
  lemma EntryIsNoError(g: Layout, v: seq<Sector>, c: nat)
    requires g.Checked(|v|) && c < g.nFatent
    ensures FatOf(g, v)[c] < DISK_ERROR
  {
    EntryRange(g, v, c);
  }

  lemma FatFacts(fs: Volume)
    requires fs.Valid()
    ensures fs.g.Checked(|fs.view|) && fs.fat == FatOf(fs.g, fs.view) && 3 <= |fs.fat| == fs.g.nFatent <= 0x1000_0000
  {
    hide FatMap.Entry, Chronicle, Agrees, MetaGrows, Mirrored, Store;
  }

  // Look for a free cluster behind cluster scl, wrapping around once.
  method FindFree(fs: Volume, scl: dword) returns (r: dword)
    requires fs.Valid() && 1 <= scl < fs.g.nFatent
    modifies fs`winsect, fs`wflag, fs.win, fs.disk
    ensures fs.Valid() && fs.g.InFat(fs.winsect)
    ensures r == Chains.Scan(fs.fat, scl)
    ensures old(fs.disk.log) <= fs.disk.log
  {
    hide FatMap.Entry, FatOf, FromBytes, Volume.Valid, Layout.Checked, Chains.Visit, Chains.Stop, Chains.Scan;
    FatFacts(fs);
    var n := fs.g.nFatent;
    var ncl: dword := scl;
    ghost var f := fs.fat;
    ghost var k := 0;
    while true
      invariant fs.Valid() && ncl < n && k <= n - 2 && (k == n - 2 ==> scl == 1)
      invariant k > 0 ==> fs.g.InFat(fs.winsect)
      invariant ncl == Chains.Before(n, scl, k)
      invariant Chains.Stop(f, scl, 0) == Chains.Stop(f, scl, k)
      invariant old(fs.disk.log) <= fs.disk.log
      decreases n - k
    {
      Chains.ScanRound(f, scl, k);
      ncl := ncl + 1;
      if ncl >= n {
        ncl := 2;
        if ncl > scl { return 0; }
      }
      var cs := fs.GetFat(ncl);
      assert cs == f[ncl];
      if cs == 0 { break; }
      if cs == DISK_ERROR || cs == 1 {
        EntryIsNoError(fs.g, fs.view, ncl);
        return cs;
      }
      if ncl == scl { return 0; }
      k := k + 1;
    }
    return ncl;
  }

  // Free count after an allocation or release changed it by one, unless it is unknown.
  function Recount(free: dword, changed: dword): dword {
    if free == UNKNOWN then free else changed
  }

  // Step st has FAT f and otherwise the sectors v.
  ghost predicate ShowsFat(g: Layout, v: seq<Sector>, m: set<nat>, st: Snapshot, f: seq<nat>)
    requires g.Checked(|v|) && g.fatbase + g.FatSectors() <= |v|
  {
    |st.sectors| == |v| && st.meta == m && FatOf(g, st.sectors) == f && FatOnly(g, v, st.sectors)
  }

  // The steps behind `before` show the FATs of the trace one by one. A 12-bit entry may take two steps,
  // so nothing is said about FAT12.
  ghost predicate Shows(g: Layout, v: seq<Sector>, m: set<nat>, before: seq<Snapshot>, after: seq<Snapshot>,
                        trace: seq<seq<nat>>)
    requires g.Checked(|v|) && g.fatbase + g.FatSectors() <= |v|
  {
    && before <= after
    && (g.fsType != Fat12 ==>
          && |after| == |before| + |trace|
          && forall i :: 0 <= i < |trace| ==> ShowsFat(g, v, m, after[|before| + i], trace[i]))
  }

  ghost function ClusterSectors(g: Layout, c: dword): set<nat>
    requires g.nFatent >= 2 && g.IsCluster(c)
  {
    set s: nat | g.Clust2Sect(c) <= s < g.Clust2Sect(c) + g.csize && g.InCluster(c, s)
  }

  // The steps of appending cluster c to the chain of a directory table that ends in clst: c is marked as an end, holds
  // metadata from then on, and is linked.
  ghost predicate ShowsTable(g: Layout, v: seq<Sector>, m: set<nat>, before: seq<Snapshot>, after: seq<Snapshot>,
                             f: seq<nat>, eoc: nat, c: dword, clst: nat)
    requires g.Checked(|v|) && g.fatbase + g.FatSectors() <= |v| && g.IsCluster(c) && |f| == g.nFatent && clst < |f|
  {
    && before <= after
    && (g.fsType != Fat12 ==>
          && |after| == |before| + 3
          && ShowsFat(g, v, m, after[|before|], f[c := eoc])
          && ShowsFat(g, v, m + ClusterSectors(g, c), after[|before| + 1], f[c := eoc])
          && ShowsFat(g, v, m + ClusterSectors(g, c), after[|before| + 2], f[c := eoc][clst := c]))
  }

  // The metadata n and the steps after cluster c was linked behind clst, unless that is 0. A cluster that is appended
  // to a directory table holds metadata.
  ghost predicate LinkShown(g: Layout, v: seq<Sector>, m: set<nat>, before: seq<Snapshot>, f: seq<nat>,
                            c: dword, clst: dword, table: bool, n: set<nat>, after: seq<Snapshot>)
    requires g.Checked(|v|) && g.fatbase + g.FatSectors() <= |v|
    requires g.IsCluster(c) && clst < g.nFatent && |f| == g.nFatent
  {
    if table && clst != 0 then
      n == m + ClusterSectors(g, c) && ShowsTable(g, v, m, before, after, f, Eoc(g), c, clst)
    else
      n == m && Shows(g, v, m, before, after, Chains.GrowthTrace(f, Eoc(g), c, clst))
  }

  // After the first store: the cluster is an end, and may have become metadata.
  ghost predicate EndShown(g: Layout, v: seq<Sector>, m: set<nat>, before: seq<Snapshot>, f: seq<nat>,
                           c: dword, adopted: bool, n: set<nat>, w: seq<Sector>, after: seq<Snapshot>)
    requires g.Checked(|v|) && g.fatbase + g.FatSectors() <= |v| && g.IsCluster(c) && |f| == g.nFatent
  {
    && |w| == |v| && FatOnly(g, v, w) && FatOf(g, w) == f[c := Eoc(g)] && before <= after
    && n == (if adopted then m + ClusterSectors(g, c) else m)
    && (g.fsType != Fat12 ==> after == before + [Snapshot(w, m)] + if adopted then [Snapshot(w, n)] else [])
  }

  lemma EndIsLink(g: Layout, v: seq<Sector>, m: set<nat>, before: seq<Snapshot>, f: seq<nat>, c: dword, table: bool,
                  w: seq<Sector>, after: seq<Snapshot>)
    requires g.Checked(|v|) && g.fatbase + g.FatSectors() <= |v| && g.IsCluster(c) && |f| == g.nFatent
    requires EndShown(g, v, m, before, f, c, false, m, w, after)
    ensures LinkShown(g, v, m, before, f, c, 0, table, m, after)
  {
    hide FatOf, FatOnly;
  }

  lemma LinkIsShown(g: Layout, v: seq<Sector>, m: set<nat>, before: seq<Snapshot>, f: seq<nat>, c: dword, clst: dword,
                    table: bool, n: set<nat>, u: seq<Sector>, mid: seq<Snapshot>, w: seq<Sector>,
                    after: seq<Snapshot>)
    requires g.Checked(|v|) && g.fatbase + g.FatSectors() <= |v| && g.IsCluster(c) && 0 < clst < g.nFatent
    requires |f| == g.nFatent
    requires EndShown(g, v, m, before, f, c, table, n, u, mid)
    requires |w| == |v| && FatOnly(g, u, w) && FatOf(g, w) == f[c := Eoc(g)][clst := c] && mid <= after
    requires g.fsType != Fat12 ==> after == mid + [Snapshot(w, n)]
    ensures LinkShown(g, v, m, before, f, c, clst, table, n, after) && FatOnly(g, v, w)
  {
    hide FatOf, ClusterSectors;
    FatOnlyTransitive(g, v, u, w);
    hide FatOnly;
  }

  // What allocating cluster c, linked behind clst unless that is 0, leaves of a volume.
  twostate predicate Allocated(fs: Volume, c: dword, clst: dword, table: bool)
    requires old(fs.g.Checked(|fs.view|) && fs.g.fatbase + fs.g.FatSectors() <= |fs.view|)
    requires fs.g.IsCluster(c) && clst < fs.g.nFatent && |old(fs.fat)| == fs.g.nFatent
    reads fs
  {
    && LinkShown(fs.g, old(fs.view), old(fs.meta), old(fs.steps), old(fs.fat), c, clst, table, fs.meta, fs.steps)
    && fs.freeClust == Recount(old(fs.freeClust), Sub32(old(fs.freeClust), 1))
    && fs.fsiFlag == (old(fs.fsiFlag) || old(fs.freeClust) != UNKNOWN)
  }

  // Nothing but the window was used.
  twostate predicate Kept(fs: Volume)
    reads fs
  {
    && fs.view == old(fs.view) && fs.steps == old(fs.steps) && fs.lastClust == old(fs.lastClust)
    && fs.freeClust == old(fs.freeClust) && fs.fsiFlag == old(fs.fsiFlag)
  }

  lemma ClusterCacheable(g: Layout, c: dword, limit: nat)
    requires g.Checked(limit) && g.IsCluster(c)
    ensures forall s :: s in ClusterSectors(g, c) ==> s < limit && g.Cacheable(s) && !g.InFats(s)
  {
    g.ClusterBlock(c, limit);
    g.FatsInside(limit);
  }

  // Mark the free cluster ncl as the end of a chain and link it behind clst unless that is 0.
  method Link(fs: Volume, ncl: dword, clst: dword, ghost table: bool) returns (res: FResult)
    requires fs.Valid() && fs.g.IsCluster(ncl) && (clst == 0 || fs.g.IsCluster(clst))
    modifies fs`winsect, fs`wflag, fs`view, fs`fat, fs`steps, fs`meta, fs.win, fs.disk
    ensures fs.Valid() && fs.g.InFat(fs.winsect) && fs.wflag && res == Ok
    ensures |fs.view| == |old(fs.view)| && FatOnly(fs.g, old(fs.view), fs.view)
    ensures var f := old(fs.fat)[ncl := Eoc(fs.g)];
            fs.fat == if clst == 0 then f else f[clst := ncl]
    ensures old(fs.g.Checked(|fs.view|) && fs.g.fatbase + fs.g.FatSectors() <= |fs.view| && |fs.fat| == fs.g.nFatent)
    ensures LinkShown(fs.g, old(fs.view), old(fs.meta), old(fs.steps), old(fs.fat), ncl, clst, table, fs.meta, fs.steps)
    ensures old(fs.disk.log) <= fs.disk.log && old(fs.steps) <= fs.steps
  {
    hide *;
    LinkFacts(fs, ncl, clst);
    ghost var v, m, steps, f := fs.view, fs.meta, fs.steps, fs.fat;
    res := MarkEnd(fs, ncl, table && clst != 0);
    if res == Ok {
      if clst == 0 {
        EndIsLink(fs.g, v, m, steps, f, ncl, table, fs.view, fs.steps);
      } else {
        ghost var u, n, mid := fs.view, fs.meta, fs.steps;
        res := fs.PutFat(clst, ncl);
        LinkFacts(fs, ncl, clst);
        LinkIsShown(fs.g, v, m, steps, f, ncl, clst, table, n, u, mid, fs.view, fs.steps);
      }
    }
  }

  lemma LinkFacts(fs: Volume, ncl: dword, clst: dword)
    requires fs.Valid() && fs.g.IsCluster(ncl) && (clst == 0 || fs.g.IsCluster(clst))
    ensures fs.g.Checked(|fs.view|) && fs.g.fatbase + fs.g.FatSectors() <= |fs.view| && |fs.fat| == fs.g.nFatent
    ensures fs.fat == FatOf(fs.g, fs.view)
    ensures ncl % Width(fs.g.fsType) == ncl < fs.g.nFatent && 0 <= clst < fs.g.nFatent
  {
    EocEnds(fs.g, |fs.view|);
  }

  // Mark cluster c as the end of a chain; it may become metadata.
  method MarkEnd(fs: Volume, c: dword, ghost adopted: bool) returns (res: FResult)
    requires fs.Valid() && fs.g.IsCluster(c)
    modifies fs`winsect, fs`wflag, fs`view, fs`fat, fs`steps, fs`meta, fs.win, fs.disk
    ensures fs.Valid() && fs.g.InFat(fs.winsect) && fs.wflag && res == Ok
    ensures fs.fat == old(fs.fat)[c := Eoc(fs.g)] == FatOf(fs.g, fs.view)
    ensures old(fs.g.Checked(|fs.view|) && fs.g.fatbase + fs.g.FatSectors() <= |fs.view| && |fs.fat| == fs.g.nFatent)
    ensures |fs.view| == |old(fs.view)| && FatOnly(fs.g, old(fs.view), fs.view)
    ensures !adopted ==> fs.meta == old(fs.meta)
    ensures EndShown(fs.g, old(fs.view), old(fs.meta), old(fs.steps), old(fs.fat), c, adopted, fs.meta, fs.view,
        fs.steps)
    ensures old(fs.disk.log) <= fs.disk.log && old(fs.steps) <= fs.steps
  {
    hide FatMap.Entry, FatOf, Put, Width, Chronicle, Agrees, MetaGrows, Store, Layout.Checked, ClusterSectors, Mirrored;
    EocEnds(fs.g, |fs.view|);
    ClusterCacheable(fs.g, c, |fs.view|);
    res := fs.PutFat(c, 0x0FFF_FFFF);
    if adopted { fs.AdoptMeta(ClusterSectors(fs.g, c)); }
  }

  // Find a free cluster behind scl and link it behind clst, or start a new chain with it if clst is 0.
  method Allocate(fs: Volume, scl: dword, clst: dword, ghost table: bool) returns (r: dword)
    requires fs.Valid() && 1 <= scl < fs.g.nFatent && (clst == 0 || fs.g.IsCluster(clst))
    modifies fs`winsect, fs`wflag, fs`view, fs`fat, fs`steps, fs`meta, fs`lastClust, fs`freeClust, fs`fsiFlag, fs.win
    modifies fs.disk
    ensures fs.Valid() && fs.g.InFat(fs.winsect)
    ensures |fs.view| == |old(fs.view)| && FatOnly(fs.g, old(fs.view), fs.view)
    ensures var c := Chains.Allocate(old(fs.fat), Eoc(fs.g), old(fs.lastClust), scl, clst);
            && r == c.code && fs.fat == c.fat && fs.lastClust == c.last
            && if c.grew then Allocated(fs, r, clst, table) && fs.wflag else Kept(fs) && fs.meta == old(fs.meta)
    ensures old(fs.disk.log) <= fs.disk.log && old(fs.steps) <= fs.steps
  {
    hide FatMap.Entry, FatOf, Put, BytesStored, Chains.Scan, Width, Chronicle, Agrees, MetaGrows, Store, PowerOfTwo;
    var ncl := FindFree(fs, scl);
    if ncl < 2 || ncl == DISK_ERROR { return ncl; }
    var res := Link(fs, ncl, clst, table);
    if res == Ok {
      fs.lastClust := ncl;
      if fs.freeClust != UNKNOWN {
        fs.freeClust := Sub32(fs.freeClust, 1);
        fs.fsiFlag := true;
      }
    } else {
      ncl := if res == DiskErr then DISK_ERROR else 1;
    }
    return ncl;
  }

  // Stretch the chain that ends in clst, or start a new one if clst is 0.
  // The chain is that of a directory table if `table` says so.
  // Returns the new or following cluster, 0 if the volume is full, 1 on an inconsistent FAT.
  method CreateChain(fs: Volume, clst: dword, ghost table: bool) returns (r: dword)
    requires fs.Valid()
    modifies fs`winsect, fs`wflag, fs`view, fs`fat, fs`steps, fs`meta, fs`lastClust, fs`freeClust, fs`fsiFlag, fs.win
    modifies fs.disk
    ensures fs.Valid()
    ensures fs.g.InFat(fs.winsect) || (fs.winsect == old(fs.winsect) && r == 1)
    ensures |fs.view| == |old(fs.view)| && FatOnly(fs.g, old(fs.view), fs.view)
    ensures var c := Chains.Create(old(fs.fat), Eoc(fs.g), old(fs.lastClust), clst);
            && r == c.code && fs.fat == c.fat && fs.lastClust == c.last
            && if c.grew then Allocated(fs, r, clst, table) && fs.wflag else Kept(fs) && fs.meta == old(fs.meta)
    ensures old(fs.disk.log) <= fs.disk.log && old(fs.steps) <= fs.steps
  {
    hide Entry, FatOf, Put, FromBytes;
    var scl;
    if clst == 0 {
      scl := fs.lastClust;
      if scl == 0 || scl >= fs.g.nFatent { scl := 1; }
    } else {
      var cs := fs.GetFat(clst);
      if cs < 2 { return 1; }
      if cs < fs.g.nFatent { return cs; }
      scl := clst;
    }
    r := Allocate(fs, scl, clst, table);
  }

  // The free count after k increments; it stays unknown once it is.
  function Increased(free: dword, k: nat): dword {
    if k == 0 then free
    else
      var before := Increased(free, k - 1);
      Recount(before, Add32(before, 1))
  }

  lemma ShowsMore(g: Layout, v: seq<Sector>, w: seq<Sector>, m: set<nat>,
                  before: seq<Snapshot>, mid: seq<Snapshot>, after: seq<Snapshot>, trace: seq<seq<nat>>, f: seq<nat>)
    requires g.Checked(|v|) && g.fatbase + g.FatSectors() <= |v| == |w| && FatOnly(g, v, w)
    requires Shows(g, v, m, before, mid, trace) && Shows(g, w, m, mid, after, [f])
    ensures Shows(g, v, m, before, after, trace + [f])
  {
    hide FatOf, FatOnly;
    if g.fsType != Fat12 {
      forall i | 0 <= i < |trace + [f]|
        ensures ShowsFat(g, v, m, after[|before| + i], (trace + [f])[i])
      {
        if i < |trace| {
          assert after[|before| + i] == mid[|before| + i];
        } else {
          assert ShowsFat(g, w, m, after[|mid| + 0], [f][0]);
          FatOnlyTransitive(g, v, w, after[|mid|].sectors);
        }
      }
    }
  }

  // Mark cluster c free and count it.
  method FreeCluster(fs: Volume, c: dword) returns (res: FResult)
    requires fs.Valid() && fs.g.IsCluster(c)
    modifies fs`winsect, fs`wflag, fs`view, fs`fat, fs`steps, fs`freeClust, fs`fsiFlag, fs.win, fs.disk
    ensures fs.Valid() && res == Ok && fs.g.InFat(fs.winsect)
    ensures |fs.view| == |old(fs.view)| && FatOnly(fs.g, old(fs.view), fs.view)
    ensures fs.fat == old(fs.fat)[c := 0]
    ensures fs.freeClust == Recount(old(fs.freeClust), Add32(old(fs.freeClust), 1))
    ensures fs.fsiFlag == (old(fs.fsiFlag) || old(fs.freeClust) != UNKNOWN)
    ensures fs.g.fsType != Fat12 ==> fs.steps == old(fs.steps) + [Snapshot(fs.view, fs.meta)]
    ensures old(fs.disk.log) <= fs.disk.log && old(fs.steps) <= fs.steps
  {
    hide Entry, FatOf, Put, Width, Chronicle, Agrees, MetaGrows, Mirrored, Layout.Checked, FatOnly;
    EocEnds(fs.g, |fs.view|);
    res := fs.PutFat(c, 0);
    if res != Ok { return; }
    if fs.freeClust != UNKNOWN {
      fs.freeClust := Add32(fs.freeClust, 1);
      fs.fsiFlag := true;
    }
  }

  // One round of a release: free cluster c and return its successor, or stop at a free or invalid entry.
  method FreeNext(fs: Volume, c: dword) returns (res: FResult, more: bool, nxt: dword)
    requires fs.Valid() && fs.g.IsCluster(c)
    modifies fs`winsect, fs`wflag, fs`view, fs`fat, fs`steps, fs`freeClust, fs`fsiFlag, fs.win, fs.disk
    ensures fs.Valid() && fs.g.InFat(fs.winsect)
    ensures more == (old(fs.fat)[c] > 1) && res == (if old(fs.fat)[c] == 1 then IntErr else Ok)
    ensures |fs.view| == |old(fs.view)| && FatOnly(fs.g, old(fs.view), fs.view)
    ensures !more ==> Kept(fs)
    ensures more ==>
      && nxt == old(fs.fat)[c] && fs.fat == old(fs.fat)[c := 0]
      && fs.freeClust == Recount(old(fs.freeClust), Add32(old(fs.freeClust), 1))
      && fs.fsiFlag == (old(fs.fsiFlag) || old(fs.freeClust) != UNKNOWN)
      && Shows(fs.g, old(fs.view), fs.meta, old(fs.steps), fs.steps, [fs.fat])
    ensures old(fs.disk.log) <= fs.disk.log && old(fs.steps) <= fs.steps
  {
    hide Entry, FatOf, Put, FromBytes, Width, Chronicle, Agrees, MetaGrows, Mirrored, Layout.Checked;
    EntryIsNoError(fs.g, fs.view, c);
    res := Ok;
    nxt := fs.GetFat(c);
    more := 1 < nxt < DISK_ERROR;
    if nxt == 1 { res := IntErr; }
    if nxt == DISK_ERROR { res := DiskErr; }
    if more {
      res := FreeCluster(fs, c);
    }
  }

  // A volume's sectors, the steps recorded so far, the free count and whether FSInfo is out of date.
  datatype Stage = Stage(sectors: seq<Sector>, steps: seq<Snapshot>, free: dword, dirty: bool)

  ghost predicate Sized(g: Layout, s: Stage, t: Stage) {
    g.Checked(|s.sectors|) && g.fatbase + g.FatSectors() <= |s.sectors| == |t.sectors|
  }

  // A release that started with cluster clst at stage s reached cluster c at stage t, after these FATs.
  ghost predicate Released(g: Layout, m: set<nat>, s: Stage, clst: nat, t: Stage, c: nat, trace: seq<seq<nat>>)
    requires clst >= 2 && c >= 2 && Sized(g, s, t)
  {
    var f, h := FatOf(g, s.sectors), FatOf(g, t.sectors);
    var r := Chains.Remove(h, c);
    && Chains.Remove(f, clst) == Chains.Removal(r.ok, r.fat, r.freed + |trace|)
    && Chains.RemovalTrace(f, clst) == trace + Chains.RemovalTrace(h, c)
    && t.free == Increased(s.free, |trace|)
    && t.dirty == (s.dirty || (trace != [] && s.free != UNKNOWN))
    && FatOnly(g, s.sectors, t.sectors)
    && Shows(g, s.sectors, m, s.steps, t.steps, trace)
  }

  lemma ReleaseStarts(g: Layout, m: set<nat>, s: Stage, clst: nat)
    requires clst >= 2 && Sized(g, s, s)
    ensures Released(g, m, s, clst, s, clst, [])
  {
    hide Entry, FatOf;
    assert [] + Chains.RemovalTrace(FatOf(g, s.sectors), clst) == Chains.RemovalTrace(FatOf(g, s.sectors), clst);
  }

  lemma ReleaseContinues(g: Layout, m: set<nat>, s: Stage, clst: nat, t: Stage, c: nat, trace: seq<seq<nat>>, u: Stage)
    requires clst >= 2 && g.IsCluster(c) && Sized(g, s, t) && Sized(g, t, u) && Released(g, m, s, clst, t, c, trace)
    requires var h := FatOf(g, t.sectors); h[c] > 1 && FatOf(g, u.sectors) == h[c := 0]
    requires u.free == Recount(t.free, Add32(t.free, 1)) && u.dirty == (t.dirty || t.free != UNKNOWN)
    requires FatOnly(g, t.sectors, u.sectors)
    requires Shows(g, t.sectors, m, t.steps, u.steps, [FatOf(g, u.sectors)])
    ensures Released(g, m, s, clst, u, FatOf(g, t.sectors)[c], trace + [FatOf(g, u.sectors)])
  {
    hide Entry, FatOf, FatOnly, Shows;
    var h, k := FatOf(g, t.sectors), FatOf(g, u.sectors);
    Chains.RemoveRound(h, c);
    UnknownStays(s.free, |trace|);
    FatOnlyTransitive(g, s.sectors, t.sectors, u.sectors);
    ShowsMore(g, s.sectors, t.sectors, m, s.steps, t.steps, u.steps, trace, k);
    var rest := Chains.RemovalTrace(k, h[c]);
    assert trace + ([k] + rest) == trace + [k] + rest;
  }

  lemma ReleaseEnds(g: Layout, m: set<nat>, s: Stage, clst: nat, t: Stage, c: nat, trace: seq<seq<nat>>)
    requires clst >= 2 && c >= 2 && Sized(g, s, t) && Released(g, m, s, clst, t, c, trace)
    requires c >= g.nFatent || FatOf(g, t.sectors)[c] < 2
    ensures var f := FatOf(g, s.sectors);
            && Chains.Remove(f, clst) == Chains.Removal(c >= g.nFatent
                 || FatOf(g, t.sectors)[c] == 0, FatOf(g, t.sectors), |trace|)
            && Chains.RemovalTrace(f, clst) == trace
    ensures t.free == Increased(s.free, |trace|) && FatOnly(g, s.sectors, t.sectors)
    ensures t.dirty == (s.dirty || (trace != [] && s.free != UNKNOWN))
    ensures Shows(g, s.sectors, m, s.steps, t.steps, trace)
  {
    hide Entry, FatOf, FatOnly, Shows;
    Chains.RemoveRound(FatOf(g, t.sectors), c);
    assert trace + [] == trace;
  }

  lemma {:induction false} UnknownStays(free: dword, k: nat)
    ensures free == UNKNOWN ==> Increased(free, k) == UNKNOWN
    decreases k
  {
    if k > 0 {
      UnknownStays(free, k - 1);
    }
  }

  // Release the clusters from clst on along the links.
  method RemoveChain(fs: Volume, clst: dword) returns (res: FResult)
    requires fs.Valid()
    modifies fs`winsect, fs`wflag, fs`view, fs`fat, fs`steps, fs`freeClust, fs`fsiFlag, fs.win, fs.disk
    ensures fs.Valid()
    ensures |fs.view| == |old(fs.view)| && FatOnly(fs.g, old(fs.view), fs.view)
    ensures if !fs.g.IsCluster(clst) then res == IntErr && Kept(fs) && fs.winsect == old(fs.winsect)
            else
              var r := Chains.Remove(old(fs.fat), clst);
              && res == (if r.ok then Ok else IntErr) && fs.fat == r.fat
              && fs.freeClust == Increased(old(fs.freeClust), r.freed)
              && fs.fsiFlag == (old(fs.fsiFlag) || (r.freed > 0 && old(fs.freeClust) != UNKNOWN))
              && fs.g.InFat(fs.winsect)
              && Shows(fs.g, old(fs.view), fs.meta, old(fs.steps), fs.steps, Chains.RemovalTrace(old(fs.fat), clst))
    ensures old(fs.disk.log) <= fs.disk.log && old(fs.steps) <= fs.steps
  {
    if clst < 2 || clst >= fs.g.nFatent {
      return IntErr;
    }
    hide Entry, FatOf, FatOnly, Shows, Released, Chains.Remove, Chains.RemovalTrace;
    var c := clst;
    ghost var s := Stage(fs.view, fs.steps, fs.freeClust, fs.fsiFlag);
    ghost var trace: seq<seq<nat>> := [];
    ReleaseStarts(fs.g, fs.meta, s, clst);
    res := Ok;
    while c < fs.g.nFatent
      invariant fs.Valid() && c >= 2 && |fs.view| == |s.sectors| && res == Ok
      invariant c == clst || fs.g.InFat(fs.winsect)
      invariant Released(fs.g, fs.meta, s, clst, Stage(fs.view, fs.steps, fs.freeClust, fs.fsiFlag), c, trace)
      invariant old(fs.disk.log) <= fs.disk.log && old(fs.steps) <= fs.steps
      decreases Chains.Remove(fs.fat, c).freed
    {
      ghost var t := Stage(fs.view, fs.steps, fs.freeClust, fs.fsiFlag);
      Chains.RemoveRound(fs.fat, c);
      var more, nxt;
      res, more, nxt := FreeNext(fs, c);
      if !more { break; }
      ReleaseContinues(fs.g, fs.meta, s, clst, t, c, trace, Stage(fs.view, fs.steps, fs.freeClust, fs.fsiFlag));
      trace := trace + [fs.fat];
      c := nxt;
    }
    ReleaseEnds(fs.g, fs.meta, s, clst, Stage(fs.view, fs.steps, fs.freeClust, fs.fsiFlag), c, trace);
  }
}
