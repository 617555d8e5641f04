/**
 Directory objects: a cursor over a directory table, and the extension of a table by a
 zero-filled cluster.
*/
module Directory {
  import opened Bytes
  import opened Geometry
  import opened DiskIO
  import opened FatMap
  import opened FatBytes
  import opened WriteBehind
  import opened Volumes
  import opened Allocator
  import opened Cursor
  import Chains

  // w is v with the sectors of cluster c zeroed.
  ghost predicate Cleared(g: Layout, v: seq<Sector>, w: seq<Sector>, c: dword)
    requires g.nFatent >= 2
  {
    |v| == |w| && forall s :: 0 <= s < |v| ==> w[s] == if g.InCluster(c, s) then ZeroSector() else v[s]
  }

  // v and w agree but for the first k sectors of a run that starts at sector s0, which w has zeroed.
  ghost predicate ClearedUpTo(v: seq<Sector>, w: seq<Sector>, s0: nat, k: nat) {
    |v| == |w| && forall s :: 0 <= s < |v| ==> w[s] == if s0 <= s < s0 + k then ZeroSector() else v[s]
  }

  // The steps behind `before` each zeroed some of n sectors from s0 on.
  ghost predicate Filling(v: seq<Sector>, s0: nat, n: nat, m: set<nat>, before: seq<Snapshot>, after: seq<Snapshot>) {
    && before <= after
    && forall k :: |before| <= k < |after| ==> after[k].meta == m && PartlyCleared(v, after[k].sectors, s0, n)
  }

  ghost predicate PartlyCleared(v: seq<Sector>, w: seq<Sector>, s0: nat, n: nat) {
    exists k: nat :: k <= n && ClearedUpTo(v, w, s0, k)
  }

  lemma FillingGoesOn(v: seq<Sector>, s0: nat, n: nat, m: set<nat>, before: seq<Snapshot>, after: seq<Snapshot>,
                      w: seq<Sector>, k: nat)
    requires Filling(v, s0, n, m, before, after) && k <= n && ClearedUpTo(v, w, s0, k)
    ensures Filling(v, s0, n, m, before, after + [Snapshot(w, m)])
  {
    assert PartlyCleared(v, w, s0, n);
  }

  // Write the window contents to the sector the window was placed on.
  method WriteOut(fs: Volume) returns (res: FResult)
    requires fs.Base() && fs.view == fs.disk.sectors && fs.g.fatbase + fs.g.FatSectors() <= fs.winsect < |fs.view|
    modifies fs`wflag, fs`view, fs`fat, fs`steps, fs.disk, fs`winsect, fs.win
    ensures fs.Base() && res == Ok && !fs.wflag && fs.winsect == old(fs.winsect) && fs.win[..] == old(fs.win[..])
    ensures fs.view == fs.disk.sectors == old(fs.view)[fs.winsect := fs.win[..]]
    ensures fs.steps == old(fs.steps) + [Snapshot(fs.view, fs.meta)]
    ensures old(fs.disk.log) <= fs.disk.log && old(fs.steps) <= fs.steps
  {
    fs.MarkDirty();
    assert fs.view[fs.winsect] == fs.win[..];
    res := fs.MoveWindow(0);
  }

  // Flush the window and clear its buffer.
  method BlankWindow(fs: Volume) returns (res: FResult)
    requires fs.Valid()
    modifies fs`winsect, fs`wflag, fs.win, fs.disk
    ensures fs.Base() && res == Ok && !fs.wflag && fs.view == fs.disk.sectors && fs.win[..] == ZeroSector()
    ensures old(fs.disk.log) <= fs.disk.log && (old(fs.wflag) ==> Logged(fs.disk.log, |old(fs.disk.log)|, fs.view))
  {
    res := fs.MoveWindow(0);
    if res != Ok { return DiskErr; }
    if |old(fs.disk.log)| < |fs.disk.log| { LastIsLogged(fs.disk.log, |old(fs.disk.log)|); }
    forall i | 0 <= i < 512 { fs.win[i] := 0; }
    assert fs.win[..] == ZeroSector();
  }

  // Fill the sectors of cluster clst with zeros through the window.
  method ClearCluster(fs: Volume, clst: dword) returns (res: FResult)
    requires fs.Valid() && fs.g.IsCluster(clst)
    modifies fs`winsect, fs`wflag, fs`view, fs`fat, fs`steps, fs.win, fs.disk
    ensures fs.Valid() && res == Ok
    ensures Cleared(fs.g, old(fs.view), fs.view, clst)
    ensures fs.winsect == fs.g.Clust2Sect(clst) && !fs.wflag
    ensures Filling(old(fs.view), fs.g.Clust2Sect(clst), fs.g.csize, fs.meta, old(fs.steps), fs.steps)
    ensures old(fs.wflag) ==> Logged(fs.disk.log, |old(fs.disk.log)|, old(fs.view))
    ensures old(fs.disk.log) <= fs.disk.log && old(fs.steps) <= fs.steps
  {
    hide *;
    ClusterFacts(fs, clst);
    ghost var v := fs.view;
    var s0 := fs.g.Clust2Sect(clst);
    NothingFilled(v, s0, fs.g.csize, fs.meta, fs.steps);
    res := BlankWindow(fs);
    if res != Ok { return DiskErr; }
    ghost var flushed := fs.disk.log;
    fs.winsect := s0;
    var c := 0;
    while c < fs.g.csize
      invariant c <= fs.g.csize && fs.Base() && !fs.wflag && fs.view == fs.disk.sectors && res == Ok
      invariant fs.winsect == s0 + c && fs.win[..] == ZeroSector()
      invariant ClearedUpTo(v, fs.view, s0, c)
      invariant Filling(v, s0, fs.g.csize, fs.meta, old(fs.steps), fs.steps)
      invariant flushed <= fs.disk.log && old(fs.disk.log) <= fs.disk.log && old(fs.steps) <= fs.steps
    {
      ghost var w, st := fs.view, fs.steps;
      ClearedSize(v, w, s0, c);
      res := WriteOut(fs);
      if res != Ok { return DiskErr; }
      ClearedNext(v, w, s0, c);
      FillingGoesOn(v, s0, fs.g.csize, fs.meta, old(fs.steps), st, fs.view, c + 1);
      fs.winsect := fs.winsect + 1;
      c := c + 1;
    }
    fs.winsect := fs.winsect - c;
    if old(fs.wflag) { StaysLogged(flushed, |old(fs.disk.log)|, v, fs.disk.log); }
    FilledIsValid(fs, v, fs.g.csize);
    RunIsCluster(fs.g, v, fs.view, clst);
  }

  lemma ClusterFacts(fs: Volume, clst: dword)
    requires fs.Valid() && fs.g.IsCluster(clst)
    ensures fs.g.nFatent >= 2 && fs.g.csize >= 1
    ensures fs.g.fatbase + fs.g.FatSectors() <= fs.g.Clust2Sect(clst) && fs.g.Clust2Sect(clst) + fs.g.csize <= |fs.view|
  {
    hide Chronicle, Agrees, MetaGrows, FatOf, Store, Mirrored, Layout.Clust2Sect;
    Bounds(fs.g, |fs.view|);
    fs.g.ClusterBlock(clst, |fs.view|);
    fs.g.FatsInside(|fs.view|);
  }

  lemma ClearedSize(v: seq<Sector>, w: seq<Sector>, s0: nat, k: nat)
    requires ClearedUpTo(v, w, s0, k)
    ensures |w| == |v|
  {
  }

  lemma ClearedNext(v: seq<Sector>, w: seq<Sector>, s0: nat, k: nat)
    requires ClearedUpTo(v, w, s0, k) && s0 + k < |v|
    ensures ClearedUpTo(v, w[s0 + k := ZeroSector()], s0, k + 1)
  {
  }

  lemma FilledIsValid(fs: Volume, v: seq<Sector>, n: nat)
    requires fs.Base() && !fs.wflag && fs.view == fs.disk.sectors && fs.win[..] == ZeroSector()
    requires ClearedUpTo(v, fs.view, fs.winsect, n) && n > 0 && fs.winsect < |v|
    ensures fs.Valid()
  {
    hide Chronicle, Agrees, MetaGrows, FatOf, Store, Mirrored, Layout.Sound;
  }

  lemma RunIsCluster(g: Layout, v: seq<Sector>, w: seq<Sector>, c: dword)
    requires g.nFatent >= 2 && g.IsCluster(c) && ClearedUpTo(v, w, g.Clust2Sect(c), g.csize)
    ensures Cleared(g, v, w, c)
  {
  }

  lemma NothingFilled(v: seq<Sector>, s0: nat, n: nat, m: set<nat>, steps: seq<Snapshot>)
    ensures Filling(v, s0, n, m, steps, steps) && ClearedUpTo(v, v, s0, 0)
  {
  }

  // w is v with cluster c zeroed and otherwise changed in the FAT copies only.
  ghost predicate Stretched(g: Layout, v: seq<Sector>, w: seq<Sector>, c: dword)
    requires g.nFatent >= 2
  {
    |v| == |w| && forall s :: 0 <= s < |v| && !g.InFats(s) ==> w[s] == if g.InCluster(c, s) then ZeroSector() else v[s]
  }

  // The steps of a table extension: cluster c is marked, becomes metadata and is linked behind clst; then it is
  // filled with zeros.
  ghost predicate StretchSteps(g: Layout, v: seq<Sector>, m: set<nat>, before: seq<Snapshot>, after: seq<Snapshot>,
                               f: seq<nat>, eoc: nat, c: dword, clst: nat)
    requires g.Checked(|v|) && g.fatbase + g.FatSectors() <= |v| && g.IsCluster(c) && |f| == g.nFatent && clst < |f|
  {
    exists mid, u ::
      && ShowsTable(g, v, m, before, mid, f, eoc, c, clst)
      && |u| == |v| && FatOnly(g, v, u) && FatOf(g, u) == f[c := eoc][clst := c]
      && Filling(u, g.Clust2Sect(c), g.csize, m + ClusterSectors(g, c), mid, after)
  }

  // One of the images logged from the i-th one on shows FAT h, and outside the FAT copies the sectors v.
  ghost predicate LinkLogged(g: Layout, v: seq<Sector>, log: seq<seq<Sector>>, i: nat, h: seq<nat>)
    requires g.Checked(|v|) && g.fatbase + g.FatSectors() <= |v|
  {
    exists k :: i <= k < |log| && |log[k]| == |v| && FatOnly(g, v, log[k]) && FatOf(g, log[k]) == h
  }

  lemma LinkIsLogged(g: Layout, v: seq<Sector>, log: seq<seq<Sector>>, i: nat, j: nat, u: seq<Sector>)
    requires g.Checked(|v|) && g.fatbase + g.FatSectors() <= |v| == |u| && FatOnly(g, v, u) && Logged(log, j, u)
    requires i <= j
    ensures LinkLogged(g, v, log, i, FatOf(g, u))
  {
  }

  // Append a zeroed cluster to the chain that ends in clst.
  method StretchTable(fs: Volume, clst: dword) returns (res: FResult, c: dword)
    requires fs.Valid() && fs.g.IsCluster(clst) && fs.fat[clst] >= fs.g.nFatent
    modifies fs`winsect, fs`wflag, fs`view, fs`fat, fs`steps, fs`meta, fs`lastClust, fs`freeClust, fs`fsiFlag, fs.win
    modifies fs.disk
    ensures fs.Valid() && |fs.view| == |old(fs.view)|
    ensures var r := Chains.Create(old(fs.fat), Eoc(fs.g), old(fs.lastClust), clst);
            if r.grew then
              && res == Ok && c == r.code && fs.fat == r.fat && fs.lastClust == r.last
              && Stretched(fs.g, old(fs.view), fs.view, c)
              && fs.meta == old(fs.meta) + ClusterSectors(fs.g, c)
              && StretchSteps(fs.g, old(fs.view), old(fs.meta), old(fs.steps), fs.steps, old(fs.fat), Eoc(fs.g), c,
                   clst)
              && LinkLogged(fs.g, old(fs.view), fs.disk.log, |old(fs.disk.log)|, r.fat)
            else
              && res == (if r.code == 0 then Denied else IntErr) && Kept(fs) && fs.meta == old(fs.meta)
    ensures old(fs.disk.log) <= fs.disk.log && old(fs.steps) <= fs.steps
    ensures old(fs.meta) <= fs.meta
    ensures fs.winsect == old(fs.winsect) || fs.g.InFat(fs.winsect) || fs.winsect in fs.meta
  {
    hide FatMap.Entry, FatOf, Filling, ShowsTable, Chains.Scan, Chronicle, Agrees, MetaGrows, Store, Mirrored;
    c := CreateChain(fs, clst, true);
    if c == 0 { return Denied, c; }
    if c == 1 { return IntErr, c; }
    if c == DISK_ERROR { return DiskErr, c; }
    ghost var u, mid, before := fs.view, fs.steps, fs.disk.log;
    res := ClearCluster(fs, c);
    if res != Ok { return; }
    LinkIsLogged(fs.g, old(fs.view), fs.disk.log, |old(fs.disk.log)|, |before|, u);
    fs.g.ClusterBlock(c, |u|);
    fs.g.FatsInside(|u|);
    FatFrame(fs.g, u, fs.view);
  }

  /** A cursor over the entries of a directory table. */
  class Dir {
    const fs: Volume
    var sclust: dword  // start cluster of the table, 0 for the root directory
    var index: word
    var clust: dword
    var sect: nat
    var off: nat       // offset of the entry in the window

    constructor (v: Volume, table: dword)
      ensures fs == v && sclust == table
    {
      fs, sclust, index, clust, sect, off := v, table, 0, 0, 0, 0;
    }

    ghost function Sought(i: word): Place
      requires fs.Valid()
      reads `sclust, fs`view, fs`fat, fs`winsect, fs`wflag, fs`meta, fs`steps, fs.win, fs.disk
    {
      Bounds(fs.g, |fs.view|);
      Seek(fs.g, fs.fat, sclust, i)
    }

    function Here(): Position
      reads `index, `clust, `sect, `off
    {
      Position(index, clust, sect, off)
    }

    // The cursor stands on its entry.
    ghost predicate Placed()
      requires fs.Valid()
      reads this, fs`view, fs`fat, fs`winsect, fs`wflag, fs`meta, fs`steps, fs.win, fs.disk
    {
      Sought(index) == At(Here())
    }

    lemma PlaceFacts()
      requires fs.Valid()
      ensures 2 <= fs.g.nFatent <= 0x1000_0000 && fs.g.dirbase < 0x1_0000_0000 && |fs.fat| == fs.g.nFatent
      ensures fs.g.Sound(|fs.view|)
      ensures fs.g.csize >= 1 && (fs.g.fsType != Fat32 ==> fs.g.dirbase > 0)
      ensures fs.g.fsType == Fat32 ==> fs.g.IsCluster(fs.g.dirbase)
    {
      hide FatOf, FatMap.Entry, Chronicle, Agrees, MetaGrows, Mirrored, Store, Layout.Checked;
      Bounds(fs.g, |fs.view|);
    }

    // Place the cursor on entry idx.
    method Sdi(idx: word) returns (res: FResult)
      requires fs.Valid()
      modifies `index, `clust, `sect, `off, fs`winsect, fs`wflag, fs.win, fs.disk
      ensures fs.Valid()
      ensures match Sought(idx)
              case Nowhere(r) => res == r
              case At(p) => res == Ok && Here() == p
      ensures old(fs.disk.log) <= fs.disk.log
      ensures old(fs.meta) <= fs.meta
      ensures fs.winsect == old(fs.winsect) || fs.g.InFat(fs.winsect) || fs.winsect in fs.meta
    {
      hide FatOf, Entry, Volume.Valid, Layout.Checked, Layout.Sound;
      PlaceFacts();
      index := idx;
      var clst := sclust;
      if clst == 1 || clst >= fs.g.nFatent { return IntErr; }
      if clst == 0 && fs.g.fsType == Fat32 { clst := fs.g.dirbase; }
      if clst == 0 {
        clust := clst;
        if idx >= fs.g.nRootdir { return IntErr; }
        sect := fs.g.dirbase + idx / 16;
        off := idx % 16 * 32;
      } else {
        var r, i;
        res, r, i := Follow(clst, idx);
        if res != Ok { return; }
        clust := r;
        sect := fs.g.Clust2Sect(r) + i / 16;
        off := i % 16 * 32;
      }
      return Ok;
    }

    // Follow the chain from cluster c to the cluster that holds entry idx.
    method Follow(c: dword, idx: word) returns (res: FResult, clst: dword, i: nat)
      requires fs.Valid() && fs.g.IsCluster(c) && fs.g.nFatent <= 0x1_0000_0000
      modifies fs`winsect, fs`wflag, fs.win, fs.disk
      ensures fs.Valid()
      ensures match Walk(fs.g, fs.fat, c, idx)
              case Lost => res == IntErr
              case Cluster(d, rest) => res == Ok && clst == d && i == rest
      ensures old(fs.disk.log) <= fs.disk.log
      ensures old(fs.meta) <= fs.meta
      ensures fs.winsect == old(fs.winsect) || fs.g.InFat(fs.winsect) || fs.winsect in fs.meta
    {
      hide FatOf, Entry, FromBytes, Chronicle, Agrees, MetaGrows, Mirrored, Store, Layout.Checked;
      PlaceFacts();
      var ic := 16 * fs.g.csize;
      clst, i := c, idx;
      ghost var f := fs.fat;
      while i >= ic
        invariant fs.Valid() && fs.g.IsCluster(clst)
        invariant Walk(fs.g, f, c, idx) == Walk(fs.g, f, clst, i)
        invariant old(fs.disk.log) <= fs.disk.log
        invariant old(fs.meta) <= fs.meta
        invariant fs.winsect == old(fs.winsect) || fs.g.InFat(fs.winsect) || fs.winsect in fs.meta
        decreases i
      {
        EntryIsNoError(fs.g, fs.view, clst);
        clst := fs.GetFat(clst);
        if clst == DISK_ERROR { return DiskErr, clst, i; }
        if clst < 2 || clst >= fs.g.nFatent { return IntErr, clst, i; }
        i := i - ic;
      }
      return Ok, clst, i;
    }

    // The table's chain ends behind the entry and has to be extended.
    ghost predicate AtChainEnd()
      requires fs.Valid()
      reads this, fs`view, fs`fat, fs`winsect, fs`wflag, fs`meta, fs`steps, fs.win, fs.disk
    {
      Bounds(fs.g, |fs.view|);
      && index + 1 < 0x1_0000 && CrossesCluster(fs.g, Here())
      && fs.g.IsCluster(clust) && fs.fat[clust] >= fs.g.nFatent
    }

    // What lies behind the last entry of a cluster.
    lemma CrossFacts(p: Position)
      requires fs.Valid() && Sought(index) == At(p) && p.clust == clust
      requires index + 1 < 0x1_0000 && CrossesCluster(fs.g, Here())
      ensures 2 <= fs.g.nFatent <= 0x1_0000_0000 && fs.g.dirbase < 0x1_0000_0000 && p.sect != 0
      ensures CrossesCluster(fs.g, p) && clust != 0
      ensures fs.g.IsCluster(clust) ==> fs.fat[clust] < DISK_ERROR
      ensures Next(fs.g, fs.fat, p) ==
              if !fs.g.IsCluster(clust) || fs.fat[clust] <= 1 then Nowhere(IntErr)
              else if fs.fat[clust] >= fs.g.nFatent then Nowhere(NoFile)
              else At(Position(index + 1, fs.fat[clust], fs.g.Clust2Sect(fs.fat[clust]), 0))
      ensures Next(fs.g, fs.fat, p).At? ==> Sought(index + 1) == Next(fs.g, fs.fat, p)
    {
      hide FatOf, FatMap.Entry, Walk, Chronicle, Agrees, MetaGrows, Store, BitAnd, PowerOfTwo, Layout.Checked;
      Bounds(fs.g, |fs.view|);
      NextIsSeek(fs.g, fs.fat, sclust, index, |fs.view|);
      SectorNotZero(fs.g, fs.fat, sclust, index, |fs.view|);
      EntryIsNoError(fs.g, fs.view, if fs.g.IsCluster(clust) then clust else 2);
    }

    // Find the cluster behind the one the cursor leaves; append a zeroed one if the chain ends and
    // `stretch` asks for it.
    method CrossCluster(stretch: bool, ghost p: Position) returns (res: FResult, clst: dword)
      requires fs.Valid() && Sought(index) == At(p) && p.clust == clust
      requires index + 1 < 0x1_0000 && CrossesCluster(fs.g, Here())
      modifies fs`winsect, fs`wflag, fs`view, fs`fat, fs`steps, fs`meta, fs`lastClust, fs`freeClust, fs`fsiFlag
      modifies fs.win, fs.disk
      ensures fs.Valid() && |fs.view| == |old(fs.view)|
      ensures res == Ok ==> Sought(index + 1) == At(Position(index + 1, clst, fs.g.Clust2Sect(clst), 0))
      ensures !(stretch && old(AtChainEnd())) ==>
                && Kept(fs) && fs.meta == old(fs.meta)
                && match Next(fs.g, old(fs.fat), p)
                   case At(q) => res == Ok && q == Position(index + 1, clst, fs.g.Clust2Sect(clst), 0)
                   case Nowhere(r) => res == r
      ensures stretch && old(AtChainEnd()) ==>
                var r := Chains.Create(old(fs.fat), Eoc(fs.g), old(fs.lastClust), clust);
                if r.grew then
                  && res == Ok && clst == r.code && fs.fat == r.fat && fs.lastClust == r.last
                  && Stretched(fs.g, old(fs.view), fs.view, clst)
                  && fs.meta == old(fs.meta) + ClusterSectors(fs.g, clst)
                  && StretchSteps(fs.g, old(fs.view), old(fs.meta), old(fs.steps), fs.steps, old(fs.fat), Eoc(fs.g),
                       clst, clust)
                else
                  && res == (if r.code == 0 then Denied else IntErr) && Kept(fs) && fs.meta == old(fs.meta)
      ensures old(fs.disk.log) <= fs.disk.log && old(fs.steps) <= fs.steps
      ensures old(fs.meta) <= fs.meta
      ensures fs.winsect == old(fs.winsect) || fs.g.InFat(fs.winsect) || fs.winsect in fs.meta
    {
      hide FatOf, FatMap.Entry, StretchSteps, Walk, Chronicle, Agrees, MetaGrows, Store, Stretched, BitAnd;
      hide FromBytes, PowerOfTwo, Layout.Checked;
      hide CrossesCluster, Seek, Next;
      Bounds(fs.g, |fs.view|);
      ghost var f := fs.fat;
      CrossFacts(p);
      clst := fs.GetFat(clust);
      if clst <= 1 { return IntErr, clst; }
      if clst == DISK_ERROR { return DiskErr, clst; }
      res := Ok;
      if clst >= fs.g.nFatent {
        if !stretch { return NoFile, clst; }
        res, clst := StretchTable(fs, clust);
        if res != Ok { return; }
        SeekStretched(fs.g, f, fs.fat, sclust, index, clst, |fs.view|);
      }
    }

    // Move to the next entry; extend the table by a zeroed cluster if it ends here and `stretch` asks for it.
    method DirNext(stretch: bool) returns (res: FResult)
      requires fs.Valid() && Placed()
      modifies `index, `clust, `sect, `off
      modifies fs`winsect, fs`wflag, fs`view, fs`fat, fs`steps, fs`meta, fs`lastClust, fs`freeClust, fs`fsiFlag
      modifies fs.win, fs.disk
      ensures fs.Valid() && |fs.view| == |old(fs.view)|
      ensures res == Ok ==> Placed() && index == old(index) + 1
      ensures !(stretch && old(AtChainEnd())) ==>
                && Kept(fs) && fs.meta == old(fs.meta)
                && match Next(fs.g, old(fs.fat), old(Here()))
                   case At(p) => res == Ok && Here() == p
                   case Nowhere(r) => res == r
      ensures stretch && old(AtChainEnd()) ==>
                var r := Chains.Create(old(fs.fat), Eoc(fs.g), old(fs.lastClust), old(clust));
                if r.grew then
                  && res == Ok && clust == r.code && fs.fat == r.fat && fs.lastClust == r.last
                  && Stretched(fs.g, old(fs.view), fs.view, clust)
                  && fs.meta == old(fs.meta) + ClusterSectors(fs.g, clust)
                  && StretchSteps(fs.g, old(fs.view), old(fs.meta), old(fs.steps), fs.steps, old(fs.fat), Eoc(fs.g),
                       clust, old(clust))
                else
                  && res == (if r.code == 0 then Denied else IntErr) && Kept(fs) && fs.meta == old(fs.meta)
      ensures old(fs.disk.log) <= fs.disk.log && old(fs.steps) <= fs.steps
      ensures old(fs.meta) <= fs.meta
      ensures fs.winsect == old(fs.winsect) || fs.g.InFat(fs.winsect) || fs.winsect in fs.meta
    {
      hide FatOf, FatMap.Entry, StretchSteps, Walk, Seek, Stretched, Volume.Valid, BitAnd, PowerOfTwo, Layout.Checked;
      hide Chains.Create;
      hide Layout.Sound;
      PlaceFacts();
      SectorNotZero(fs.g, fs.fat, sclust, index, |fs.view|);
      var i := index + 1;
      if i == 0x1_0000 || sect == 0 { return NoFile; }
      ghost var p := Here();
      NextIsSeek(fs.g, fs.fat, sclust, index, |fs.view|);
      if i % 16 == 0 {
        sect := sect + 1;
        if clust == 0 {
          if i >= fs.g.nRootdir { return NoFile; }
        } else if BitAnd(i / 16, fs.g.csize - 1) == 0 {
          var clst;
          res, clst := CrossCluster(stretch, p);
          if res != Ok { return; }
          clust := clst;
          sect := fs.g.Clust2Sect(clst);
        }
      }
      index := i;
      off := i % 16 * 32;
      return Ok;
    }
  }
}
