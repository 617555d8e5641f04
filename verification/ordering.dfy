/**
 Ordered write-back: what the directory entries and links of every disk image lead to. The
 directory sectors of an image are found by following the FAT of that image from the start
 clusters of the directories.
*/
module Ordering {
  import opened Bytes
  import opened Geometry
  import opened FatMap
  import opened WriteBehind
  import opened Volumes
  import opened Entries
  import opened Allocator
  import opened Directory
  import Chains

  // No link leads to a free cluster.
  ghost predicate LinksLive(f: seq<nat>) {
    forall c :: 2 <= c < |f| && 2 <= f[c] < |f| ==> f[f[c]] != 0
  }

  // No entry of a directory sector leads to a free cluster.
  ghost predicate SectorLive(f: seq<nat>, x: Sector) {
    forall o :: 0 <= o < 16 ==> SlotLive(f, SlotAt(x, o))
  }

  predicate SlotLive(f: seq<nat>, e: Slot) {
    Live(e) && 2 <= StartCluster(e) < |f| ==> f[StartCluster(e)] != 0
  }

  // ----- the directory sectors of an image

  // p follows links of the FAT f from cluster to cluster.
  ghost predicate Path(f: seq<nat>, p: seq<nat>) {
    && p != []
    && (forall i :: 0 <= i < |p| ==> Chains.IsCluster(f, p[i]))
    && (forall i :: 0 <= i < |p| - 1 ==> f[p[i]] == p[i + 1])
  }

  // Sector s lies in the static root directory.
  predicate InRoot(g: Layout, s: int) {
    g.fsType != Fat32 && g.dirbase <= s < g.dirbase + g.nRootdir / 16
  }

  // Sector s belongs to cluster c.
  predicate OfCluster(g: Layout, c: nat, s: int)
    requires g.nFatent >= 2
  {
    c < 0x1_0000_0000 && g.InCluster(c, s)
  }

  // Sector s belongs to the static root directory, or to a directory that starts in a cluster of dirs.
  ghost predicate IsDirSector(g: Layout, f: seq<nat>, dirs: set<nat>, s: nat)
    requires g.nFatent >= 2
  {
    InRoot(g, s) || exists p :: Path(f, p) && p[0] in dirs && OfCluster(g, p[|p| - 1], s)
  }

  // No entry in a directory of the image, and no link, leads to a free cluster.
  ghost predicate ImageSafe(g: Layout, img: seq<Sector>, dirs: set<nat>)
    requires g.Checked(|img|)
  {
    var f := FatOf(g, img);
    && LinksLive(f)
    && forall s: nat :: s < |img| && IsDirSector(g, f, dirs, s) ==> SectorLive(f, img[s])
  }

  // ----- metadata that is closed under links

  // All sectors of cluster c are in m.
  ghost predicate ClusterIn(g: Layout, c: nat, m: set<nat>)
    requires g.nFatent >= 2
  {
    forall s: nat :: OfCluster(g, c, s) ==> s in m
  }

  // With a cluster, m contains the cluster it is linked to.
  ghost predicate Closed(g: Layout, f: seq<nat>, m: set<nat>)
    requires g.nFatent >= 2
  {
    forall c {:trigger f[c]} :: 2 <= c < |f| && ClusterIn(g, c, m) && 2 <= f[c] < |f| ==> ClusterIn(g, f[c], m)
  }

  // The metadata: FAT copy 1 and directory sectors, in which nothing leads to a free cluster.
  ghost predicate NoDangling(g: Layout, st: Snapshot) {
    && g.Checked(|st.sectors|)
    && (forall s: nat :: g.InFat(s) ==> s in st.meta)
    && (forall s :: s in st.meta ==> s < |st.sectors|)
    && LinksLive(FatOf(g, st.sectors))
    && (forall s :: s in st.meta && !g.InFats(s) ==> SectorLive(FatOf(g, st.sectors), st.sectors[s]))
    && Closed(g, FatOf(g, st.sectors), st.meta)
  }

  ghost predicate Safe(g: Layout, steps: seq<Snapshot>) {
    forall j :: 0 <= j < |steps| ==> NoDangling(g, steps[j])
  }

  // A disk image that agrees with a safe step on its metadata is safe itself.
  lemma AgreeingIsSafe(g: Layout, img: seq<Sector>, st: Snapshot)
    requires NoDangling(g, st) && Agrees(img, st)
    ensures NoDangling(g, Snapshot(img, st.meta))
  {
    g.FatsInside(|img|);
    FatFrame(g, st.sectors, img);
  }

  // The static root directory and the start clusters dirs are part of the metadata m.
  ghost predicate Named(g: Layout, m: set<nat>, dirs: set<nat>)
    requires g.nFatent >= 2
  {
    (forall s: nat :: InRoot(g, s) ==> s in m) && forall d :: d in dirs ==> ClusterIn(g, d, m)
  }

  lemma NamedStays(g: Layout, m: set<nat>, n: set<nat>, dirs: set<nat>)
    requires g.nFatent >= 2 && Named(g, m, dirs) && m <= n
    ensures Named(g, n, dirs)
  {
    forall d | d in dirs
      ensures ClusterIn(g, d, n)
    {
      assert ClusterIn(g, d, m);
    }
  }

  lemma {:induction false} PathIn(g: Layout, f: seq<nat>, m: set<nat>, p: seq<nat>)
    requires g.nFatent >= 2 && Closed(g, f, m) && Path(f, p) && ClusterIn(g, p[0], m)
    ensures ClusterIn(g, p[|p| - 1], m)
    decreases |p|
  {
    if |p| > 1 {
      assert f[p[0]] == p[1] && Chains.IsCluster(f, p[1]);
      PathIn(g, f, m, p[1..]);
    }
  }

  // Every directory of the image lies inside the metadata.
  lemma DirSectorsIn(g: Layout, f: seq<nat>, m: set<nat>, dirs: set<nat>, s: nat)
    requires g.nFatent >= 2 && Closed(g, f, m) && Named(g, m, dirs) && IsDirSector(g, f, dirs, s)
    ensures s in m
  {
    if !InRoot(g, s) {
      var p: seq<nat> :| Path(f, p) && p[0] in dirs && OfCluster(g, p[|p| - 1], s);
      PathIn(g, f, m, p);
    }
  }

  // Directories lie outside the FAT copies.
  lemma DirSectorPlaced(g: Layout, f: seq<nat>, dirs: set<nat>, s: nat, limit: nat)
    requires g.Checked(limit) && IsDirSector(g, f, dirs, s)
    ensures g.fatbase + g.FatSectors() <= s < limit
  {
    g.FatsInside(limit);
    if !InRoot(g, s) {
      var p: seq<nat> :| Path(f, p) && p[0] in dirs && OfCluster(g, p[|p| - 1], s);
      var c: dword := p[|p| - 1];
      g.ClusterBlock(c, limit);
    }
  }

  lemma SafeStepIsSafe(g: Layout, st: Snapshot, dirs: set<nat>)
    requires NoDangling(g, st) && Named(g, st.meta, dirs)
    ensures ImageSafe(g, st.sectors, dirs)
  {
    var f := FatOf(g, st.sectors);
    forall s: nat | s < |st.sectors| && IsDirSector(g, f, dirs, s)
      ensures SectorLive(f, st.sectors[s])
    {
      DirSectorsIn(g, f, st.meta, dirs, s);
      DirSectorPlaced(g, f, dirs, s, |st.sectors|);
    }
  }

  // A 12-bit entry may be torn between two sectors, so nothing is said about FAT12.
  ghost predicate InOrder(g: Layout, steps: seq<Snapshot>) {
    g.fsType != Fat12 ==> Safe(g, steps)
  }

  // Every image the disk ever had since the volume was mounted is safe, if the steps are.
  lemma ImagesAreSafe(fs: Volume, dirs: set<nat>, k: nat)
    requires fs.Valid() && InOrder(fs.g, fs.steps) && fs.g.fsType != Fat12 && Named(fs.g, fs.first, dirs)
    requires k < |fs.disk.log|
    ensures fs.g.Checked(|fs.disk.log[k]|) && ImageSafe(fs.g, fs.disk.log[k], dirs)
  {
    ChronicleAt(fs.steps, fs.disk.log, k);
    var img := fs.disk.log[k];
    var j :| 0 <= j < |fs.steps| && Agrees(img, fs.steps[j]);
    AgreeingIsSafe(fs.g, img, fs.steps[j]);
    NamedStays(fs.g, fs.first, fs.steps[j].meta, dirs);
    SafeStepIsSafe(fs.g, Snapshot(img, fs.steps[j].meta), dirs);
  }

  // The images logged from the i-th one on are safe.
  ghost predicate ImagesSafe(g: Layout, log: seq<seq<Sector>>, i: nat, dirs: set<nat>) {
    g.fsType != Fat12 ==> forall k :: i <= k < |log| ==> g.Checked(|log[k]|) && ImageSafe(g, log[k], dirs)
  }

  // If the steps are in order then the images logged since any earlier state are safe.
  lemma LoggedAreSafe(fs: Volume, i: nat, dirs: set<nat>)
    requires fs.Valid() && InOrder(fs.g, fs.steps) && fs.g.nFatent >= 2 && Named(fs.g, fs.first, dirs)
    ensures ImagesSafe(fs.g, fs.disk.log, i, dirs)
  {
    hide ImageSafe, InOrder, Named;
    if fs.g.fsType != Fat12 {
      forall k | i <= k < |fs.disk.log|
        ensures fs.g.Checked(|fs.disk.log[k]|) && ImageSafe(fs.g, fs.disk.log[k], dirs)
      {
        ImagesAreSafe(fs, dirs, k);
      }
    }
  }

  // ----- mounting

  // FAT copy 1 and the directories.
  ghost function DirMeta(g: Layout, v: seq<Sector>, dirs: set<nat>): set<nat>
    requires g.Checked(|v|)
  {
    set s: nat | s < |v| && (g.InFat(s) || IsDirSector(g, FatOf(g, v), dirs, s))
  }

  lemma DirsIn(g: Layout, v: seq<Sector>, dirs: set<nat>, p: seq<nat>)
    requires g.Checked(|v|) && Path(FatOf(g, v), p) && p[0] in dirs
    ensures ClusterIn(g, p[|p| - 1], DirMeta(g, v, dirs))
  {
    hide FatOf, Layout.Checked;
    var c := p[|p| - 1];
    forall s: nat | OfCluster(g, c, s)
      ensures s in DirMeta(g, v, dirs)
    {
      g.ClusterBlock(c, |v|);
    }
  }

  // The cluster of a directory sector in the data area ends a path.
  lemma PathTo(g: Layout, f: seq<nat>, dirs: set<nat>, c: dword, limit: nat) returns (p: seq<nat>)
    requires g.Checked(limit) && g.IsCluster(c) && IsDirSector(g, f, dirs, g.Clust2Sect(c))
    ensures Path(f, p) && p[0] in dirs && p[|p| - 1] == c
  {
    var s := g.Clust2Sect(c);
    g.ClusterBlock(c, limit);
    g.FatsInside(limit);
    assert g.InCluster(c, s) && !InRoot(g, s);
    p :| Path(f, p) && p[0] in dirs && OfCluster(g, p[|p| - 1], s);
    g.ClustersDisjoint(p[|p| - 1], c, s, s, limit);
  }

  lemma DirMetaClosed(g: Layout, v: seq<Sector>, dirs: set<nat>, c: nat)
    requires g.Checked(|v|) && Chains.IsCluster(FatOf(g, v), c) && ClusterIn(g, c, DirMeta(g, v, dirs))
    requires Chains.IsCluster(FatOf(g, v), FatOf(g, v)[c])
    ensures ClusterIn(g, FatOf(g, v)[c], DirMeta(g, v, dirs))
  {
    var f := FatOf(g, v);
    ClustersSmall(g, |v|);
    g.ClusterBlock(c, |v|);
    g.FatsInside(|v|);
    assert OfCluster(g, c, g.Clust2Sect(c));
    var p := PathTo(g, f, dirs, c, |v|);
    DirsIn(g, v, dirs, p + [f[c]]);
  }

  lemma ClustersSmall(g: Layout, limit: nat)
    requires g.Checked(limit)
    ensures g.nFatent <= 0x1_0000_0000
  {
    TimesAtLeast(g.nFatent - 2, g.csize);
    g.FatsInside(limit);
  }

  // Mounting a safe image, with its directories as metadata: the first step is safe.
  lemma MountIsInOrder(g: Layout, v: seq<Sector>, dirs: set<nat>)
    requires g.Sound(|v|) && ImageSafe(g, v, dirs) && forall d :: d in dirs ==> g.IsCluster(d)
    ensures InOrder(g, [Snapshot(v, DirMeta(g, v, dirs))]) && Named(g, DirMeta(g, v, dirs), dirs)
    ensures forall s :: s in DirMeta(g, v, dirs) ==> s < |v| && g.Cacheable(s)
    ensures forall s: nat :: g.InFat(s) ==> s in DirMeta(g, v, dirs)
  {
    var f, m := FatOf(g, v), DirMeta(g, v, dirs);
    g.FatsInside(|v|);
    forall s | s in m && !g.InFat(s)
      ensures g.fatbase + g.FatSectors() <= s < |v|
    {
      DirSectorPlaced(g, f, dirs, s, |v|);
    }
    forall d | d in dirs
      ensures ClusterIn(g, d, m)
    {
      assert Path(f, [d]);
      DirsIn(g, v, dirs, [d]);
    }
    forall c | 2 <= c < |f| && ClusterIn(g, c, m) && 2 <= f[c] < |f|
      ensures ClusterIn(g, f[c], m)
    {
      DirMetaClosed(g, v, dirs, c);
    }
    RootIn(g, v, dirs);
  }

  lemma RootIn(g: Layout, v: seq<Sector>, dirs: set<nat>)
    requires g.Checked(|v|)
    ensures forall s: nat :: InRoot(g, s) ==> s in DirMeta(g, v, dirs)
  {
    g.FatsInside(|v|);
  }

  // ----- allocation

  // Every cluster in use stays in use.
  ghost predicate StaysUsed(f: seq<nat>, h: seq<nat>) {
    |f| == |h| && forall c :: 0 <= c < |f| && f[c] != 0 ==> h[c] != 0
  }

  // A step that freed nothing, left no dangling link, and changed or added directory sectors without dangling entries
  // only.
  lemma GrowthStepIsSafe(g: Layout, st: Snapshot, v: seq<Sector>, nst: Snapshot, h: seq<nat>)
    requires NoDangling(g, st) && Agrees(v, st) && |nst.sectors| == |v| && FatOf(g, nst.sectors) == h
    requires LinksLive(h) && StaysUsed(FatOf(g, v), h) && Closed(g, h, nst.meta)
    requires st.meta <= nst.meta && forall s :: s in nst.meta ==> s < |v|
    requires forall s :: s in nst.meta && !g.InFats(s) ==>
        (s in st.meta && nst.sectors[s] == v[s]) || SectorLive(h, nst.sectors[s])
    ensures NoDangling(g, nst)
  {
    hide Closed, LinksLive;
    g.FatsInside(|v|);
    FatFrame(g, st.sectors, v);
    forall s | s in nst.meta && !g.InFats(s)
      ensures SectorLive(h, nst.sectors[s])
    {
      if s in st.meta && nst.sectors[s] == v[s] {
        forall o | 0 <= o < 16
          ensures SlotLive(h, SlotAt(nst.sectors[s], o))
        {
          assert SlotLive(FatOf(g, v), SlotAt(st.sectors[s], o));
        }
      }
    }
  }

  // ... in particular one that changed the FAT copies only.
  lemma FatStepIsSafe(g: Layout, st: Snapshot, v: seq<Sector>, nst: Snapshot, h: seq<nat>)
    requires NoDangling(g, st) && Agrees(v, st) && g.fatbase + g.FatSectors() <= |v| && ShowsFat(g, v, st.meta, nst, h)
    requires LinksLive(h) && StaysUsed(FatOf(g, v), h) && Closed(g, h, st.meta)
    ensures NoDangling(g, nst)
  {
    hide Closed, LinksLive, FatOf, SectorLive, StaysUsed;
    GrowthStepIsSafe(g, st, v, nst, h);
  }

  lemma OwnStep(g: Layout, st: Snapshot)
    requires NoDangling(g, st)
    ensures g.Checked(|st.sectors|) && Agrees(st.sectors, st)
  {
  }

  lemma LastFacts(g: Layout, v: seq<Sector>, st: Snapshot)
    requires NoDangling(g, st) && Agrees(v, st)
    ensures g.Checked(|v|) && g.nFatent >= 2 && LinksLive(FatOf(g, v)) && Closed(g, FatOf(g, v), st.meta)
    ensures forall s :: s in st.meta ==> s < |v|
  {
    g.FatsInside(|v|);
    FatFrame(g, st.sectors, v);
  }

  lemma GrowthLinksLive(f: seq<nat>, eoc: nat, c: nat, clst: nat)
    requires LinksLive(f) && 2 <= c < |f| <= eoc && f[c] == 0 && clst < |f| && (clst != 0 ==> f[clst] != 0)
    ensures var h := f[c := eoc];
            && LinksLive(h) && StaysUsed(f, h) && (clst != 0 ==> LinksLive(h[clst := c]) && StaysUsed(f, h[clst := c]))
  {
  }

  // Linking behind a cluster that holds no metadata, or a cluster that does, keeps the metadata closed.
  lemma GrowthClosed(g: Layout, f: seq<nat>, m: set<nat>, eoc: nat, c: nat, clst: nat)
    requires g.nFatent >= 2 && Closed(g, f, m) && 2 <= c < |f| <= eoc && clst < |f|
    ensures Closed(g, f[c := eoc], m)
    ensures clst != 0 && (!ClusterIn(g, clst, m) || ClusterIn(g, c, m)) ==> Closed(g, f[c := eoc][clst := c], m)
  {
    hide ClusterIn;
  }

  // The steps of an allocation for a file are safe.
  lemma GrowthIsSafe(g: Layout, v: seq<Sector>, m: set<nat>, before: seq<Snapshot>, after: seq<Snapshot>, eoc: nat,
                     c: nat, clst: nat)
    requires g.Checked(|v|) && g.fatbase + g.FatSectors() <= |v|
    requires InOrder(g, before) && |before| > 0 && Agrees(v, before[|before| - 1]) && before[|before| - 1].meta == m
    requires 2 <= c < g.nFatent <= eoc && clst < g.nFatent && FatOf(g, v)[c] == 0
    requires (clst != 0 ==> FatOf(g, v)[clst] != 0)
    requires clst != 0 ==> !ClusterIn(g, clst, m)
    requires Shows(g, v, m, before, after, Chains.GrowthTrace(FatOf(g, v), eoc, c, clst))
    ensures InOrder(g, after)
  {
    hide FatOf, Layout.Checked, NoDangling, LinksLive, StaysUsed, Closed, ClusterIn, FatOnly, SectorLive;
    if g.fsType != Fat12 {
      var f, st := FatOf(g, v), before[|before| - 1];
      LastFacts(g, v, st);
      GrowthLinksLive(f, eoc, c, clst);
      GrowthClosed(g, f, m, eoc, c, clst);
      var trace := Chains.GrowthTrace(f, eoc, c, clst);
      forall j | 0 <= j < |after|
        ensures NoDangling(g, after[j])
      {
        if j < |before| {
          assert after[j] == before[j];
        } else {
          assert ShowsFat(g, v, m, after[|before| + (j - |before|)], trace[j - |before|]);
          FatStepIsSafe(g, st, v, after[j], trace[j - |before|]);
        }
      }
    }
  }

  // ----- release

  // The only link into the chain cs comes from the chain itself.
  ghost predicate OnlyChainLinks(f: seq<nat>, cs: seq<nat>) {
    forall c, j :: 2 <= c < |f| && 0 <= j < |cs| && f[c] == cs[j] ==> j > 0 && c == cs[j - 1]
  }

  // The FATs a removal of chain cs passes through have no dangling link, and touch no other cluster.
  lemma {:induction false} RemovalLinksLive(f: seq<nat>, cs: seq<nat>, k: nat)
    requires Chains.IsChain(f, cs) && LinksLive(f) && OnlyChainLinks(f, cs) && k < |cs|
    ensures |Chains.RemovalTrace(f, cs[0])| == |cs|
    ensures var h := Chains.RemovalTrace(f, cs[0])[k];
            && |h| == |f| && LinksLive(h)
            && (forall c :: 0 <= c < |f| && c !in cs ==> h[c] == f[c])
            && (forall c :: 0 <= c < |f| ==> h[c] == f[c] || h[c] == 0)
    decreases |cs|
  {
    Chains.ChainEntries(f, cs, 0);
    Chains.RemoveRound(f, cs[0]);
    Chains.RemoveFreesChain(f, cs);
    var h := f[cs[0] := 0];
    if |cs| > 1 {
      HeadFreed(f, cs);
      if k > 0 {
        RemovalLinksLive(h, cs[1..], k - 1);
      }
    }
  }

  // Freeing the head of a chain leaves its tail as a chain that nothing else links into.
  lemma HeadFreed(f: seq<nat>, cs: seq<nat>)
    requires Chains.IsChain(f, cs) && LinksLive(f) && OnlyChainLinks(f, cs) && |cs| > 1
    ensures cs[0] < |f| && f[cs[0]] == cs[1]
    ensures var h := f[cs[0] := 0]; Chains.IsChain(h, cs[1..]) && LinksLive(h) && OnlyChainLinks(h, cs[1..])
  {
    Chains.ChainEntries(f, cs, 0);
    Chains.TailIsChain(f, cs);
    forall i | 0 < i < |cs|
      ensures cs[i] != cs[0]
    {
      Chains.ChainDistinct(f, cs, 0, i);
    }
    var h := f[cs[0] := 0];
    Chains.ChainFrame(f, h, cs[1..]);
    forall c, j | 2 <= c < |h| && 0 <= j < |cs[1..]| && h[c] == cs[1..][j]
      ensures j > 0 && c == cs[1..][j - 1]
    {
      assert f[c] == cs[j + 1];
    }
  }

  // No entry of a directory sector names a cluster of cs.
  ghost predicate SectorAvoids(x: Sector, cs: seq<nat>) {
    forall o :: 0 <= o < 16 && Live(SlotAt(x, o)) ==> StartCluster(SlotAt(x, o)) !in cs
  }

  ghost predicate EntriesAvoid(g: Layout, st: Snapshot, cs: seq<nat>)
    requires forall s :: s in st.meta ==> s < |st.sectors|
  {
    forall s :: s in st.meta && !g.InFats(s) ==> SectorAvoids(st.sectors[s], cs)
  }

  lemma ReleaseStepIsSafe(g: Layout, st: Snapshot, v: seq<Sector>, nst: Snapshot, h: seq<nat>, cs: seq<nat>)
    requires NoDangling(g, st) && Agrees(v, st) && EntriesAvoid(g, st, cs)
    requires g.fatbase + g.FatSectors() <= |v| && ShowsFat(g, v, st.meta, nst, h)
    requires LinksLive(h) && |h| == g.nFatent && forall c :: 0 <= c < |h| && c !in cs ==> h[c] == FatOf(g, v)[c]
    requires forall c :: 0 <= c < |h| ==> h[c] == FatOf(g, v)[c] || h[c] == 0
    ensures NoDangling(g, nst)
  {
    hide ClusterIn;
    g.FatsInside(|v|);
    FatFrame(g, st.sectors, v);
    forall s | s in nst.meta && !g.InFats(s)
      ensures SectorLive(h, nst.sectors[s])
    {
      assert nst.sectors[s] == st.sectors[s];
      forall o | 0 <= o < 16
        ensures SlotLive(h, SlotAt(nst.sectors[s], o))
      {
        assert SlotLive(FatOf(g, v), SlotAt(st.sectors[s], o));
      }
    }
  }

  lemma ChainHasHead(f: seq<nat>, cs: seq<nat>)
    requires Chains.IsChain(f, cs)
    ensures |cs| > 0 && Chains.IsCluster(f, cs[0])
  {
  }

  // The steps of a release are safe once no entry names a cluster of the chain any more.
  lemma ReleaseIsSafe(g: Layout, v: seq<Sector>, m: set<nat>, before: seq<Snapshot>, after: seq<Snapshot>, cs: seq<nat>)
    requires g.Checked(|v|) && g.fatbase + g.FatSectors() <= |v|
    requires InOrder(g, before) && |before| > 0 && Agrees(v, before[|before| - 1]) && before[|before| - 1].meta == m
    requires Chains.IsChain(FatOf(g, v), cs) && OnlyChainLinks(FatOf(g, v), cs)
    requires (forall s :: s in m ==> s < |v|) && EntriesAvoid(g, Snapshot(v, m), cs)
    requires Shows(g, v, m, before, after, Chains.RemovalTrace(FatOf(g, v), cs[0]))
    ensures InOrder(g, after)
  {
    hide FatOf, Layout.Checked, Chains.RemovalTrace, SectorAvoids, LinksLive, NoDangling, OnlyChainLinks;
    hide Chains.IsChain;
    if g.fsType != Fat12 {
      var f, st := FatOf(g, v), before[|before| - 1];
      LastFacts(g, v, st);
      ChainHasHead(f, cs);
      var trace := Chains.RemovalTrace(f, cs[0]);
      RemovalLinksLive(f, cs, 0);
      forall j | 0 <= j < |after|
        ensures NoDangling(g, after[j])
      {
        if j < |before| {
          assert after[j] == before[j];
        } else {
          var k := j - |before|;
          assert ShowsFat(g, v, m, after[|before| + k], trace[k]);
          RemovalLinksLive(f, cs, k);
          ReleaseStepIsSafe(g, st, v, after[j], trace[k], cs);
        }
      }
    }
  }

  // ----- directory sectors

  // A step that changed only directory sectors, to contents without dangling entries.
  lemma DirStepIsSafe(g: Layout, st: Snapshot, v: seq<Sector>, nst: Snapshot)
    requires NoDangling(g, st) && Agrees(v, st) && |nst.sectors| == |v| && nst.meta == st.meta
    requires forall s :: g.InFats(s) && s < |v| ==> nst.sectors[s] == v[s]
    requires forall s :: s in nst.meta && !g.InFats(s) ==>
               (s in st.meta && nst.sectors[s] == v[s]) || SectorLive(FatOf(g, v), nst.sectors[s])
    ensures NoDangling(g, nst)
  {
    hide Closed, LinksLive, SectorLive, PowerOfTwo;
    g.FatsInside(|v|);
    FatFrame(g, st.sectors, v);
    FatFrame(g, v, nst.sectors);
  }

  // Changing one slot of a directory sector is safe if the new entry leads to no free cluster.
  lemma SlotChangeIsSafe(g: Layout, v: seq<Sector>, m: set<nat>, before: seq<Snapshot>, s: nat, o: nat, e: Slot)
    requires g.Checked(|v|) && g.fatbase + g.FatSectors() <= |v|
    requires InOrder(g, before) && |before| > 0 && Agrees(v, before[|before| - 1]) && before[|before| - 1].meta == m
    requires s in m && s < |v| && !g.InFats(s) && o < 16 && SlotLive(FatOf(g, v), e)
    ensures InOrder(g, before + [Snapshot(v[s := WithSlot(v[s], o, e)], m)])
  {
    if g.fsType != Fat12 {
      var st, f, x := before[|before| - 1], FatOf(g, v), WithSlot(v[s], o, e);
      assert NoDangling(g, st);
      g.FatsInside(|v|);
      FatFrame(g, st.sectors, v);
      assert SectorLive(f, x) by {
        hide FatOf, Layout.Checked;
        assert SectorLive(f, st.sectors[s]);
        forall p | 0 <= p < 16
          ensures SlotLive(f, SlotAt(x, p))
        {
          WithSlotAt(v[s], o, e, p);
        }
      }
      DirStepIsSafe(g, st, v, Snapshot(v[s := x], m));
    }
  }

  // ----- extending a table

  // No entry in the sectors of cluster c from s0 on leads to a free cluster.
  ghost predicate RestLive(g: Layout, f: seq<nat>, v: seq<Sector>, c: dword, s0: nat)
    requires g.nFatent >= 2
  {
    forall s: nat :: g.InCluster(c, s) && s0 <= s < |v| ==> SectorLive(f, v[s])
  }

  // Nor does one in any sector of it.
  ghost predicate ClusterLive(g: Layout, f: seq<nat>, v: seq<Sector>, c: dword)
    requires g.nFatent >= 2
  {
    RestLive(g, f, v, c, 0)
  }

  // Whether an entry leads to a free cluster depends only on which clusters are free.
  lemma SameFreeLive(f: seq<nat>, h: seq<nat>, x: Sector)
    requires |f| == |h| && forall c :: 0 <= c < |f| ==> (f[c] == 0 <==> h[c] == 0)
    ensures SectorLive(f, x) <==> SectorLive(h, x)
  {
    hide SlotAt, Live, StartCluster;
    forall o | 0 <= o < 16
      ensures SlotLive(f, SlotAt(x, o)) <==> SlotLive(h, SlotAt(x, o))
    {
    }
  }

  lemma ZeroIsLive(f: seq<nat>)
    ensures SectorLive(f, ZeroSector())
  {
  }

  // The sectors of cluster c, and where they lie.
  lemma ClusterSectorsAre(g: Layout, c: dword, m: set<nat>, limit: nat)
    requires g.Checked(limit) && g.IsCluster(c)
    ensures forall s: nat :: s in ClusterSectors(g, c) <==> g.InCluster(c, s)
    ensures forall s: nat :: g.InCluster(c, s) ==> g.fatbase + g.FatSectors() <= s < limit
    ensures ClusterIn(g, c, m + ClusterSectors(g, c))
  {
    g.ClusterBlock(c, limit);
    g.FatsInside(limit);
  }

  // More sectors in the metadata: closed as long as they make up one unlinked cluster.
  lemma AdoptionClosed(g: Layout, f: seq<nat>, m: set<nat>, c: dword, limit: nat)
    requires g.Checked(limit) && |f| == g.nFatent && Closed(g, f, m) && g.IsCluster(c) && !Chains.IsCluster(f, f[c])
    ensures Closed(g, f, m + ClusterSectors(g, c))
  {
    hide Layout.Checked, Layout.Clust2Sect;
    var n := m + ClusterSectors(g, c);
    ClusterSectorsAre(g, c, m, limit);
    forall d | 2 <= d < |f| && ClusterIn(g, d, n) && 2 <= f[d] < |f|
      ensures ClusterIn(g, f[d], n)
    {
      if d != c {
        StillIn(g, m, c, d, limit);
        assert ClusterIn(g, f[d], m);
      }
    }
  }

  lemma StillIn(g: Layout, m: set<nat>, c: dword, d: nat, limit: nat)
    requires g.Checked(limit) && g.IsCluster(c) && g.IsCluster(d) && d != c && ClusterIn(g, d, m + ClusterSectors(g, c))
    ensures ClusterIn(g, d, m)
  {
    ClustersSmall(g, limit);
    forall s: nat | OfCluster(g, d, s)
      ensures s in m
    {
      if g.InCluster(c, s) {
        g.ClustersDisjoint(c, d, s, s, limit);
      }
    }
  }

  // A step of a table extension in which cluster c is metadata: safe if all that is left of its old contents is.
  lemma TableStepIsSafe(g: Layout, st: Snapshot, v: seq<Sector>, c: dword, nst: Snapshot, h: seq<nat>, k: nat)
    requires NoDangling(g, st) && Agrees(v, st) && g.fatbase + g.FatSectors() <= |v| == |nst.sectors| && g.IsCluster(c)
    requires nst.meta == st.meta + ClusterSectors(g, c) && FatOf(g, nst.sectors) == h
    requires LinksLive(h) && StaysUsed(FatOf(g, v), h) && Closed(g, h, nst.meta)
    requires forall s :: 0 <= s < |v| && !g.InFats(s) ==>
               nst.sectors[s] == if g.InCluster(c, s) && s < g.Clust2Sect(c) + k then ZeroSector() else v[s]
    requires RestLive(g, h, v, c, g.Clust2Sect(c) + k)
    requires forall s :: s in st.meta ==> !g.InCluster(c, s)
    ensures NoDangling(g, nst)
  {
    hide FatOf, Layout.Checked, LinksLive, Closed, StaysUsed, SectorLive, Layout.Clust2Sect;
    LastFacts(g, v, st);
    ClusterSectorsAre(g, c, st.meta, |v|);
    ZeroIsLive(h);
    GrowthStepIsSafe(g, st, v, nst, h);
  }

  // What linking the free cluster c behind clst makes of the FAT.
  lemma LinkedFacts(g: Layout, f: seq<nat>, m: set<nat>, eoc: nat, c: dword, clst: nat, limit: nat)
    requires g.Checked(limit) && |f| == g.nFatent <= eoc && LinksLive(f) && Closed(g, f, m)
    requires g.IsCluster(c) && f[c] == 0 && 0 < clst < |f| && f[clst] != 0
    ensures var h, i, n := f[c := eoc], f[c := eoc][clst := c], m + ClusterSectors(g, c);
            && LinksLive(h) && LinksLive(i) && StaysUsed(f, h) && StaysUsed(f, i)
            && Closed(g, h, m) && Closed(g, h, n) && Closed(g, i, n)
            && forall d :: 0 <= d < |f| ==> (h[d] == 0 <==> i[d] == 0)
  {
    hide Closed, ClusterIn, Layout.Checked;
    GrowthLinksLive(f, eoc, c, clst);
    GrowthClosed(g, f, m, eoc, c, clst);
    AdoptionClosed(g, f[c := eoc], m, c, limit);
    ClusterSectorsAre(g, c, m, limit);
    MarkedStays(f, eoc, c, clst);
    GrowthClosed(g, f[c := eoc], m + ClusterSectors(g, c), eoc, c, clst);
  }

  lemma MarkedStays(f: seq<nat>, eoc: nat, c: nat, clst: nat)
    requires c < |f| && clst < |f|
    ensures f[c := eoc][c := eoc] == f[c := eoc]
  {
  }

  lemma SameFreeRest(g: Layout, f: seq<nat>, h: seq<nat>, v: seq<Sector>, c: dword, s0: nat)
    requires g.nFatent >= 2 && |f| == |h| && forall d :: 0 <= d < |f| ==> (f[d] == 0 <==> h[d] == 0)
    ensures RestLive(g, f, v, c, s0) <==> RestLive(g, h, v, c, s0)
  {
    hide SectorLive;
    forall s: nat | s < |v|
      ensures SectorLive(f, v[s]) <==> SectorLive(h, v[s])
    {
      SameFreeLive(f, h, v[s]);
    }
  }

  // The step of a table extension at which the cluster becomes metadata.
  lemma AdoptedIsLive(g: Layout, v: seq<Sector>, m: set<nat>, nst: Snapshot, h: seq<nat>, c: dword)
    requires g.Checked(|v|) && g.fatbase + g.FatSectors() <= |v| && g.IsCluster(c)
    requires ShowsFat(g, v, m + ClusterSectors(g, c), nst, h) && NoDangling(g, nst)
    ensures ClusterLive(g, h, v, c)
  {
    hide FatOf, LinksLive, Closed, SectorLive, Layout.Clust2Sect, Layout.Checked;
    ClusterSectorsAre(g, c, m, |v|);
  }

  // A table extension is safe exactly if no entry among the old contents of the cluster that is appended leads to a
  // cluster that is free then. This is so because the cluster is linked before it is filled with zeros.
  lemma StretchIsSafe(g: Layout, v: seq<Sector>, m: set<nat>, before: seq<Snapshot>, after: seq<Snapshot>, eoc: nat,
                      c: dword, clst: nat)
    requires g.Checked(|v|) && g.fatbase + g.FatSectors() <= |v| && g.IsCluster(c)
    requires |before| > 0 && Agrees(v, before[|before| - 1]) && before[|before| - 1].meta == m
    requires g.nFatent <= eoc && 0 < clst < g.nFatent && FatOf(g, v)[c] == 0 && FatOf(g, v)[clst] != 0
    requires StretchSteps(g, v, m, before, after, FatOf(g, v), eoc, c, clst)
    requires forall s :: s in m ==> !g.InCluster(c, s)
    ensures g.fsType != Fat12 ==>
              (InOrder(g, after) <==> InOrder(g, before) && ClusterLive(g, FatOf(g, v)[c := eoc], v, c))
  {
    hide FatOf, Layout.Checked, Layout.Clust2Sect, NoDangling, ShowsFat, Agrees, ClusterLive, FatOnly, Filling;
    if g.fsType != Fat12 {
      var f: seq<nat> := FatOf(g, v);
      var mid, u :|
        && ShowsTable(g, v, m, before, mid, f, eoc, c, clst)
        && |u| == |v| && FatOnly(g, v, u) && FatOf(g, u) == f[c := eoc][clst := c as nat]
        && Filling(u, g.Clust2Sect(c), g.csize, m + ClusterSectors(g, c), mid, after);
      FillingIsLonger(u, g.Clust2Sect(c), g.csize, m + ClusterSectors(g, c), mid, after);
      if InOrder(g, after) {
        PrefixIsSafe(g, before, after);
        assert mid[|before| + 1] == after[|before| + 1];
        AdoptedIsLive(g, v, m, after[|before| + 1], f[c := eoc], c);
      }
      if InOrder(g, before) && ClusterLive(g, f[c := eoc], v, c) {
        forall j | 0 <= j < |after|
          ensures NoDangling(g, after[j])
        {
          StretchStepIsSafe(g, v, m, before, mid, after, u, eoc, c, clst, j);
        }
      }
    }
  }

  lemma PrefixIsSafe(g: Layout, before: seq<Snapshot>, after: seq<Snapshot>)
    requires before <= after && InOrder(g, after)
    ensures InOrder(g, before)
  {
    hide NoDangling;
  }

  lemma FillingIsLonger(v: seq<Sector>, s0: nat, n: nat, m: set<nat>, before: seq<Snapshot>, after: seq<Snapshot>)
    requires Filling(v, s0, n, m, before, after)
    ensures before <= after
    ensures forall k :: |before| <= k < |after| ==> after[k].meta == m && PartlyCleared(v, after[k].sectors, s0, n)
  {
  }

  lemma StretchStepIsSafe(g: Layout, v: seq<Sector>, m: set<nat>, before: seq<Snapshot>, mid: seq<Snapshot>,
                          after: seq<Snapshot>, u: seq<Sector>, eoc: nat, c: dword, clst: nat, j: nat)
    requires g.Checked(|v|) && g.fatbase + g.FatSectors() <= |v| && g.IsCluster(c) && g.fsType != Fat12
    requires mid <= after && j < |after|
    requires InOrder(g, before) && |before| > 0 && Agrees(v, before[|before| - 1]) && before[|before| - 1].meta == m
    requires g.nFatent <= eoc && 0 < clst < g.nFatent && FatOf(g, v)[c] == 0 && FatOf(g, v)[clst] != 0
    requires ShowsTable(g, v, m, before, mid, FatOf(g, v), eoc, c, clst)
    requires |u| == |v| && FatOnly(g, v, u) && FatOf(g, u) == FatOf(g, v)[c := eoc][clst := c]
    requires forall k :: |mid| <= k < |after| ==>
               after[k].meta == m + ClusterSectors(g, c) && PartlyCleared(u, after[k].sectors, g.Clust2Sect(c), g.csize)
    requires forall s :: s in m ==> !g.InCluster(c, s)
    requires ClusterLive(g, FatOf(g, v)[c := eoc], v, c)
    ensures NoDangling(g, after[j])
  {
    hide FatOf, Layout.Checked, Layout.Clust2Sect, NoDangling, Agrees, FatOnly, LinksLive, Closed, StaysUsed;
    hide PartlyCleared, ClusterLive;
    hide ShowsFat;
    var f, st, n := FatOf(g, v), before[|before| - 1], |before|;
    assert NoDangling(g, st);
    LastFacts(g, v, st);
    LinkedFacts(g, f, m, eoc, c, clst, |v|);
    var h: seq<nat>, i: seq<nat> := f[c := eoc], f[c := eoc][clst := c];
    if j < n {
      assert after[j] == before[j];
    } else if j == n {
      assert after[j] == mid[j];
      FatStepIsSafe(g, st, v, after[j], h);
    } else if j == n + 1 {
      assert after[j] == mid[j];
      LinkStepIsSafe(g, st, v, c, after[j], h);
    } else if j == n + 2 {
      assert after[j] == mid[j];
      SameFreeRest(g, h, i, v, c, 0);
      StillLive(g, h, i, v, c);
      LinkStepIsSafe(g, st, v, c, after[j], i);
    } else {
      StillLive(g, h, i, v, c);
      FillStepIsSafe(g, st, v, u, c, after[j], i);
    }
  }

  lemma StillLive(g: Layout, h: seq<nat>, i: seq<nat>, v: seq<Sector>, c: dword)
    requires g.nFatent >= 2 && ClusterLive(g, h, v, c) && |h| == |i| && forall d ::
        0 <= d < |h| ==> (h[d] == 0 <==> i[d] == 0)
    ensures ClusterLive(g, i, v, c)
  {
    SameFreeRest(g, h, i, v, c, 0);
  }

  // A step at which the old contents of the cluster are still there.
  lemma LinkStepIsSafe(g: Layout, st: Snapshot, v: seq<Sector>, c: dword, nst: Snapshot, h: seq<nat>)
    requires NoDangling(g, st) && Agrees(v, st) && g.Checked(|v|) && g.fatbase + g.FatSectors() <= |v| && g.IsCluster(c)
    requires ShowsFat(g, v, st.meta + ClusterSectors(g, c), nst, h)
    requires LinksLive(h) && StaysUsed(FatOf(g, v), h) && Closed(g, h, st.meta + ClusterSectors(g, c))
    requires ClusterLive(g, h, v, c)
    requires forall s :: s in st.meta ==> !g.InCluster(c, s)
    ensures NoDangling(g, nst)
  {
    hide FatOf, Layout.Checked, LinksLive, Closed, StaysUsed, SectorLive, Layout.Clust2Sect, NoDangling;
    TableStepIsSafe(g, st, v, c, nst, h, 0);
  }

  // A step of the zero-fill, after the sectors were u.
  lemma FillStepIsSafe(g: Layout, st: Snapshot, v: seq<Sector>, u: seq<Sector>, c: dword, nst: Snapshot, h: seq<nat>)
    requires NoDangling(g, st) && Agrees(v, st) && g.Checked(|v|) && |u| == |v| && g.fatbase + g.FatSectors() <= |v|
    requires FatOnly(g, v, u)
    requires FatOf(g, u) == h && LinksLive(h) && StaysUsed(FatOf(g, v), h) && g.IsCluster(c) && Closed(g, h, nst.meta)
    requires nst.meta == st.meta + ClusterSectors(g, c) && PartlyCleared(u, nst.sectors, g.Clust2Sect(c), g.csize)
    requires forall s :: s in st.meta ==> !g.InCluster(c, s)
    requires ClusterLive(g, h, v, c)
    ensures NoDangling(g, nst)
  {
    hide FatOf, Layout.Checked, LinksLive, Closed, StaysUsed, SectorLive, Layout.Clust2Sect, NoDangling;
    var k: nat :| k <= g.csize && ClearedUpTo(u, nst.sectors, g.Clust2Sect(c), k);
    ClusterSectorsAre(g, c, st.meta, |v|);
    FilledFatIs(g, u, nst.sectors, c, k);
    RunInCluster(g, c, k);
    TableStepIsSafe(g, st, v, c, nst, h, k);
  }

  lemma RunInCluster(g: Layout, c: dword, k: nat)
    requires g.nFatent >= 2 && g.IsCluster(c) && k <= g.csize
    ensures forall s: nat :: g.Clust2Sect(c) <= s < g.Clust2Sect(c) + k <==>
        g.InCluster(c, s) && s < g.Clust2Sect(c) + k
  {
  }

  lemma FilledFatIs(g: Layout, u: seq<Sector>, w: seq<Sector>, c: dword, k: nat)
    requires g.Checked(|u|) && g.IsCluster(c) && k <= g.csize && ClearedUpTo(u, w, g.Clust2Sect(c), k)
    ensures FatOf(g, w) == FatOf(g, u)
  {
    g.ClusterBlock(c, |u|);
    g.FatsInside(|u|);
    FatFrame(g, u, w);
  }

  // ----- the images between the link and the zero-fill

  // The image in which the first k sectors of the cluster c, linked behind a cluster of a directory, are zeros is
  // safe exactly if no entry in the rest of its old contents leads to a free cluster.
  lemma LinkedImageIsSafe(g: Layout, v: seq<Sector>, m: set<nat>, dirs: set<nat>, eoc: nat, c: dword, clst: nat,
                          p: seq<nat>, k: nat, img: seq<Sector>)
    requires NoDangling(g, Snapshot(v, m)) && Named(g, m, dirs) && g.fatbase + g.FatSectors() <= |v| == |img|
    requires g.IsCluster(c) && g.nFatent <= eoc && 0 < clst < g.nFatent && FatOf(g, v)[c] == 0 && FatOf(g, v)[clst] != 0
    requires (forall s :: s in m ==> !g.InCluster(c, s)) && k <= g.csize
    requires Path(FatOf(g, v)[c := eoc][clst := c], p) && p[0] in dirs && p[|p| - 1] == clst
    requires FatOf(g, img) == FatOf(g, v)[c := eoc][clst := c]
    requires forall s :: 0 <= s < |v| && !g.InFats(s) ==>
               img[s] == if g.InCluster(c, s) && s < g.Clust2Sect(c) + k then ZeroSector() else v[s]
    ensures g.Checked(|img|) && (ImageSafe(g, img, dirs) <==> RestLive(g, FatOf(g, img), v, c, g.Clust2Sect(c) + k))
  {
    hide FatOf, Layout.Checked, LinksLive, Closed, StaysUsed, SectorLive, Layout.Clust2Sect, NoDangling, Named;
    hide IsDirSector;
    var st := Snapshot(v, m);
    OwnStep(g, st);
    LastFacts(g, v, st);
    var f, h := FatOf(g, v), FatOf(g, img);
    LinkedFacts(g, f, m, eoc, c, clst, |v|);
    ClusterSectorsAre(g, c, m, |v|);
    if RestLive(g, h, v, c, g.Clust2Sect(c) + k) {
      var nst := Snapshot(img, m + ClusterSectors(g, c));
      TableStepIsSafe(g, st, v, c, nst, h, k);
      NamedStays(g, m, nst.meta, dirs);
      SafeStepIsSafe(g, nst, dirs);
    }
    if ImageSafe(g, img, dirs) {
      LinkedIsDir(g, h, dirs, c, clst, p);
    }
  }

  // A cluster linked behind one of a directory belongs to the directory.
  lemma LinkedIsDir(g: Layout, f: seq<nat>, dirs: set<nat>, c: dword, clst: nat, p: seq<nat>)
    requires g.nFatent >= 2 && |f| == g.nFatent && Path(f, p) && p[0] in dirs && p[|p| - 1] == clst && f[clst] == c
    requires g.IsCluster(c)
    ensures forall s: nat :: g.InCluster(c, s) ==> IsDirSector(g, f, dirs, s)
  {
    var q := p + [c as nat];
    assert Path(f, q) && q[0] in dirs && q[|q| - 1] == c;
    forall s: nat | g.InCluster(c, s)
      ensures IsDirSector(g, f, dirs, s)
    {
      assert OfCluster(g, q[|q| - 1], s);
    }
  }
}
