/**
 Extending a directory: exactly when the images that reach the disk on the way are safe.
*/
module Extending {
  import opened Bytes
  import opened Geometry
  import opened DiskIO
  import opened FatMap
  import opened WriteBehind
  import opened Volumes
  import opened Allocator
  import opened Directory
  import opened FileGrowth
  import opened Ordering
  import Chains

  // A path that ends where the chain does is one in the FAT with a cluster linked behind it, too.
  lemma PathStays(f: seq<nat>, p: seq<nat>, eoc: nat, c: nat)
    requires Path(f, p) && f[p[|p| - 1]] >= |f| && 2 <= c < |f| && f[c] == 0
    ensures Path(f[c := eoc][p[|p| - 1] := c], p)
  {
    var clst := p[|p| - 1];
    var h := f[c := eoc][clst := c];
    forall i | 0 <= i < |p| - 1
      ensures h[p[i]] == p[i + 1]
    {
      assert f[p[i]] == p[i + 1] && Chains.IsCluster(f, p[i + 1]);
    }
  }

  // The last step before the extension, seen on the sectors v.
  lemma StartIsSafe(g: Layout, v: seq<Sector>, m: set<nat>, first: set<nat>, steps: seq<Snapshot>, dirs: set<nat>)
    requires g.fsType != Fat12 && InOrder(g, steps) && |steps| > 0 && g.nFatent >= 2 && Named(g, first, dirs)
    requires Agrees(v, steps[|steps| - 1]) && steps[|steps| - 1].meta == m && MetaGrows(steps, first, m)
    ensures NoDangling(g, Snapshot(v, m)) && Named(g, m, dirs)
  {
    hide NoDangling, Agrees, Named;
    AgreeingIsSafe(g, v, steps[|steps| - 1]);
    NamedStays(g, first, m, dirs);
  }

  // The image with the new cluster linked and not yet cleared shows whether its old contents are live.
  lemma LinkTells(g: Layout, v: seq<Sector>, m: set<nat>, dirs: set<nat>, eoc: nat, c: dword, p: seq<nat>,
                  log: seq<seq<Sector>>, i: nat)
    requires NoDangling(g, Snapshot(v, m)) && Named(g, m, dirs) && g.fatbase + g.FatSectors() <= |v|
    requires g.Checked(|v|) && g.fsType != Fat12
    requires g.IsCluster(c) && g.nFatent <= eoc && FatOf(g, v)[c] == 0 && forall s :: s in m ==> !g.InCluster(c, s)
    requires Path(FatOf(g, v), p) && p[0] in dirs && FatOf(g, v)[p[|p| - 1]] >= g.nFatent
    requires LinkLogged(g, v, log, i, FatOf(g, v)[c := eoc][p[|p| - 1] := c]) && ImagesSafe(g, log, i, dirs)
    ensures ClusterLive(g, FatOf(g, v)[c := eoc], v, c)
  {
    hide FatOf, Layout.Checked, ImageSafe, NoDangling, Named, Path, Layout.Clust2Sect;
    PathStays(FatOf(g, v), p, eoc, c);
    PathEnd(FatOf(g, v), p);
    var clst, h := p[|p| - 1], FatOf(g, v)[c := eoc][p[|p| - 1] := c];
    var k :| i <= k < |log| && |log[k]| == |v| && FatOnly(g, v, log[k]) && FatOf(g, log[k]) == h;
    LinkedImageIsSafe(g, v, m, dirs, eoc, c, clst, p, 0, log[k]);
    AllOfCluster(g, h, v, c);
    SameFreeRest(g, FatOf(g, v)[c := eoc], h, v, c, 0);
  }

  lemma PathEnd(f: seq<nat>, p: seq<nat>)
    requires Path(f, p)
    ensures |p| > 0 && 2 <= p[|p| - 1] < |f|
  {
  }

  lemma AllOfCluster(g: Layout, h: seq<nat>, v: seq<Sector>, c: dword)
    requires g.nFatent >= 2
    ensures RestLive(g, h, v, c, g.Clust2Sect(c)) <==> ClusterLive(g, h, v, c)
  {
  }

  // Append a zeroed cluster to a directory. The images that reach the disk meanwhile are safe exactly if no entry among
  // the old contents of the cluster leads to a cluster that is free then.
  method ExtendDirectory(fs: Volume, clst: dword, ghost dirs: set<nat>, ghost p: seq<nat>)
    returns (res: FResult, c: dword)
    requires fs.Valid() && fs.g.IsCluster(clst) && fs.fat[clst] >= fs.g.nFatent
    requires fs.g.fsType != Fat12 && InOrder(fs.g, fs.steps) && Named(fs.g, fs.first, dirs)
    requires FreeIsUnused(fs.g, fs.fat, fs.meta)
    requires Path(fs.fat, p) && p[0] in dirs && p[|p| - 1] == clst
    modifies fs, fs.win, fs.disk
    ensures fs.Valid() && old(fs.disk.log) <= fs.disk.log
    ensures var r := Chains.Create(old(fs.fat), Eoc(fs.g), old(fs.lastClust), clst);
            if r.grew then
              && res == Ok && c == r.code && fs.fat == r.fat && fs.g.IsCluster(c)
              && (ImagesSafe(fs.g, fs.disk.log, |old(fs.disk.log)|, dirs) <==>
                    ClusterLive(fs.g, old(fs.fat)[c := Eoc(fs.g)], old(fs.view), c))
            else res == (if r.code == 0 then Denied else IntErr) && fs.view == old(fs.view)
  {
    hide FatOf, FatMap.Entry, Volume.Valid, InOrder, Named, FreeIsUnused, Path, StretchSteps, LinkLogged, ImagesSafe;
    hide Layout.Checked, Chains.Create, ClusterLive, NoDangling;
    ghost var v, f, m, steps, first, n := fs.view, fs.fat, fs.meta, fs.steps, fs.first, |fs.disk.log|;
    ghost var eoc := Eoc(fs.g);
    BeforeExtension(fs, clst, dirs);
    ghost var r := Chains.Create(f, eoc, fs.lastClust, clst);
    res, c := StretchTable(fs, clst);
    if r.grew {
      GrownCluster(fs.g, f, eoc, old(fs.lastClust), clst, m);
      StretchIsSafe(fs.g, v, m, steps, fs.steps, eoc, c, clst);
      if ClusterLive(fs.g, f[c := eoc], v, c) {
        LoggedAreSafe(fs, n, dirs);
      }
      if ImagesSafe(fs.g, fs.disk.log, n, dirs) {
        LinkTells(fs.g, v, m, dirs, eoc, c, p, fs.disk.log, n);
      }
    }
  }

  lemma BeforeExtension(fs: Volume, clst: dword, dirs: set<nat>)
    requires fs.Valid() && fs.g.IsCluster(clst) && fs.fat[clst] >= fs.g.nFatent
    requires fs.g.fsType != Fat12 && InOrder(fs.g, fs.steps) && Named(fs.g, fs.first, dirs)
    ensures fs.g.Checked(|fs.view|) && fs.g.fatbase + fs.g.FatSectors() <= |fs.view| && fs.fat == FatOf(fs.g, fs.view)
    ensures 3 <= |fs.fat| == fs.g.nFatent <= Eoc(fs.g)
    ensures |fs.steps| > 0 && Agrees(fs.view, fs.steps[|fs.steps| - 1]) && fs.steps[|fs.steps| - 1].meta == fs.meta
    ensures NoDangling(fs.g, Snapshot(fs.view, fs.meta)) && Named(fs.g, fs.meta, dirs)
  {
    hide FatOf, FatMap.Entry, InOrder, Named, NoDangling, Chronicle, Agrees, MetaGrows, Mirrored, Store;
    EocEnds(fs.g, |fs.view|);
    StartIsSafe(fs.g, fs.view, fs.meta, fs.first, fs.steps, dirs);
  }

  // The cluster an allocation behind clst takes.
  lemma GrownCluster(g: Layout, f: seq<nat>, eoc: nat, last: nat, clst: dword, m: set<nat>)
    requires |f| == g.nFatent >= 3 && g.IsCluster(clst) && f[clst] >= g.nFatent && FreeIsUnused(g, f, m)
    requires Chains.Create(f, eoc, last, clst).grew
    ensures var r := Chains.Create(f, eoc, last, clst);
            && g.IsCluster(r.code) && f[r.code] == 0 && r.fat == f[r.code := eoc][clst := r.code]
            && (r.code < 0x1_0000_0000 ==> forall s :: s in m ==> !g.InCluster(r.code, s))
  {
  }
}
