/**
 f_lseek without a link map: wherever the search for the new position starts, the file
 object ends up as if the chain had been followed from its head.
*/
module Seeking {
  import opened Bytes
  import opened Geometry
  import opened DiskIO
  import opened FatMap
  import opened WriteBehind
  import opened Volumes
  import opened Allocator
  import opened FileMap
  import opened FileGrowth
  import opened Ordering
  import opened SeekMap
  import opened Files
  import Chains

  // The file state of f with the pointer at p, in cluster c.
  ghost function StateAt(f: File, p: dword, c: dword): FileState
    requires f.buf.Length == 512
    reads f`fsize, f`sclust, f`dsect, f`dirty, f`chain, f`dk, f.buf
  {
    FileState(p, f.fsize, f.sclust, c, f.dsect, f.dirty, f.buf[..], f.chain, f.dk)
  }

  // A file object on a volume with room for growth, whose pointer may be under way.
  ghost predicate UnderWay(f: File)
    reads f, f.buf, f.fs, f.fs.win, f.fs.disk
  {
    f.Ready() && f.seeking && FreeIsUnused(f.fs.g, f.fs.fat, f.fs.meta)
  }

  lemma UnderWayFacts(f: File)
    requires UnderWay(f)
    ensures f.fs.Valid() && f.buf.Length == 512 && f.buf != f.fs.win && f.seeking && f.fs.g.csize > 0
    ensures f.fs.g.nFatent >= 2
    ensures f.fs.g.Checked(|f.fs.view|) && Proper(f.fs.g, f.chain)
    ensures f.fs.g.fatbase + f.fs.g.FatSectors() <= |f.fs.view|
    ensures FreeIsUnused(f.fs.g, f.fs.fat, f.fs.meta) && |f.fs.fat| == f.fs.g.nFatent <= 0x1000_0000
    ensures forall p: dword, c: dword ::
        Fit(f.fs.g, f.fs.fat, f.fs.view, StateAt(f, p, c), f.contents, f.fs.winsect, f.fs.meta, true)
    ensures f.sclust == 0 <==> f.chain == []
    ensures |f.contents| <= 512 * Capacity(f.fs.g, f.chain) && (f.chain != [] ==> f.chain[0] == f.sclust)
  {
    forall p: dword, c: dword
      ensures Fit(f.fs.g, f.fs.fat, f.fs.view, StateAt(f, p, c), f.contents, f.fs.winsect, f.fs.meta, true)
    {
      FitAnyPlace(f.fs.g, f.fs.fat, f.fs.view, f.State(), p, c, f.contents, f.fs.winsect, f.fs.meta);
    }
  }

  lemma BecomesUnderWay(f: File, p: dword, c: dword)
    requires f.fs.Valid() && f.buf.Length == 512 && f.buf != f.fs.win && f.seeking
    requires Fit(f.fs.g, f.fs.fat, f.fs.view, StateAt(f, p, c), f.contents, f.fs.winsect, f.fs.meta, true)
    requires FreeIsUnused(f.fs.g, f.fs.fat, f.fs.meta)
    ensures UnderWay(f)
  {
    FitAnyPlace(f.fs.g, f.fs.fat, f.fs.view, StateAt(f, p, c), f.fptr, f.clust, f.contents, f.fs.winsect, f.fs.meta);
  }

  // Set pointer and current cluster.
  method MoveTo(f: File, p: dword, c: dword)
    requires UnderWay(f)
    modifies f`fptr, f`clust
    ensures UnderWay(f) && f.fptr == p && f.clust == c
  {
    hide *;
    UnderWayFacts(f);
    f.fptr := p;
    f.clust := c;
    BecomesUnderWay(f, p, c);
  }

  // Stretch the chain behind its k-th cluster, or follow it.
  method NextForWrite(f: File, clst: dword, ghost k: nat) returns (next: dword)
    requires UnderWay(f) && k < |f.chain| && clst == f.chain[k] && Begin(f.fs.g, k + 1) < 0x1_0000_0000
    modifies f`chain, f.fs, f.fs.win, f.fs.disk
    ensures f.fs.meta == old(f.fs.meta) && |f.fs.view| == |old(f.fs.view)|
    ensures InOrder(f.fs.g, old(f.fs.steps)) ==> InOrder(f.fs.g, f.fs.steps)
    ensures f.fs.winsect == old(f.fs.winsect) || f.fs.g.InFat(f.fs.winsect)
    ensures FatOnly(f.fs.g, old(f.fs.view), f.fs.view)
    ensures next != 1 ==> UnderWay(f) && Grown(old(f.fs.fat), f.fs.fat, old(f.chain), f.chain)
    ensures next == 0 ==> f.chain == old(f.chain) && k + 1 == |f.chain| && NoneFree(f.fs.fat)
    ensures next == 1 ==> HasOne(old(f.fs.fat))
    ensures next > 1 ==>
            && k + 1 < |f.chain| && f.chain[k + 1] == next && next < DISK_ERROR
            && |f.chain| <= if |old(f.chain)| > k + 2 then |old(f.chain)| else k + 2
    ensures old(f.fs.disk.log) <= f.fs.disk.log && old(f.fs.steps) <= f.fs.steps
  {
    hide UnderWay, Fit, Volume.Valid, Grown, FreeIsUnused, EntersNext, Chains.Create, ChainAfter, Eoc, FatOnly;
    hide InOrder, Begin, NoneFree;
    hide HasOne, File.Ready, Layout.Checked, Proper;
    UnderWayFacts(f);
    ghost var s := StateAt(f, Begin(f.fs.g, k + 1), clst);
    NextFacts(f, clst, k);
    ghost var r := Chains.Create(f.fs.fat, Eoc(f.fs.g), f.fs.lastClust, clst);
    next := GrowChain(f.fs, clst, s, f.contents, true);
    f.chain := ChainAfter(f.chain, r);
    if next != 1 {
      BecomesUnderWay(f, Begin(f.fs.g, k + 1), clst);
    }
  }

  lemma NextFacts(f: File, clst: dword, k: nat)
    requires UnderWay(f) && k < |f.chain| && clst == f.chain[k] && Begin(f.fs.g, k + 1) < 0x1_0000_0000
    ensures f.fs.g.csize > 0 && |f.fs.fat| == f.fs.g.nFatent && f.buf.Length == 512
    ensures var s, r := StateAt(f, Begin(f.fs.g, k + 1), clst),
        Chains.Create(f.fs.fat, Eoc(f.fs.g), f.fs.lastClust, clst);
            && s.fptr != 0 && s.cs == f.chain != [] && s.clust == clst && s.sclust == f.sclust
            && EntersNext(f.fs.g, f.fs.fat, Eoc(f.fs.g), s, r) && r.code < DISK_ERROR
            && (r.code == 0 ==>
                  && k + 1 == |f.chain| && ChainAfter(f.chain, r) == f.chain && NoneFree(f.fs.fat)
                  && r.fat == f.fs.fat)
            && (r.code == 1 ==> HasOne(f.fs.fat))
            && (r.code > 1 ==>
                  && k + 1 < |ChainAfter(f.chain, r)| && ChainAfter(f.chain, r)[k + 1] == r.code
                  && |ChainAfter(f.chain, r)| <= if |f.chain| > k + 2 then |f.chain| else k + 2)
  {
    EocEnds(f.fs.g, |f.fs.view|);
    NextEntered(f.fs.g, f.fs.fat, f.fs.view, Eoc(f.fs.g), f.fs.lastClust, f.State(), k);
  }

  // Start a chain for a file that has none.
  method StartChain(f: File) returns (clst: dword)
    requires UnderWay(f) && f.chain == []
    modifies f`chain, f`sclust, f.fs, f.fs.win, f.fs.disk
    ensures f.fs.meta == old(f.fs.meta) && |f.fs.view| == |old(f.fs.view)|
    ensures InOrder(f.fs.g, old(f.fs.steps)) ==> InOrder(f.fs.g, f.fs.steps)
    ensures f.fs.winsect == old(f.fs.winsect) || f.fs.g.InFat(f.fs.winsect)
    ensures FatOnly(f.fs.g, old(f.fs.view), f.fs.view)
    ensures clst != 1 ==> UnderWay(f) && Grown(old(f.fs.fat), f.fs.fat, [], f.chain)
    ensures clst == 0 ==> f.chain == [] && NoneFree(f.fs.fat)
    ensures clst == 1 ==> HasOne(old(f.fs.fat))
    ensures clst > 1 ==> f.chain == [clst] && clst < DISK_ERROR
    ensures old(f.fs.disk.log) <= f.fs.disk.log && old(f.fs.steps) <= f.fs.steps
  {
    hide UnderWay, Fit, Volume.Valid, Grown, FreeIsUnused, EntersNext, Chains.Create, ChainAfter, Eoc, FatOnly;
    hide InOrder, Begin, NoneFree;
    hide HasOne, File.Ready, Layout.Checked, Proper;
    UnderWayFacts(f);
    ghost var s := StateAt(f, 0, 0);
    StartFacts(f);
    ghost var r := Chains.Create(f.fs.fat, Eoc(f.fs.g), f.fs.lastClust, 0);
    clst := GrowChain(f.fs, 0, s, f.contents, true);
    if clst != 1 && clst != DISK_ERROR { f.sclust := clst; }
    f.chain := ChainAfter(f.chain, r);
    if clst != 1 {
      BecomesUnderWay(f, 0, 0);
    }
  }

  lemma StartFacts(f: File)
    requires UnderWay(f) && f.chain == []
    ensures f.fs.g.csize > 0 && |f.fs.fat| == f.fs.g.nFatent && f.buf.Length == 512
    ensures var s, r := StateAt(f, 0, 0), Chains.Create(f.fs.fat, Eoc(f.fs.g), f.fs.lastClust, 0);
            && EntersNext(f.fs.g, f.fs.fat, Eoc(f.fs.g), s, r) && r.code < DISK_ERROR
            && (r.code == 0 ==> ChainAfter(f.chain, r) == [] && NoneFree(f.fs.fat) && r.fat == f.fs.fat)
            && (r.code == 1 ==> HasOne(f.fs.fat))
            && (r.code > 1 ==> ChainAfter(f.chain, r) == [r.code])
  {
    EocEnds(f.fs.g, |f.fs.view|);
    CreateOutcome(f.fs.g, f.fs.fat, Eoc(f.fs.g), f.fs.lastClust, StateAt(f, 0, 0));
  }

  // ----- following the chain

  // Since FAT h, sectors v and chain cs, the chain grew no further than offset o demands.
  ghost predicate Longer(f: File, h: seq<nat>, v: seq<Sector>, cs: seq<dword>, o: nat)
    reads f`chain, f.fs`fat, f.fs`view
  {
    && Grown(h, f.fs.fat, cs, f.chain)
    && f.fs.g.fatbase + f.fs.g.FatSectors() <= |v| == |f.fs.view| && FatOnly(f.fs.g, v, f.fs.view)
    && (|f.chain| > |cs| ==> Begin(f.fs.g, |f.chain| - 1) < o)
  }

  // The pointer stands at the start of the k-th cluster, and rest bytes are left to offset o.
  ghost predicate AtCluster(f: File, k: nat, rest: nat, o: nat)
    reads f, f.buf, f.fs, f.fs.win, f.fs.disk
  {
    && UnderWay(f) && k < |f.chain| && f.clust == f.chain[k]
    && f.fptr == Begin(f.fs.g, k) && f.fptr + rest == o < 0x1_0000_0000 && rest > 0
  }

  lemma AtClusterFacts(f: File, k: nat, rest: nat, o: nat, h: seq<nat>, v: seq<Sector>, cs: seq<dword>)
    requires AtCluster(f, k, rest, o) && Longer(f, h, v, cs, o)
    ensures UnderWay(f) && f.buf.Length == 512 && k < |f.chain| && f.clust == f.chain[k] && f.fs.Valid()
    ensures f.fs.g.csize > 0
    ensures f.fptr == Begin(f.fs.g, k) && Begin(f.fs.g, k + 1) == f.fptr + ClusterBytes(f.fs.g)
    ensures f.fptr + rest == o < 0x1_0000_0000 && rest > 0 && ClusterBytes(f.fs.g) > 0
    ensures HasOne(f.fs.fat) ==> HasOne(h)
    ensures |f.fs.fat| == f.fs.g.nFatent && 2 <= f.clust < f.fs.g.nFatent
    ensures o <= |f.contents| && rest > ClusterBytes(f.fs.g) ==>
              k + 1 < |f.chain| && f.fs.fat[f.clust] == f.chain[k + 1] && 1 < f.chain[k + 1] < f.fs.g.nFatent
                && f.chain[k + 1] < DISK_ERROR
  {
    BeginNext(f.fs.g, k);
    if HasOne(f.fs.fat) {
      GrownHasOne(f.fs.g, h, f.fs.fat, cs, f.sclust, f.chain);
    }
    if o <= |f.contents| && rest > ClusterBytes(f.fs.g) {
      CapacityIsBegin(f.fs.g, f.chain);
      EocEnds(f.fs.g, |f.fs.view|);
    }
  }

  lemma NowAtCluster(f: File, k: nat, rest: nat, o: nat)
    requires UnderWay(f) && k < |f.chain| && f.clust == f.chain[k]
    requires f.fptr == Begin(f.fs.g, k) && f.fptr + rest == o < 0x1_0000_0000 && rest > 0
    ensures AtCluster(f, k, rest, o)
  {
  }

  lemma LongerStep(f: File, h: seq<nat>, v: seq<Sector>, cs: seq<dword>, i: seq<nat>, w: seq<Sector>, ds: seq<dword>,
                   k: nat, o: nat)
    requires Grown(h, i, cs, ds) && f.fs.g.fatbase + f.fs.g.FatSectors() <= |v| == |w| == |f.fs.view|
    requires FatOnly(f.fs.g, v, w)
    requires |ds| > |cs| ==> Begin(f.fs.g, |ds| - 1) < o
    requires Grown(i, f.fs.fat, ds, f.chain) && FatOnly(f.fs.g, w, f.fs.view) && Proper(f.fs.g, f.chain)
    requires |f.chain| <= (if |ds| > k + 2 then |ds| else k + 2) && Begin(f.fs.g, k + 1) < o
    ensures Longer(f, h, v, cs, o)
  {
    FatOnlyTransitive(f.fs.g, v, w, f.fs.view);
    forall i, j | 0 <= i < |ds| <= j < |f.chain|
      ensures f.chain[j] != ds[i]
    {
      assert f.chain[i] == ds[i];
    }
    GrownTransitive(h, i, f.fs.fat, cs, ds, f.chain);
    if |f.chain| > |ds| {
      BeginMonotonic(f.fs.g, |f.chain| - 1, k + 1);
    }
  }

  // Stretch the chain behind the current cluster, or follow it.
  method StretchOn(f: File, clst: dword, ghost k: nat, ghost rest: dword, ghost o: dword, ghost h: seq<nat>,
                   ghost v: seq<Sector>, ghost cs: seq<dword>)
    returns (next: dword)
    requires AtCluster(f, k, rest, o) && Longer(f, h, v, cs, o) && clst == f.clust && rest > ClusterBytes(f.fs.g)
    modifies f`chain, f.fs, f.fs.win, f.fs.disk
    ensures f.fs.meta == old(f.fs.meta)
    ensures InOrder(f.fs.g, old(f.fs.steps)) ==> InOrder(f.fs.g, f.fs.steps)
    ensures f.fs.winsect == old(f.fs.winsect) || f.fs.g.InFat(f.fs.winsect)
    ensures next == 1 ==> HasOne(h)
    ensures next != 1 ==> UnderWay(f) && Longer(f, h, v, cs, o)
    ensures next == 0 ==> AtCluster(f, k, rest, o) && k + 1 == |f.chain| && NoneFree(f.fs.fat)
    ensures next > 1 ==> k + 1 < |f.chain| && f.chain[k + 1] == next < DISK_ERROR && next < f.fs.g.nFatent
    ensures old(f.fs.disk.log) <= f.fs.disk.log && old(f.fs.steps) <= f.fs.steps
  {
    hide *;
    AtClusterFacts(f, k, rest, o, h, v, cs);
    LongerFacts(f, h, v, cs, o, k, rest);
    ghost var i, w, ds := f.fs.fat, f.fs.view, f.chain;
    next := NextForWrite(f, clst, k);
    if next != 1 {
      UnderWayFacts(f);
      LongerStep(f, h, v, cs, i, w, ds, k, o);
      if next == 0 {
        NowAtCluster(f, k, rest, o);
      } else {
        ProperAt(f.fs.g, f.chain, k + 1);
      }
    }
  }

  lemma LongerFacts(f: File, h: seq<nat>, v: seq<Sector>, cs: seq<dword>, o: nat, k: nat, rest: nat)
    requires Longer(f, h, v, cs, o) && AtCluster(f, k, rest, o) && rest > ClusterBytes(f.fs.g)
    ensures Grown(h, f.fs.fat, cs, f.chain) && f.fs.g.fatbase + f.fs.g.FatSectors() <= |v| == |f.fs.view|
    ensures FatOnly(f.fs.g, v, f.fs.view) && (|f.chain| > |cs| ==> Begin(f.fs.g, |f.chain| - 1) < o)
    ensures Begin(f.fs.g, k + 1) < o < 0x1_0000_0000
  {
    BeginNext(f.fs.g, k);
  }

  lemma ProperAt(g: Layout, cs: seq<dword>, k: nat)
    requires Proper(g, cs) && k < |cs|
    ensures 2 <= cs[k] < g.nFatent
  {
  }

  // Read the link of the current cluster.
  method ReadLink(f: File, clst: dword) returns (next: dword)
    requires UnderWay(f) && clst < |f.fs.fat| && f.fs.g.IsCluster(clst)
    modifies f.fs`winsect, f.fs`wflag, f.fs.win, f.fs.disk
    ensures UnderWay(f) && next == f.fs.fat[clst] && (f.fs.winsect == old(f.fs.winsect) || f.fs.g.InFat(f.fs.winsect))
    ensures old(f.fs.disk.log) <= f.fs.disk.log
  {
    hide *;
    UnderWayFacts(f);
    ghost var s, before := StateAt(f, 0, 0), f.fs.winsect;
    next := f.fs.GetFat(clst);
    if f.fs.winsect != before {
      FitInFat(f.fs.g, f.fs.fat, f.fs.view, s, f.contents, before, f.fs.winsect, f.fs.meta, true);
    }
    BecomesUnderWay(f, 0, 0);
  }

  // Follow the chain by one cluster, stretching it if the file may be written; more is false if the volume is full.
  method FollowStep(f: File, clst: dword, rest: dword, o: dword, ghost k: nat, ghost h: seq<nat>,
                    ghost v: seq<Sector>, ghost cs: seq<dword>)
    returns (res: FResult, more: bool, next: dword)
    requires AtCluster(f, k, rest, o) && Longer(f, h, v, cs, o) && clst == f.clust && rest > ClusterBytes(f.fs.g)
    requires f.canWrite || o <= |f.contents|
    modifies f`chain, f`fptr, f`clust, f.fs, f.fs.win, f.fs.disk
    ensures f.fs.meta == old(f.fs.meta)
    ensures InOrder(f.fs.g, old(f.fs.steps)) ==> InOrder(f.fs.g, f.fs.steps)
    ensures f.fs.winsect == old(f.fs.winsect) || f.fs.g.InFat(f.fs.winsect)
    ensures res == Ok || (res == IntErr && HasOne(h))
    ensures res == Ok ==> Longer(f, h, v, cs, o)
    ensures res == Ok && more ==> AtCluster(f, k + 1, rest - ClusterBytes(f.fs.g), o) && next == f.clust
    ensures res == Ok && !more ==> AtCluster(f, k, rest, o) && k + 1 == |f.chain| && NoneFree(f.fs.fat)
    ensures old(f.fs.disk.log) <= f.fs.disk.log && old(f.fs.steps) <= f.fs.steps
  {
    hide UnderWay, AtCluster, Longer, Fit, Volume.Valid, Grown, FreeIsUnused, FatOnly, InOrder, Begin, NoneFree;
    hide HasOne, File.Ready;
    hide Layout.Checked, Proper;
    AtClusterFacts(f, k, rest, o, h, v, cs);
    res, more := Ok, true;
    if f.canWrite {
      next := StretchOn(f, clst, k, rest, o, h, v, cs);
      if next == 0 { return Ok, false, 0; }
    } else {
      next := ReadLink(f, clst);
    }
    if next == DISK_ERROR { return DiskErr, more, next; }
    if next <= 1 || next >= f.fs.g.nFatent { return IntErr, more, next; }
    MoveTo(f, f.fptr + ClusterBytes(f.fs.g), next);
    NowAtCluster(f, k + 1, rest - ClusterBytes(f.fs.g), o);
  }

  // Follow the chain until offset o lies in the current cluster or at its end, or the volume is full.
  method FollowChain(f: File, start: dword, ahead: dword, o: dword, ghost from: nat, ghost h: seq<nat>,
                     ghost v: seq<Sector>, ghost cs: seq<dword>)
    returns (res: FResult, clst: dword, rest: dword, ghost k: nat)
    requires AtCluster(f, from, ahead, o) && Longer(f, h, v, cs, o) && start == f.clust
    requires (f.canWrite || o <= |f.contents|)
    modifies f`chain, f`fptr, f`clust, f.fs, f.fs.win, f.fs.disk
    ensures f.fs.meta == old(f.fs.meta)
    ensures InOrder(f.fs.g, old(f.fs.steps)) ==> InOrder(f.fs.g, f.fs.steps)
    ensures f.fs.winsect == old(f.fs.winsect) || f.fs.g.InFat(f.fs.winsect)
    ensures res == Ok || (res == IntErr && HasOne(h))
    ensures res == Ok ==> Longer(f, h, v, cs, o) && 0 < rest <= ClusterBytes(f.fs.g) && f.fptr + rest <= o
    ensures res == Ok ==> AtCluster(f, k, o - f.fptr, o)
    ensures res == Ok && f.fptr + rest == o ==> clst == f.clust
    ensures res == Ok && f.fptr + rest < o ==> rest == ClusterBytes(f.fs.g) && k + 1 == |f.chain| && NoneFree(f.fs.fat)
    ensures old(f.fs.disk.log) <= f.fs.disk.log && old(f.fs.steps) <= f.fs.steps
  {
    hide *;
    AtClusterFacts(f, from, ahead, o, h, v, cs);
    res, clst, rest, k := Ok, start, ahead, from;
    var bcs := ClusterBytes(f.fs.g);
    ghost var meta, winsect, steps := f.fs.meta, f.fs.winsect, f.fs.steps;
    while rest > bcs
      invariant res == Ok && AtCluster(f, k, rest, o) && Longer(f, h, v, cs, o) && clst == f.clust && rest > 0
      invariant f.fptr + rest == o
      invariant f.fs.meta == meta && (f.fs.winsect == winsect || f.fs.g.InFat(f.fs.winsect))
      invariant InOrder(f.fs.g, steps) ==> InOrder(f.fs.g, f.fs.steps)
      invariant old(f.fs.disk.log) <= f.fs.disk.log && old(f.fs.steps) <= f.fs.steps
      decreases rest
    {
      AtClusterFacts(f, k, rest, o, h, v, cs);
      var more, next;
      res, more, next := FollowStep(f, clst, rest, o, k, h, v, cs);
      if res != Ok { return; }
      clst := next;
      if !more {
        AtClusterFacts(f, k, rest, o, h, v, cs);
        rest := bcs;
        break;
      }
      rest := rest - bcs;
      k := k + 1;
      AtClusterFacts(f, k, rest, o, h, v, cs);
    }
  }

  lemma OriginFacts(f: File, o: dword)
    requires f.Valid() && f.seeking && FreeIsUnused(f.fs.g, f.fs.fat, f.fs.meta) && o > 0
    ensures UnderWay(f) && f.buf.Length == 512 && f.fs.g.csize > 0 && ClusterBytes(f.fs.g) > 0 && DISK_ERROR > 1
    ensures |f.contents| == f.fsize && Longer(f, f.fs.fat, f.fs.view, f.chain, o) && Begin(f.fs.g, 0) == 0
    ensures f.fs.g.fatbase + f.fs.g.FatSectors() <= |f.fs.view|
    ensures f.sclust == 0 <==> f.chain == []
    ensures f.chain != [] ==> f.chain[0] == f.sclust
    ensures f.fptr > 0 ==>
              var k := Ordinal(f.fs.g, (f.fptr - 1) / 512);
              && k < |f.chain| && f.clust == f.chain[k] && f.clust != 0
              && f.fptr - 1 - BitAnd(f.fptr - 1, ClusterBytes(f.fs.g) - 1) == Begin(f.fs.g, k)
              && ((o - 1) / ClusterBytes(f.fs.g) >= (f.fptr - 1) / ClusterBytes(f.fs.g) ==> Begin(f.fs.g, k) < o)
  {
    hide FatOf, FatMap.Entry, Chronicle, Agrees, MetaGrows, Mirrored, Store, FreeIsUnused, BitAnd, Ordinal, Begin;
    hide Capacity, Content;
    NothingGrown(f.fs.fat, f.chain);
    NothingBefore(f.fs.g);
    if f.fptr > 0 {
      SameOrLater(f.fs.g, f.fptr - 1, o - 1);
    }
  }

  lemma NothingBefore(g: Layout)
    requires g.csize > 0
    ensures Begin(g, 0) == 0
  {
  }

  lemma SameOrLater(g: Layout, p: nat, q: nat)
    requires g.csize > 0 && PowerOfTwo(g.csize)
    ensures var k := Ordinal(g, p / 512);
            && p - BitAnd(p, ClusterBytes(g) - 1) == Begin(g, k)
            && (q / ClusterBytes(g) >= p / ClusterBytes(g) ==> Begin(g, k) <= q)
  {
    hide Ordinal, Begin, ClusterBytes, BitAnd;
    MaskedStart(g, p);
    ByteInCluster(g, p, Ordinal(g, p / 512));
    ByteInCluster(g, q, Ordinal(g, q / 512));
    if q / ClusterBytes(g) >= p / ClusterBytes(g) {
      BeginMonotonic(g, Ordinal(g, p / 512), Ordinal(g, q / 512));
    }
  }

  // Find where the search for offset o starts: in the current cluster, or at the head of a chain that may be new.
  method Origin(f: File, o: dword) returns (res: FResult, clst: dword, rest: dword, ghost k: nat)
    requires f.Valid() && f.seeking && FreeIsUnused(f.fs.g, f.fs.fat, f.fs.meta) && o > 0
    modifies f`fptr, f`clust, f`sclust, f`chain, f.fs, f.fs.win, f.fs.disk
    ensures f.fs.meta == old(f.fs.meta)
    ensures InOrder(f.fs.g, old(f.fs.steps)) ==> InOrder(f.fs.g, f.fs.steps)
    ensures f.fs.winsect == old(f.fs.winsect) || f.fs.g.InFat(f.fs.winsect)
    ensures res == Ok || (res == IntErr && HasOne(old(f.fs.fat)))
    ensures res == Ok ==> Longer(f, old(f.fs.fat), old(f.fs.view), old(f.chain), o)
    ensures res == Ok && clst != 0 ==> AtCluster(f, k, rest, o) && clst == f.clust
    ensures res == Ok && clst == 0 ==> UnderWay(f) && f.chain == [] && f.fptr == 0 && NoneFree(f.fs.fat)
    ensures old(f.fs.disk.log) <= f.fs.disk.log && old(f.fs.steps) <= f.fs.steps
  {
    hide *;
    OriginFacts(f, o);
    var bcs := ClusterBytes(f.fs.g);
    ghost var h, v, cs := f.fs.fat, f.fs.view, f.chain;
    var ifptr := f.fptr;
    MoveTo(f, 0, f.clust);
    res, rest, k := Ok, o, 0;
    if ifptr > 0 && (o - 1) / bcs >= (ifptr - 1) / bcs {
      k := Ordinal(f.fs.g, (ifptr - 1) / 512);
      MoveTo(f, ifptr - 1 - BitAnd(ifptr - 1, bcs - 1), f.clust);
      rest := o - f.fptr;
      clst := f.clust;
    } else {
      clst := f.sclust;
      if clst == 0 {
        clst := StartChain(f);
        if clst == 1 { return IntErr, clst, rest, k; }
        if clst == DISK_ERROR { return DiskErr, clst, rest, k; }
        StartedLonger(f, h, v, o);
      }
      MoveTo(f, f.fptr, clst);
    }
    if clst != 0 {
      NowAtCluster(f, k, rest, o);
    }
  }

  lemma StartedLonger(f: File, h: seq<nat>, v: seq<Sector>, o: nat)
    requires UnderWay(f) && Grown(h, f.fs.fat, [], f.chain) && |v| == |f.fs.view| && |f.chain| <= 1 && o > 0
    requires f.fs.g.fatbase + f.fs.g.FatSectors() <= |v| && FatOnly(f.fs.g, v, f.fs.view)
    ensures Longer(f, h, v, [], o)
  {
  }

  // The pointer reached offset o, or the end of a chain that could not be stretched; nsect is its sector unless
  // it stands on a sector boundary.
  ghost predicate Arrived(f: File, o: nat, nsect: nat)
    requires f.buf.Length == 512 && f.fs.g.csize > 0 && f.fs.g.nFatent >= 2
    reads f, f.buf, f.fs`fat
  {
    && PointerPlaced(f.fs.g, f.State()) && f.fptr <= o
    && (f.fptr < o ==> f.fptr == 512 * Capacity(f.fs.g, f.chain) && NoneFree(f.fs.fat))
    && (f.fptr % 512 != 0 ==>
          && Ordinal(f.fs.g, f.fptr / 512) < |f.chain|
          && nsect == SectorAt(f.fs.g, f.chain, f.fptr / 512))
  }

  lemma SeekFacts(f: File, o: nat)
    requires f.Valid() && f.seeking && FreeIsUnused(f.fs.g, f.fs.fat, f.fs.meta)
    ensures UnderWay(f) && f.buf.Length == 512 && f.fs.g.csize > 0 && f.fs.g.nFatent >= 2
    ensures |f.contents| == f.fsize && Longer(f, f.fs.fat, f.fs.view, f.chain, o)
  {
    NothingGrown(f.fs.fat, f.chain);
  }

  lemma ArrivedAtStart(f: File, o: nat)
    requires UnderWay(f) && f.buf.Length == 512 && f.fs.g.csize > 0 && f.fs.g.nFatent >= 2
    requires f.fptr == 0 && (o == 0 || (f.chain == [] && NoneFree(f.fs.fat)))
    ensures Arrived(f, o, 0)
  {
    CapacityIsBegin(f.fs.g, f.chain);
    BeginNext(f.fs.g, 0);
  }

  lemma ArrivalFacts(f: File, k: nat, rest: nat, o: nat)
    requires f.fptr <= o && AtCluster(f, k, o - f.fptr, o) && 0 < rest <= ClusterBytes(f.fs.g) && f.fptr + rest <= o
    ensures UnderWay(f) && f.fptr + rest < 0x1_0000_0000 && k < |f.chain| && f.clust == f.chain[k]
    ensures f.fptr == Begin(f.fs.g, k)
    ensures f.fs.g.Clust2Sect(f.clust) > 0 && ClusterBytes(f.fs.g) % 512 == 0
  {
    hide *;
    AtUnderWay(f, k, o - f.fptr, o);
    WholeSectors(f.fs.g);
    f.fs.g.ZeroIffInvalid(f.clust, |f.fs.view|);
  }

  lemma WholeSectors(g: Layout)
    ensures ClusterBytes(g) % 512 == 0
  {
  }

  lemma AtUnderWay(f: File, k: nat, rest: nat, o: nat)
    requires AtCluster(f, k, rest, o)
    ensures UnderWay(f) && f.fs.g.nFatent >= 2 && f.fs.g.Checked(|f.fs.view|) && f.fs.g.IsCluster(f.clust)
    ensures k < |f.chain| && f.clust == f.chain[k] && f.fptr == Begin(f.fs.g, k) && f.fptr + rest == o < 0x1_0000_0000
  {
  }

  lemma ArrivedIn(f: File, k: nat, rest: nat, o: nat, nsect: nat)
    requires UnderWay(f) && f.buf.Length == 512 && f.fs.g.csize > 0 && f.fs.g.nFatent >= 2
    requires k < |f.chain| && f.clust == f.chain[k] && f.fptr == Begin(f.fs.g, k) + rest
    requires 0 < rest <= ClusterBytes(f.fs.g)
    requires f.fptr <= o && (f.fptr < o ==> rest == ClusterBytes(f.fs.g) && k + 1 == |f.chain| && NoneFree(f.fs.fat))
    requires rest % 512 != 0 ==> nsect == f.fs.g.Clust2Sect(f.chain[k]) + rest / 512
    ensures Arrived(f, o, nsect)
  {
    hide Ordinal, Capacity, SectorAt, Layout.Clust2Sect, UnderWay, Begin, ClusterBytes, NoneFree, PointerPlaced;
    CapacityIsBegin(f.fs.g, f.chain);
    BeginNext(f.fs.g, k);
    WholeSectors(f.fs.g);
    PlacedIn(f.fs.g, f.State(), k, f.fptr);
    if f.fptr % 512 != 0 {
      SectorInCluster(f.fs.g, f.chain, k, f.fptr);
    }
  }

  // Move the pointer, and find its sector.
  method Arrive(f: File, o: dword) returns (res: FResult, nsect: nat)
    requires f.Valid() && f.seeking && FreeIsUnused(f.fs.g, f.fs.fat, f.fs.meta) && (o <= f.fsize || f.canWrite)
    modifies f`fptr, f`clust, f`sclust, f`chain, f.fs, f.fs.win, f.fs.disk
    ensures f.fs.meta == old(f.fs.meta)
    ensures InOrder(f.fs.g, old(f.fs.steps)) ==> InOrder(f.fs.g, f.fs.steps)
    ensures f.fs.winsect == old(f.fs.winsect) || f.fs.g.InFat(f.fs.winsect)
    ensures f.buf.Length == 512 && f.fs.g.csize > 0 && f.fs.g.nFatent >= 2
    ensures res == Ok || (res == IntErr && HasOne(old(f.fs.fat)))
    ensures res == Ok ==>
            && UnderWay(f) && Arrived(f, o, nsect)
            && Longer(f, old(f.fs.fat), old(f.fs.view), old(f.chain), o)
    ensures old(f.fs.disk.log) <= f.fs.disk.log && old(f.fs.steps) <= f.fs.steps
  {
    hide *;
    SeekFacts(f, o);
    ghost var h, v, cs := f.fs.fat, f.fs.view, f.chain;
    res, nsect := Ok, 0;
    if o == 0 {
      MoveTo(f, 0, f.clust);
      ArrivedAtStart(f, o);
    } else {
      OriginFacts(f, o);
      var clst, rest;
      ghost var k;
      res, clst, rest, k := Origin(f, o);
      if res != Ok { return; }
      if clst == 0 {
        ArrivedAtStart(f, o);
      } else {
        res, clst, rest, k := FollowChain(f, clst, rest, o, k, h, v, cs);
        if res != Ok { return; }
        ArrivalFacts(f, k, rest, o);
        MoveTo(f, f.fptr + rest, f.clust);
        if rest % 512 != 0 {
          nsect := f.fs.g.Clust2Sect(clst);
          if nsect == 0 { return IntErr, nsect; }
          nsect := nsect + rest / 512;
        }
        ArrivedIn(f, k, rest, o, nsect);
      }
    }
  }

  // After the move, the buffer holds the sector of the pointer if that lies inside one.
  method FillAt(f: File, nsect: nat, ghost o: nat) returns (res: FResult)
    requires UnderWay(f) && f.buf.Length == 512 && f.fs.g.csize > 0 && f.fs.g.nFatent >= 2 && Arrived(f, o, nsect)
    modifies f`dirty, f`dsect, f`dk, f.buf, f.fs`view, f.fs.disk
    ensures UnderWay(f) && res == Ok && Tracking(f.fs.g, f.State())
    ensures OnlyIn(f.fs.g, f.chain, old(f.fs.view), f.fs.view)
    ensures f.dirty ==> old(f.dirty)
    ensures old(f.fs.disk.log) <= f.fs.disk.log
  {
    hide UnderWay, Volume.Valid, File.Ready, OnlyIn, Ordinal, SectorAt, Capacity, FreeIsUnused, Fit, NoneFree;
    FillFacts(f);
    NothingChanged(f.fs.g, f.chain, f.fs.view);
    res := Ok;
    if f.fptr % 512 != 0 {
      res := f.FillBuffer(nsect);
      FilledUnderWay(f);
    }
  }

  lemma FillFacts(f: File)
    requires UnderWay(f)
    ensures f.Ready() && f.seeking && FreeIsUnused(f.fs.g, f.fs.fat, f.fs.meta)
  {
  }

  lemma FilledUnderWay(f: File)
    requires f.Ready() && f.seeking && FreeIsUnused(f.fs.g, f.fs.fat, f.fs.meta)
    ensures UnderWay(f)
  {
  }

  // The new file size and contents.
  method ExtendSize(f: File, ghost o: nat)
    requires UnderWay(f) && f.fs.g.csize > 0 && f.fs.g.nFatent >= 2 && f.buf.Length == 512
    requires Tracking(f.fs.g, f.State())
    requires |f.contents| == f.fsize
    modifies f`fsize, f`written, f`contents
    ensures f.Valid() && f.seeking && FreeIsUnused(f.fs.g, f.fs.fat, f.fs.meta)
    ensures f.fsize == Max(old(f.fsize), f.fptr) && f.written == (old(f.written) || f.fptr > old(f.fsize))
    ensures |f.contents| == f.fsize && f.contents[..old(f.fsize)] == old(f.contents)
  {
    hide Volume.Valid, Capacity, Ordinal, SectorAt, Content;
    ghost var n := Max(f.fsize, f.fptr);
    ExtendFacts(f, n);
    f.contents := Content(f.fs.g, f.fs.view, f.State(), n);
    if f.fptr > f.fsize {
      f.fsize := f.fptr;
      f.written := true;
    }
  }

  lemma ExtendFacts(f: File, n: nat)
    requires UnderWay(f) && f.fs.g.csize > 0 && f.fs.g.nFatent >= 2 && f.buf.Length == 512
    requires Tracking(f.fs.g, f.State())
    requires |f.contents| == f.fsize && n == Max(f.fsize, f.fptr)
    ensures f.fs.g.Checked(|f.fs.view|) && Proper(f.fs.g, f.chain) && n <= 512 * Capacity(f.fs.g, f.chain)
    ensures Content(f.fs.g, f.fs.view, f.State(), n)[..f.fsize] == f.contents
    ensures forall size: dword ::
              Fit(f.fs.g, f.fs.fat, f.fs.view, f.State().(fsize := size), Content(f.fs.g, f.fs.view, f.State(), n),
                f.fs.winsect, f.fs.meta, true)
  {
    ContentPrefix(f.fs.g, f.fs.view, f.State(), f.fsize, n);
  }

  // Move the pointer to offset ofs: cut to the file size if the file may not be written, otherwise stretching the
  // file; at a full volume the pointer ends where the chain does. The bytes of the file stay what they were.
  method LSeek(f: File, ofs: dword) returns (res: FResult)
    requires f.Valid() && f.seeking && FreeIsUnused(f.fs.g, f.fs.fat, f.fs.meta)
    modifies f`fptr, f`clust, f`sclust, f`chain, f`dirty, f`dsect, f`dk, f`fsize, f`written, f`contents, f`error
    modifies f.buf, f.fs, f.fs.win, f.fs.disk
    ensures f.fs.meta == old(f.fs.meta)
    ensures InOrder(f.fs.g, old(f.fs.steps)) ==> InOrder(f.fs.g, f.fs.steps)
    ensures f.fs.winsect == old(f.fs.winsect) || f.fs.g.InFat(f.fs.winsect)
    ensures old(f.error) ==> res == IntErr && f.fptr == old(f.fptr) && f.contents == old(f.contents)
    ensures old(f.error) ==> f.Valid() && f.error && f.chain == old(f.chain) && f.fs.fat == old(f.fs.fat)
    ensures old(f.error) ==> f.fs.view == old(f.fs.view) && f.written == old(f.written) && f.sclust == old(f.sclust)
    ensures old(f.error) ==> f.fsize == old(f.fsize)
    ensures !old(f.error) ==> res == Ok || (res == IntErr && f.error && HasOne(old(f.fs.fat)))
    ensures f.fs.g.nFatent >= 2
    ensures res == Ok ==>
      var o := if ofs > old(f.fsize) && !f.canWrite then old(f.fsize) else ofs;
      && f.Valid() && FreeIsUnused(f.fs.g, f.fs.fat, f.fs.meta) && !f.error && f.fptr <= o
      && (f.fptr < o ==> f.fptr == 512 * Capacity(f.fs.g, f.chain) && NoneFree(f.fs.fat))
      && f.fsize == Max(old(f.fsize), f.fptr) && f.contents[..old(f.fsize)] == old(f.contents)
      && Grown(old(f.fs.fat), f.fs.fat, old(f.chain), f.chain) && OnlyIn(f.fs.g, f.chain, old(f.fs.view), f.fs.view)
      && (|f.chain| > |old(f.chain)| ==> Begin(f.fs.g, |f.chain| - 1) < o)
    ensures res == Ok && f.fsize == old(f.fsize) ==> f.chain == old(f.chain) && f.sclust == old(f.sclust)
    ensures f.dirty ==> old(f.dirty)
    ensures res == Ok ==> f.written == (old(f.written) || f.fsize > old(f.fsize))
    ensures old(f.fs.disk.log) <= f.fs.disk.log && old(f.fs.steps) <= f.fs.steps
  {
    hide *;
    SeekFacts(f, 0);
    res := if f.error then IntErr else Ok;
    if res == Ok {
      var o := if ofs > f.fsize && !f.canWrite then f.fsize else ofs;
      res := SeekTo(f, o);
      if res != Ok { f.error := true; }
    }
  }

  method SeekTo(f: File, o: dword) returns (res: FResult)
    requires f.Valid() && f.seeking && FreeIsUnused(f.fs.g, f.fs.fat, f.fs.meta) && (o <= f.fsize || f.canWrite)
    modifies f`fptr, f`clust, f`sclust, f`chain, f`dirty, f`dsect, f`dk, f`fsize, f`written, f`contents, f.buf, f.fs
    modifies f.fs.win, f.fs.disk
    ensures f.fs.meta == old(f.fs.meta)
    ensures InOrder(f.fs.g, old(f.fs.steps)) ==> InOrder(f.fs.g, f.fs.steps)
    ensures f.fs.winsect == old(f.fs.winsect) || f.fs.g.InFat(f.fs.winsect)
    ensures res == Ok || (res == IntErr && HasOne(old(f.fs.fat)))
    ensures f.fs.g.nFatent >= 2
    ensures res == Ok ==>
      && f.Valid() && FreeIsUnused(f.fs.g, f.fs.fat, f.fs.meta) && f.fptr <= o
      && (f.fptr < o ==> f.fptr == 512 * Capacity(f.fs.g, f.chain) && NoneFree(f.fs.fat))
      && f.fsize == Max(old(f.fsize), f.fptr) && |f.contents| == f.fsize
      && f.contents[..old(f.fsize)] == old(f.contents)
      && Grown(old(f.fs.fat), f.fs.fat, old(f.chain), f.chain) && OnlyIn(f.fs.g, f.chain, old(f.fs.view), f.fs.view)
      && (|f.chain| > |old(f.chain)| ==> Begin(f.fs.g, |f.chain| - 1) < o)
    ensures res == Ok && f.fsize == old(f.fsize) ==> f.chain == old(f.chain) && f.sclust == old(f.sclust)
    ensures f.dirty ==> old(f.dirty)
    ensures res == Ok ==> f.written == (old(f.written) || f.fsize > old(f.fsize))
    ensures old(f.fs.disk.log) <= f.fs.disk.log && old(f.fs.steps) <= f.fs.steps
  {
    hide *;
    SeekFacts(f, o);
    StartOf(f);
    ghost var h, v, cs, start, n := f.fs.fat, f.fs.view, f.chain, f.sclust, f.fsize;
    var nsect;
    res, nsect := Arrive(f, o);
    if res != Ok { return; }
    ghost var w := f.fs.view;
    ArrivedFacts(f, o, nsect, h, v, cs);
    res := FillAt(f, nsect, o);
    OnlyInTransitive(f.fs.g, f.chain, v, w, f.fs.view);
    LargerIffBehind(f.fsize, f.fptr);
    ExtendSize(f, o);
    StartOf(f);
    if f.fsize == n { NotStretched(f, h, start, cs, n, o); }
  }

  lemma StartOf(f: File)
    requires f.Valid()
    ensures f.fs.g.csize > 0 && ChainFrom(f.fs.g, f.fs.fat, f.sclust, f.chain)
    ensures f.fsize <= 512 * Capacity(f.fs.g, f.chain)
  {
    hide FatOf, FatMap.Entry, Chronicle, Agrees, Store, Content, Capacity;
  }

  // A seek that stretches the chain extends the file.
  lemma StretchExtends(g: Layout, cs: seq<dword>, ds: seq<dword>, n: nat, p: nat, o: nat)
    requires g.csize > 0 && cs <= ds && n <= 512 * Capacity(g, cs)
    requires p <= o && (p < o ==> p == 512 * Capacity(g, ds)) && (|ds| > |cs| ==> Begin(g, |ds| - 1) < o)
    ensures |ds| > |cs| ==> p > n
  {
    CapacityIsBegin(g, cs);
    CapacityIsBegin(g, ds);
    if |ds| > |cs| {
      BeginMonotonic(g, |cs|, |ds| - 1);
      BeginNext(g, |ds| - 1);
    }
  }

  lemma NotStretched(f: File, h: seq<nat>, start: dword, cs: seq<dword>, n: nat, o: nat)
    requires f.fs.g.csize > 0 && ChainFrom(f.fs.g, h, start, cs) && n <= 512 * Capacity(f.fs.g, cs)
    requires ChainFrom(f.fs.g, f.fs.fat, f.sclust, f.chain) && Grown(h, f.fs.fat, cs, f.chain)
    requires f.fptr <= o && (f.fptr < o ==> f.fptr == 512 * Capacity(f.fs.g, f.chain))
    requires |f.chain| > |cs| ==> Begin(f.fs.g, |f.chain| - 1) < o
    requires n == Max(n, f.fptr)
    ensures f.chain == cs && f.sclust == start
  {
    hide Chains.IsChain, Capacity, Begin;
    StretchExtends(f.fs.g, cs, f.chain, n, f.fptr, o);
  }

  lemma LargerIffBehind(a: nat, b: nat)
    ensures Max(a, b) > a <==> b > a
  {
  }

  lemma ArrivedFacts(f: File, o: nat, nsect: nat, h: seq<nat>, v: seq<Sector>, cs: seq<dword>)
    requires UnderWay(f) && f.buf.Length == 512 && f.fs.g.csize > 0 && f.fs.g.nFatent >= 2 && Arrived(f, o, nsect)
    requires Longer(f, h, v, cs, o)
    ensures f.fptr <= o && (f.fptr < o ==> f.fptr == 512 * Capacity(f.fs.g, f.chain) && NoneFree(f.fs.fat))
    ensures Grown(h, f.fs.fat, cs, f.chain) && OnlyIn(f.fs.g, f.chain, v, f.fs.view)
    ensures |f.chain| > |cs| ==> Begin(f.fs.g, |f.chain| - 1) < o
  {
    FatOnlyIsOnlyIn(f.fs.g, f.chain, v, f.fs.view);
  }
}
