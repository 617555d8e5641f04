/**
 Cluster chains in a file allocation table: what the allocator and the chain remover
 compute, and what every run of them keeps. A FAT is a sequence f of entries; clusters
 are the indices 2..|f|-1, an entry of 0 is free, an entry >= |f| ends a chain.
*/
module Chains {
  import opened Bytes

  predicate IsCluster(f: seq<nat>, c: int) {
    2 <= c < |f|
  }

  // cs lists the clusters of an end-marked chain from its head to its tail.
  ghost predicate IsChain(f: seq<nat>, cs: seq<nat>) {
    && |cs| > 0
    && (forall i :: 0 <= i < |cs| ==> IsCluster(f, cs[i]))
    && (forall i :: 0 <= i < |cs| - 1 ==> f[cs[i]] == cs[i + 1])
    && f[cs[|cs| - 1]] >= |f|
  }

  lemma ChainEntries(f: seq<nat>, cs: seq<nat>, i: nat)
    requires IsChain(f, cs) && i < |cs|
    ensures f[cs[i]] >= 2
    ensures f[cs[i]] >= |f| <==> i == |cs| - 1
  {
    if i < |cs| - 1 {
      assert f[cs[i]] == cs[i + 1];
    }
  }

  // Two chains that meet agree from there on.
  lemma {:induction false} SameTail(f: seq<nat>, cs: seq<nat>, ds: seq<nat>)
    requires IsChain(f, cs) && IsChain(f, ds) && cs[0] == ds[0]
    ensures cs == ds
    decreases |cs|
  {
    ChainEntries(f, cs, 0);
    ChainEntries(f, ds, 0);
    if |cs| > 1 {
      assert f[cs[0]] == cs[1];
      assert f[ds[0]] == ds[1];
      TailIsChain(f, cs);
      TailIsChain(f, ds);
      SameTail(f, cs[1..], ds[1..]);
      assert cs == [cs[0]] + cs[1..] && ds == [ds[0]] + ds[1..];
    }
  }

  lemma TailIsChain(f: seq<nat>, cs: seq<nat>)
    requires IsChain(f, cs) && |cs| > 1
    ensures IsChain(f, cs[1..])
  {
  }

  lemma {:induction false} SuffixIsChain(f: seq<nat>, cs: seq<nat>, i: nat)
    requires IsChain(f, cs) && i < |cs|
    ensures IsChain(f, cs[i..])
  {
    var ds := cs[i..];
    forall k | 0 <= k < |ds| - 1
      ensures f[ds[k]] == ds[k + 1]
    {
      assert ds[k] == cs[i + k] && ds[k + 1] == cs[i + k + 1];
    }
  }

  // A chain is acyclic: no cluster occurs twice.
  lemma ChainDistinct(f: seq<nat>, cs: seq<nat>, i: nat, j: nat)
    requires IsChain(f, cs) && i < j < |cs|
    ensures cs[i] != cs[j]
  {
    if cs[i] == cs[j] {
      SuffixIsChain(f, cs, i);
      SuffixIsChain(f, cs, j);
      assert |cs[i..]| == |cs| - i && |cs[j..]| == |cs| - j;
      SameTail(f, cs[i..], cs[j..]);
    }
  }

  lemma {:induction false} DistinctBounded(cs: seq<nat>, n: nat)
    requires forall i :: 0 <= i < |cs| ==> cs[i] < n
    requires forall i, j :: 0 <= i < j < |cs| ==> cs[i] != cs[j]
    ensures |cs| <= n
    decreases n
  {
    assert |cs| > 0 ==> cs[0] < n;
    if n > 0 {
      if k :| 0 <= k < |cs| && cs[k] == n - 1 {
        DistinctBounded(cs[..k] + cs[k + 1..], n - 1);
      } else {
        DistinctBounded(cs, n - 1);
      }
    }
  }

  // A chain is no longer than the FAT.
  lemma ChainBounded(f: seq<nat>, cs: seq<nat>)
    requires IsChain(f, cs)
    ensures |cs| <= |f|
  {
    forall i, j | 0 <= i < j < |cs|
      ensures cs[i] != cs[j]
    {
      ChainDistinct(f, cs, i, j);
    }
    DistinctBounded(cs, |f|);
  }

  // A chain depends on the entries of its own clusters only.
  lemma ChainFrame(f: seq<nat>, h: seq<nat>, cs: seq<nat>)
    requires IsChain(f, cs) && |f| == |h| && forall i :: 0 <= i < |cs| ==> h[cs[i]] == f[cs[i]]
    ensures IsChain(h, cs)
  {
  }

  // ----- counting free clusters

  // The number of free clusters below n.
  function FreeBelow(f: seq<nat>, n: nat): nat
    requires n <= |f|
    decreases n
  {
    if n <= 2 then 0 else FreeBelow(f, n - 1) + if f[n - 1] == 0 then 1 else 0
  }

  function CountFree(f: seq<nat>): nat {
    FreeBelow(f, |f|)
  }

  // It counts the free clusters.
  lemma {:induction false} FreeBelowIsSize(f: seq<nat>, n: nat)
    requires n <= |f|
    ensures FreeBelow(f, n) == |set c: nat | 2 <= c < n && f[c] == 0|
    decreases n
  {
    var s := set c: nat | 2 <= c < n && f[c] == 0;
    if n > 2 {
      var r := set c: nat | 2 <= c < n - 1 && f[c] == 0;
      FreeBelowIsSize(f, n - 1);
      if f[n - 1] == 0 {
        assert s == r + {n - 1};
      } else {
        assert s == r;
      }
    } else {
      assert s == {};
    }
  }

  lemma {:induction false} FreeBelowUpdate(f: seq<nat>, c: nat, v: nat, n: nat)
    requires IsCluster(f, c) && n <= |f|
    ensures FreeBelow(f[c := v], n) ==
            FreeBelow(f, n) + if c >= n || (v == 0 <==> f[c] == 0) then 0 else if v == 0 then 1 else -1
    decreases n
  {
    if n > 2 {
      FreeBelowUpdate(f, c, v, n - 1);
    }
  }

  lemma CountFreeUpdate(f: seq<nat>, c: nat, v: nat)
    requires IsCluster(f, c)
    ensures CountFree(f[c := v]) == CountFree(f) + if v == 0 <==> f[c] == 0 then 0 else if v == 0 then 1 else -1
  {
    FreeBelowUpdate(f, c, v, |f|);
  }

  lemma {:induction false} FreeBelowBound(f: seq<nat>, n: nat)
    requires n <= |f|
    ensures FreeBelow(f, n) <= n
    ensures n >= 2 ==> FreeBelow(f, n) <= n - 2
    ensures FreeBelow(f, n) == 0 <==> forall c :: 2 <= c < n ==> f[c] != 0
    decreases n
  {
    if n > 2 {
      FreeBelowBound(f, n - 1);
    }
  }

  // ----- the free-cluster scan

  // The cluster the scan visits in round k when it starts behind scl.
  function Visit(n: nat, scl: nat, k: nat): nat
    requires 1 <= scl < n && k < n - 2
  {
    if scl + 1 + k < n then scl + 1 + k else scl + 3 + k - n
  }

  // The scan visits every cluster exactly once: Round is the inverse of Visit.
  function Round(n: nat, scl: nat, c: nat): nat
    requires 1 <= scl < n && 2 <= c < n
  {
    if c > scl then c - scl - 1 else c + n - scl - 3
  }

  lemma VisitsAllOnce(n: nat, scl: nat)
    requires 1 <= scl < n
    ensures forall c :: 2 <= c < n ==> Round(n, scl, c) < n - 2 && Visit(n, scl, Round(n, scl, c)) == c
    ensures forall k: nat :: k < n - 2 ==> 2 <= Visit(n, scl, k) < n && Round(n, scl, Visit(n, scl, k)) == k
  {
  }

  // The first round from k on that meets an entry 0 or 1; |f| - 2 if there is none.
  function Stop(f: seq<nat>, scl: nat, k: nat): (r: nat)
    requires 1 <= scl < |f| && k <= |f| - 2
    ensures k <= r <= |f| - 2
    ensures forall j :: k <= j < r ==> f[Visit(|f|, scl, j)] > 1
    ensures r < |f| - 2 ==> f[Visit(|f|, scl, r)] <= 1
    decreases |f| - k
  {
    if k == |f| - 2 || f[Visit(|f|, scl, k)] <= 1 then k else Stop(f, scl, k + 1)
  }

  // The outcome of the scan: the first free cluster, 0 if none is free, 1 if an entry 1 comes first.
  function Scan(f: seq<nat>, scl: nat): (c: nat)
    requires 1 <= scl < |f| && |f| >= 3
    ensures c >= 2 ==> IsCluster(f, c) && f[c] == 0
  {
    var k := Stop(f, scl, 0);
    if k == |f| - 2 then 0 else if f[Visit(|f|, scl, k)] == 0 then Visit(|f|, scl, k) else 1
  }

  // The cluster number behind ncl, for a scan that started behind scl; 0 once a scan from the
  // first cluster is complete.
  function NextCluster(n: nat, scl: nat, ncl: nat): nat {
    if ncl + 1 < n then ncl + 1 else if 2 > scl then 0 else 2
  }

  // The cluster number the scan holds before round k.
  function Before(n: nat, scl: nat, k: nat): nat
    requires 1 <= scl < n && k <= n - 2
  {
    if k == 0 then scl else Visit(n, scl, k - 1)
  }

  // One round of the scan: where it goes, and what the entry found there decides.
  lemma ScanRound(f: seq<nat>, scl: nat, k: nat)
    requires 1 <= scl < |f| && |f| >= 3 && k <= |f| - 2 && (k == |f| - 2 ==> scl == 1)
    requires Stop(f, scl, 0) == Stop(f, scl, k)
    ensures var c := NextCluster(|f|, scl, Before(|f|, scl, k));
            if c == 0 then Scan(f, scl) == 0
            else
              && k < |f| - 2 && c == Visit(|f|, scl, k) && IsCluster(f, c)
              && (f[c] == 0 ==> Scan(f, scl) == c)
              && (f[c] == 1 ==> Scan(f, scl) == 1)
              && (f[c] > 1 && c == scl ==> Scan(f, scl) == 0)
              && (f[c] > 1 && c != scl ==> Stop(f, scl, 0) == Stop(f, scl, k + 1) && (k + 1 == |f| - 2 ==> scl == 1))
  {
  }

  // Wherever the scan starts, it fails exactly when no cluster is free (barring entries equal to 1).
  lemma ScanFindsFree(f: seq<nat>, scl: nat)
    requires 1 <= scl < |f| && |f| >= 3 && forall c :: 2 <= c < |f| ==> f[c] != 1
    ensures Scan(f, scl) == 0 <==> forall c :: 2 <= c < |f| ==> f[c] != 0
    ensures Scan(f, scl) == 0 || (IsCluster(f, Scan(f, scl)) && f[Scan(f, scl)] == 0)
  {
    VisitsAllOnce(|f|, scl);
    var k := Stop(f, scl, 0);
    if k == |f| - 2 {
      forall c | 2 <= c < |f|
        ensures f[c] != 0
      {
        assert f[Visit(|f|, scl, Round(|f|, scl, c))] > 1;
      }
    }
  }

  // The found cluster is the first free one in cyclic order behind scl.
  lemma ScanIsNearest(f: seq<nat>, scl: nat, c: nat)
    requires 1 <= scl < |f| && |f| >= 3 && IsCluster(f, c) && f[c] == 0 && IsCluster(f, Scan(f, scl))
    ensures f[Scan(f, scl)] == 0 && Round(|f|, scl, Scan(f, scl)) <= Round(|f|, scl, c)
  {
    VisitsAllOnce(|f|, scl);
    var k, j := Stop(f, scl, 0), Round(|f|, scl, c);
    assert f[Visit(|f|, scl, j)] == 0;
  }

  // ----- create_chain

  // Outcome of creating or stretching a chain: the code returned, whether a cluster was allocated,
  // the FAT and the last allocated cluster.
  datatype Growth = Growth(code: nat, grew: bool, fat: seq<nat>, last: nat)

  function Allocate(f: seq<nat>, eoc: nat, last: nat, scl: nat, clst: nat): Growth
    requires 1 <= scl < |f| && |f| >= 3 && clst < |f|
  {
    var c := Scan(f, scl);
    if c < 2 then Growth(c, false, f, last)
    else Growth(c, true, if clst == 0 then f[c := eoc] else f[c := eoc][clst := c], c)
  }

  // The start of the scan for a new chain.
  function Hint(n: nat, last: nat): nat {
    if last == 0 || last >= n then 1 else last
  }

  // Stretch the chain ending in clst, or create a new one if clst is 0; eoc is the end mark.
  function Create(f: seq<nat>, eoc: nat, last: nat, clst: nat): (r: Growth)
    requires |f| >= 3
    ensures |r.fat| == |f|
    ensures !r.grew ==> r.fat == f && r.last == last
    ensures r.grew ==> IsCluster(f, r.code) && f[r.code] == 0
  {
    if clst == 0 then Allocate(f, eoc, last, Hint(|f|, last), 0)
    else if !IsCluster(f, clst) || f[clst] < 2 then Growth(1, false, f, last)
    else if f[clst] < |f| then Growth(f[clst], false, f, last)
    else Allocate(f, eoc, last, clst, clst)
  }

  // A new cluster is the first free one behind the end of the chain, or behind the last allocated cluster if a chain is
  // created, with the search going on at the first cluster; it is the first one at all if that cluster is unknown.
  lemma CreateTakesNearest(f: seq<nat>, eoc: nat, last: nat, clst: nat, c: nat)
    requires |f| >= 3 && IsCluster(f, c) && f[c] == 0 && Create(f, eoc, last, clst).grew
    ensures var r := Create(f, eoc, last, clst);
            var s := if clst != 0 then clst else last;
            && f[r.code] == 0 && (clst != 0 ==> IsCluster(f, clst) && f[clst] >= |f|)
            && (if !IsCluster(f, s) then r.code <= c
                else if r.code > s then c <= s || r.code <= c
                else r.code <= c <= s)
  {
    hide Stop, Scan, Visit;
    ScanIsNearest(f, if clst != 0 then clst else Hint(|f|, last), c);
  }

  // What stretching a chain again and again comes to: how often it succeeds, and the code it fails with then.
  datatype Supply = Supply(count: nat, code: nat)

  function SupplyOf(f: seq<nat>, eoc: nat, end: nat): Supply
    requires |f| >= 3 && eoc > 0 && IsCluster(f, end) && f[end] != 0
    decreases CountFree(f)
  {
    var c := Scan(f, end);
    if c < 2 then Supply(0, c)
    else
      CountFreeUpdate(f, c, eoc);
      CountFreeUpdate(f[c := eoc], end, c);
      var s := SupplyOf(f[c := eoc][end := c], eoc, c);
      Supply(s.count + 1, s.code)
  }

  // It takes free clusters as long as there are any, unless it meets an entry equal to 1 first.
  lemma {:induction false} SupplyIsFree(f: seq<nat>, eoc: nat, end: nat)
    requires |f| >= 3 && eoc > 1 && IsCluster(f, end) && f[end] > 1
    ensures var s := SupplyOf(f, eoc, end);
            && s.count <= CountFree(f) && s.code <= 1 && (s.code == 0 ==> s.count == CountFree(f))
            && (s.code == 1 ==> exists c :: 2 <= c < |f| && f[c] == 1)
    decreases CountFree(f)
  {
    hide Stop;
    var c := Scan(f, end);
    FreeBelowBound(f, |f|);
    VisitsAllOnce(|f|, end);
    if c < 2 {
      ScanEnds(f, end);
    } else {
      var h := f[c := eoc][end := c];
      CountFreeUpdate(f, c, eoc);
      CountFreeUpdate(f[c := eoc], end, c);
      SupplyIsFree(h, eoc, c);
      assert forall d :: 2 <= d < |f| && h[d] == 1 ==> f[d] == 1;
    }
  }

  // A scan that finds no cluster has seen them all, or met an entry equal to 1.
  lemma ScanEnds(f: seq<nat>, scl: nat)
    requires 1 <= scl < |f| && |f| >= 3 && Scan(f, scl) < 2
    ensures if Scan(f, scl) == 0 then CountFree(f) == 0 else exists c :: 2 <= c < |f| && f[c] == 1
  {
    VisitsAllOnce(|f|, scl);
    FreeBelowBound(f, |f|);
    var k := Stop(f, scl, 0);
    if k == |f| - 2 {
      forall c | 2 <= c < |f|
        ensures f[c] != 0
      {
        assert f[Visit(|f|, scl, Round(|f|, scl, c))] > 1;
      }
    }
  }

  // The FATs an allocation of cluster c passes through: end-marked first, linked second.
  function GrowthTrace(f: seq<nat>, eoc: nat, c: nat, clst: nat): seq<seq<nat>>
    requires c < |f| && clst < |f|
  {
    [f[c := eoc]] + if clst == 0 then [] else [f[c := eoc][clst := c]]
  }

  // ----- remove_chain

  datatype Removal = Removal(ok: bool, fat: seq<nat>, freed: nat)

  // Free clusters from c on along the links; on any FAT this ends, since every round frees one more cluster.
  function Remove(f: seq<nat>, c: nat): (r: Removal)
    requires c >= 2
    ensures |r.fat| == |f|
    decreases |f| - CountFree(f)
  {
    FreeBelowBound(f, |f|);
    if c >= |f| || f[c] == 0 then Removal(true, f, 0)
    else if f[c] == 1 then Removal(false, f, 0)
    else
      CountFreeUpdate(f, c, 0);
      FreeBelowBound(f[c := 0], |f|);
      var r := Remove(f[c := 0], f[c]);
      Removal(r.ok, r.fat, r.freed + 1)
  }

  // The FATs a removal passes through.
  function RemovalTrace(f: seq<nat>, c: nat): (r: seq<seq<nat>>)
    requires c >= 2
    ensures |r| == Remove(f, c).freed
    decreases |f| - CountFree(f)
  {
    FreeBelowBound(f, |f|);
    if c >= |f| || f[c] < 2 then []
    else
      CountFreeUpdate(f, c, 0);
      FreeBelowBound(f[c := 0], |f|);
      [f[c := 0]] + RemovalTrace(f[c := 0], f[c])
  }

  // One round of a removal.
  lemma RemoveRound(f: seq<nat>, c: nat)
    requires c >= 2
    ensures c >= |f| || f[c] == 0 ==> Remove(f, c) == Removal(true, f, 0) && RemovalTrace(f, c) == []
    ensures c < |f| && f[c] == 1 ==> Remove(f, c) == Removal(false, f, 0) && RemovalTrace(f, c) == []
    ensures c < |f| && f[c] > 1 ==>
              var r := Remove(f[c := 0], f[c]);
              && Remove(f, c) == Removal(r.ok, r.fat, r.freed + 1)
              && RemovalTrace(f, c) == [f[c := 0]] + RemovalTrace(f[c := 0], f[c])
  {
  }

  // f with the entries of all clusters in cs set to 0.
  function Zeroed(f: seq<nat>, cs: seq<nat>): (r: seq<nat>)
    ensures |r| == |f|
  {
    seq(|f|, (c: nat) requires c < |f| => if c in cs then 0 else f[c])
  }

  // On a well-formed chain, removal frees exactly that chain.
  lemma {:induction false} RemoveFreesChain(f: seq<nat>, cs: seq<nat>)
    requires IsChain(f, cs)
    ensures Remove(f, cs[0]) == Removal(true, Zeroed(f, cs), |cs|)
    decreases |cs|
  {
    var c := cs[0];
    var h := f[c := 0];
    if |cs| == 1 {
      assert Remove(h, f[c]) == Removal(true, h, 0);
      assert Zeroed(f, cs) == h;
    } else {
      var ds := cs[1..];
      TailIsChain(f, cs);
      forall i | 0 <= i < |ds|
        ensures h[ds[i]] == f[ds[i]]
      {
        ChainDistinct(f, cs, 0, i + 1);
      }
      ChainFrame(f, h, ds);
      RemoveFreesChain(h, ds);
      assert f[c] == ds[0];
      assert Zeroed(h, ds) == Zeroed(f, cs);
    }
  }

  // On any FAT, removal only turns entries into 0, and reports how many.
  lemma {:induction false} RemoveOnlyFrees(f: seq<nat>, c: nat)
    requires c >= 2
    ensures forall k :: 0 <= k < |f| ==> Remove(f, c).fat[k] == f[k] || Remove(f, c).fat[k] == 0
    ensures CountFree(Remove(f, c).fat) == CountFree(f) + Remove(f, c).freed
    decreases |f| - CountFree(f)
  {
    FreeBelowBound(f, |f|);
    if c < |f| && f[c] > 1 {
      CountFreeUpdate(f, c, 0);
      FreeBelowBound(f[c := 0], |f|);
      RemoveOnlyFrees(f[c := 0], f[c]);
    }
  }

  // ----- runs of the two operations

  // Live chains by their heads: every one end-marked and acyclic, no two sharing a cluster.
  ghost predicate Forest(f: seq<nat>, chains: map<nat, seq<nat>>) {
    && (forall h :: h in chains ==> IsChain(f, chains[h]) && chains[h][0] == h)
    && (forall h, k :: h in chains && k in chains && h != k ==> Disjoint(chains[h], chains[k]))
  }

  predicate Disjoint(cs: seq<nat>, ds: seq<nat>) {
    forall i, j :: 0 <= i < |cs| && 0 <= j < |ds| ==> cs[i] != ds[j]
  }

  function Last(cs: seq<nat>): nat
    requires |cs| > 0
  {
    cs[|cs| - 1]
  }

  datatype Operation = Stretch(clst: dword) | Discard(head: dword)

  // The allocator state, with the live chains known to its users.
  datatype AllocState = AllocState(fat: seq<nat>, last: nat, free: int, chains: map<nat, seq<nat>>)

  // The chain known under some head once cluster c was linked behind cluster clst.
  function Appended(cs: seq<nat>, clst: nat, c: nat): seq<nat> {
    if |cs| > 0 && Last(cs) == clst then cs + [c] else cs
  }

  ghost predicate Consistent(s: AllocState, eoc: nat) {
    && 3 <= |s.fat| <= eoc
    && Forest(s.fat, s.chains)
    && s.free == CountFree(s.fat)
  }

  // A chain may be discarded only by its head.
  predicate Enabled(s: AllocState, op: Operation) {
    op.Discard? ==> op.head in s.chains && op.head >= 2
  }

  function Step(s: AllocState, eoc: nat, op: Operation): (t: AllocState)
    requires |s.fat| >= 3 && Enabled(s, op)
    ensures |t.fat| == |s.fat|
  {
    match op
    case Stretch(clst) =>
      var r := Create(s.fat, eoc, s.last, clst);
      if !r.grew then s.(fat := r.fat, last := r.last)
      else if clst == 0 then AllocState(r.fat, r.last, s.free - 1, s.chains[r.code := [r.code]])
      else AllocState(r.fat, r.last, s.free - 1, map h | h in s.chains :: Appended(s.chains[h], clst, r.code))
    case Discard(head) =>
      var r := Remove(s.fat, head);
      AllocState(r.fat, s.last, s.free + r.freed, s.chains - {head})
  }

  // Linking the free cluster c behind clst extends the chain that ends there and leaves any other as it is.
  lemma AppendKeepsChain(f: seq<nat>, eoc: nat, clst: nat, c: nat, cs: seq<nat>)
    requires IsChain(f, cs) && eoc >= |f| && IsCluster(f, c) && f[c] == 0
    requires IsCluster(f, clst) && f[clst] >= |f|
    ensures IsChain(f[c := eoc][clst := c], Appended(cs, clst, c))
    ensures Appended(cs, clst, c)[0] == cs[0] && c !in cs
  {
    var h := f[c := eoc][clst := c];
    forall i | 0 <= i < |cs|
      ensures cs[i] != c && (cs[i] == clst ==> i == |cs| - 1)
    {
      ChainEntries(f, cs, i);
    }
    if Last(cs) == clst {
      var ds := cs + [c];
      forall i | 0 <= i < |ds| - 1
        ensures h[ds[i]] == ds[i + 1]
      {
        if i < |cs| - 1 {
          assert f[cs[i]] == cs[i + 1] && cs[i] != clst;
        }
      }
    } else {
      ChainFrame(f, h, cs);
    }
  }

  lemma StartKeepsChain(f: seq<nat>, eoc: nat, c: nat, cs: seq<nat>)
    requires IsChain(f, cs) && eoc >= |f| && IsCluster(f, c) && f[c] == 0
    ensures IsChain(f[c := eoc], cs) && c !in cs
  {
    forall i | 0 <= i < |cs|
      ensures cs[i] != c
    {
      ChainEntries(f, cs, i);
    }
    ChainFrame(f, f[c := eoc], cs);
  }

  lemma AppendedDisjoint(cs: seq<nat>, ds: seq<nat>, clst: nat, c: nat)
    requires Disjoint(cs, ds) && |cs| > 0 && |ds| > 0 && c !in cs && c !in ds
    ensures Disjoint(Appended(cs, clst, c), Appended(ds, clst, c))
  {
    assert Last(cs) != Last(ds);
  }

  lemma StretchKeepsForest(s: AllocState, eoc: nat, clst: dword)
    requires Consistent(s, eoc)
    ensures Forest(Step(s, eoc, Stretch(clst)).fat, Step(s, eoc, Stretch(clst)).chains)
  {
    var r := Create(s.fat, eoc, s.last, clst);
    var t := Step(s, eoc, Stretch(clst));
    var f, c := s.fat, r.code;
    if r.grew && clst == 0 {
      forall h | h in s.chains
        ensures IsChain(r.fat, s.chains[h]) && c !in s.chains[h]
      {
        StartKeepsChain(f, eoc, c, s.chains[h]);
      }
    } else if r.grew {
      forall h | h in s.chains
        ensures IsChain(r.fat, t.chains[h]) && t.chains[h][0] == h && c !in s.chains[h]
      {
        AppendKeepsChain(f, eoc, clst, c, s.chains[h]);
      }
      forall h, k | h in t.chains && k in t.chains && h != k
        ensures Disjoint(t.chains[h], t.chains[k])
      {
        AppendedDisjoint(s.chains[h], s.chains[k], clst, c);
      }
    }
  }

  lemma DiscardKeepsForest(s: AllocState, eoc: nat, head: dword)
    requires Consistent(s, eoc) && Enabled(s, Discard(head))
    ensures Forest(Step(s, eoc, Discard(head)).fat, Step(s, eoc, Discard(head)).chains)
  {
    var cs := s.chains[head];
    RemoveFreesChain(s.fat, cs);
    var t := Step(s, eoc, Discard(head));
    forall h | h in t.chains
      ensures IsChain(t.fat, t.chains[h])
    {
      var ds := s.chains[h];
      assert Disjoint(ds, cs);
      ChainFrame(s.fat, t.fat, ds);
    }
  }

  lemma StepKeepsCount(s: AllocState, eoc: nat, op: Operation)
    requires Consistent(s, eoc) && Enabled(s, op)
    ensures Step(s, eoc, op).free == CountFree(Step(s, eoc, op).fat)
  {
    match op
    case Stretch(clst) =>
      var r := Create(s.fat, eoc, s.last, clst);
      if r.grew {
        CountFreeUpdate(s.fat, r.code, eoc);
        if clst != 0 {
          CountFreeUpdate(s.fat[r.code := eoc], clst, r.code);
        }
      }
    case Discard(head) =>
      RemoveOnlyFrees(s.fat, head);
  }

  // One operation keeps the live chains acyclic, end-marked and pairwise disjoint, and the free count exact.
  lemma StepKeepsConsistent(s: AllocState, eoc: nat, op: Operation)
    requires Consistent(s, eoc) && Enabled(s, op)
    ensures Consistent(Step(s, eoc, op), eoc)
  {
    match op {
      case Stretch(clst) => StretchKeepsForest(s, eoc, clst);
      case Discard(head) => DiscardKeepsForest(s, eoc, head);
    }
    StepKeepsCount(s, eoc, op);
  }

  // A run of the allocator in which every discarded head is live.
  predicate Legal(s: AllocState, eoc: nat, ops: seq<Operation>)
    requires |s.fat| >= 3
    decreases |ops|
  {
    ops == [] || (Enabled(s, ops[0]) && Legal(Step(s, eoc, ops[0]), eoc, ops[1..]))
  }

  function Run(s: AllocState, eoc: nat, ops: seq<Operation>): AllocState
    requires |s.fat| >= 3 && Legal(s, eoc, ops)
    decreases |ops|
  {
    if ops == [] then s else Run(Step(s, eoc, ops[0]), eoc, ops[1..])
  }

  // Every run keeps the live chains acyclic, end-marked and pairwise disjoint, and the free count exact.
  lemma {:induction false} RunKeepsConsistent(s: AllocState, eoc: nat, ops: seq<Operation>)
    requires Consistent(s, eoc) && Legal(s, eoc, ops)
    ensures Consistent(Run(s, eoc, ops), eoc)
    decreases |ops|
  {
    if ops != [] {
      StepKeepsConsistent(s, eoc, ops[0]);
      RunKeepsConsistent(Step(s, eoc, ops[0]), eoc, ops[1..]);
    }
  }
}
