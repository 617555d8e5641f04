/**
 The cluster link map of a file: a table of the runs of consecutive clusters in its chain,
 built once by f_lseek and searched instead of following the chain.
*/
module LinkMap {
  import opened Bytes
  import opened Geometry
  import opened DiskIO
  import opened FatMap
  import opened FatBytes
  import opened Volumes
  import opened Allocator
  import opened FileMap
  import Chains

  // A run of n consecutive clusters from top on.
  datatype Fragment = Fragment(n: nat, top: nat)

  // The length of the longest run of consecutive clusters in front of cs.
  function RunLength(cs: seq<nat>): (n: nat)
    requires cs != []
    ensures 1 <= n <= |cs|
    ensures forall i :: 0 <= i < n ==> cs[i] == cs[0] + i
    ensures n < |cs| ==> cs[n] != cs[n - 1] + 1
    decreases |cs|
  {
    if |cs| == 1 || cs[1] != cs[0] + 1 then 1 else RunLength(cs[1..]) + 1
  }

  // A chain cut into such runs.
  function Runs(cs: seq<nat>): (rs: seq<Fragment>)
    decreases |cs|
  {
    if cs == [] then [] else [Fragment(RunLength(cs), cs[0])] + Runs(cs[RunLength(cs)..])
  }

  // The clusters of a list of runs.
  function FragmentClusters(rs: seq<Fragment>): (cs: seq<nat>)
    decreases |rs|
  {
    if rs == [] then [] else seq(rs[0].n, (i: nat) => rs[0].top + i) + FragmentClusters(rs[1..])
  }

  // The runs list the chain.
  lemma {:induction false} RunsListChain(cs: seq<nat>)
    ensures FragmentClusters(Runs(cs)) == cs
    ensures forall i :: 0 <= i < |Runs(cs)| ==> Runs(cs)[i].n > 0
    decreases |cs|
  {
    if cs != [] {
      var rest := cs[RunLength(cs)..];
      RunsListChain(rest);
      RunsHead(cs, rest);
    }
  }

  lemma RunsHead(cs: seq<nat>, rest: seq<nat>)
    requires cs != [] && rest == cs[RunLength(cs)..] && FragmentClusters(Runs(rest)) == rest
    requires forall i :: 0 <= i < |Runs(rest)| ==> Runs(rest)[i].n > 0
    ensures FragmentClusters(Runs(cs)) == cs
    ensures forall i :: 0 <= i < |Runs(cs)| ==> Runs(cs)[i].n > 0
  {
    hide RunLength;
    var n, rs := RunLength(cs), Runs(rest);
    var r := Fragment(n, cs[0]);
    assert Runs(cs) == [r] + rs;
    hide Runs;
    ClustersOf(r, rs);
    RunIsPrefix(cs, n, rest);
  }

  lemma RunIsPrefix(cs: seq<nat>, n: nat, rest: seq<nat>)
    requires 0 < n <= |cs| && rest == cs[n..] && forall i :: 0 <= i < n ==> cs[i] == cs[0] + i
    ensures seq(n, (i: nat) => cs[0] + i) + rest == cs
  {
  }

  lemma ClustersOf(r: Fragment, rs: seq<Fragment>)
    ensures FragmentClusters([r] + rs) == seq(r.n, (i: nat) => r.top + i) + FragmentClusters(rs)
  {
    assert ([r] + rs)[1..] == rs;
  }

  // The runs are as few as possible: no run goes on where the one before it ends.
  lemma {:induction false} RunsAreMaximal(cs: seq<nat>, i: nat)
    requires i + 1 < |Runs(cs)|
    ensures Runs(cs)[i].top + Runs(cs)[i].n != Runs(cs)[i + 1].top
    decreases |cs|
  {
    var n := RunLength(cs);
    if i == 0 {
      assert Runs(cs)[1].top == cs[n];
    } else {
      RunsAreMaximal(cs[n..], i - 1);
    }
  }

  // The table items for a list of runs.
  function Items(rs: seq<Fragment>): (t: seq<nat>)
    ensures |t| == 2 * |rs|
    ensures forall i :: 0 <= i < |rs| ==> t[2 * i] == rs[i].n && t[2 * i + 1] == rs[i].top
    decreases |rs|
  {
    if rs == [] then [] else [rs[0].n, rs[0].top] + Items(rs[1..])
  }

  // The items of the whole table, terminated by 0.
  function Encoded(rs: seq<Fragment>): (t: seq<nat>)
    ensures |t| == 2 * |rs| + 1
    ensures forall i :: 0 <= i < |rs| ==> t[2 * i] == rs[i].n && t[2 * i + 1] == rs[i].top
    ensures t[2 * |rs|] == 0
  {
    Items(rs) + [0]
  }

  lemma {:induction false} ItemsAppend(rs: seq<Fragment>, r: Fragment)
    ensures Items(rs + [r]) == Items(rs) + [r.n, r.top]
    decreases |rs|
  {
    if rs == [] {
      assert rs + [r] == [r] && [r][1..] == [];
    } else {
      assert (rs + [r])[1..] == rs[1..] + [r];
      ItemsAppend(rs[1..], r);
    }
  }

  // The j-th cluster of a list of runs, 0 behind their end.
  function ClusterAt(rs: seq<Fragment>, j: nat): nat
    decreases |rs|
  {
    if rs == [] then 0 else if j < rs[0].n then rs[0].top + j else ClusterAt(rs[1..], j - rs[0].n)
  }

  lemma {:induction false} ClusterAtIsListed(rs: seq<Fragment>, j: nat)
    ensures ClusterAt(rs, j) == if j < |FragmentClusters(rs)| then FragmentClusters(rs)[j] else 0
    decreases |rs|
  {
    if rs != [] {
      var first := seq(rs[0].n, (i: nat) => rs[0].top + i);
      assert FragmentClusters(rs) == first + FragmentClusters(rs[1..]);
      if j >= rs[0].n {
        ClusterAtIsListed(rs[1..], j - rs[0].n);
      }
    }
  }

  // Look the cl-th cluster up in a table whose items encode the runs rs.
  method Lookup(tbl: array<dword>, cl: nat, ghost rs: seq<Fragment>) returns (c: nat)
    requires 1 + |Encoded(rs)| <= tbl.Length && tbl[1..1 + |Encoded(rs)|] == Encoded(rs)
    requires forall i :: 0 <= i < |rs| ==> rs[i].n > 0
    ensures c == ClusterAt(rs, cl)
  {
    var p: nat, k: nat := 1, cl;
    ghost var i := 0;
    assert rs[0..] == rs;
    while true
      invariant 0 <= i <= |rs| && p == 1 + 2 * i && ClusterAt(rs[i..], k) == ClusterAt(rs, cl) && k >= 0
      decreases |rs| - i
    {
      var ncl: nat := tbl[p];
      assert ncl == Encoded(rs)[2 * i];
      p := p + 1;
      if ncl == 0 { return 0; }
      assert ncl == rs[i].n && tbl[p] == Encoded(rs)[2 * i + 1] == rs[i].top;
      if k < ncl { break; }
      k := k - ncl;
      p := p + 1;
      assert rs[i..][1..] == rs[i + 1..];
      i := i + 1;
    }
    c := tbl[p];
    c := k + c;
  }

  // The longest run is determined by where it breaks off.
  lemma {:induction false} RunLengthIs(cs: seq<nat>, n: nat)
    requires 1 <= n <= |cs| && (forall i :: 0 <= i < n ==> cs[i] == cs[0] + i) && (n < |cs| ==> cs[n] != cs[n - 1] + 1)
    ensures RunLength(cs) == n
  {
  }

  // The end mark does not look like the cluster behind the last one.
  ghost predicate EndsApart(f: seq<nat>, cs: seq<nat>)
    requires cs != [] ==> Chains.IsChain(f, cs)
  {
    cs != [] ==> f[cs[|cs| - 1]] != cs[|cs| - 1] + 1
  }

  // The largest FAT16 volume, with one file in its last cluster.
  const LARGEST := Layout(Fat16, 1, 1, 16, 65527, 256, 1, 257, 258, 0)

  function EmptyDisk(n: nat): (v: seq<Sector>)
    ensures |v| == n && forall s :: 0 <= s < n ==> v[s] == ZeroSector()
  {
    seq(n, (s: nat) => ZeroSector())
  }

  lemma LargestIsSound()
    ensures LARGEST.Sound(65783)
  {
    TimesIsProduct(65525, 1);
  }

  lemma EmptyFat(c: nat)
    requires c < 65527
    ensures LARGEST.Checked(65783) && FatOf(LARGEST, EmptyDisk(65783))[c] == 0
  {
    LargestIsSound();
    LARGEST.Inside16(c, 65783);
  }

  // There, an end mark of 0xFFF7 looks like the cluster behind the last one.
  lemma EndMarkMistaken()
    ensures LARGEST.Sound(65783)
    ensures var v := Put(LARGEST, EmptyDisk(65783), 0xFFF6, 0xFFF7);
            && |v| == 65783 && ChainFrom(LARGEST, FatOf(LARGEST, v), 0xFFF6, [0xFFF6])
            && !EndsApart(FatOf(LARGEST, v), [0xFFF6])
  {
    hide FatOf, Put, Layout.Checked;
    LargestIsSound();
    PutIsUpdate(LARGEST, EmptyDisk(65783), 0xFFF6, 0xFFF7);
    EmptyFat(0xFFF6);
  }

  // Follow the run that starts with the k-th cluster of the chain.
  method FollowRun(fs: Volume, top: dword, ghost cs: seq<nat>, ghost k: nat)
    returns (res: FResult, ncl: dword, next: dword)
    requires fs.Valid() && Chains.IsChain(fs.fat, cs) && k < |cs| && top == cs[k]
    modifies fs`winsect, fs`wflag, fs.win, fs.disk
    ensures fs.Valid() && (res == Ok || res == IntErr)
    ensures res == Ok ==> ncl == RunLength(cs[k..]) && next == fs.fat[cs[k + ncl - 1]]
    ensures res == Ok <==> EndsApart(fs.fat, cs) || k + RunLength(cs[k..]) < |cs|
    ensures old(fs.disk.log) <= fs.disk.log
  {
    hide Volume.Valid, Chains.IsChain, RunLength, FromBytes, Layout.Checked, Layout.InFat;
    ghost var f, ds := fs.fat, cs[k..];
    var cl: dword, pcl: dword := top, 0;
    ChainLink(fs, cs, k);
    Chains.ChainBounded(f, cs);
    res, ncl := Ok, 0;
    while true
      invariant fs.Valid() && res == Ok && ncl <= |ds| && (ncl == 0 ==> cl == ds[0])
      invariant forall i :: 0 <= i < ncl ==> ds[i] == ds[0] + i
      invariant ncl < |ds| ==> cl == ds[ncl] && (ncl > 0 ==> cl == ds[ncl - 1] + 1)
      invariant ncl == |ds| ==> cl >= fs.g.nFatent && !EndsApart(f, cs) && RunLength(ds) == |ds|
      invariant old(fs.disk.log) <= fs.disk.log
      decreases |ds| - ncl
    {
      if ncl < |ds| { ChainLink(fs, cs, k + ncl); }
      pcl := cl;
      ncl := ncl + 1;
      cl := fs.GetFat(cl);
      if cl <= 1 { return IntErr, ncl, cl; }
      if cl == DISK_ERROR { return DiskErr, ncl, cl; }
      if ncl == |ds| || cl != pcl + 1 {
        RunLengthIs(ds, ncl);
      }
      if cl != pcl + 1 { break; }
    }
    next := cl;
  }

  lemma ChainLink(fs: Volume, cs: seq<nat>, i: nat)
    requires fs.Valid() && Chains.IsChain(fs.fat, cs) && i < |cs|
    ensures |fs.fat| == fs.g.nFatent <= 0x1000_0000 && fs.g.IsCluster(cs[i]) && 1 < fs.fat[cs[i]] < DISK_ERROR
    ensures if i < |cs| - 1 then fs.fat[cs[i]] == cs[i + 1] < fs.g.nFatent else fs.fat[cs[i]] >= fs.g.nFatent
  {
    Chains.ChainEntries(fs.fat, cs, i);
    EocEnds(fs.g, |fs.view|);
    EntryIsNoError(fs.g, fs.view, cs[i]);
  }

  // The table built so far: p items of the runs rs, stored as long as they fit into tlen items.
  ghost predicate Building(t: seq<dword>, before: seq<dword>, tlen: nat, rs: seq<Fragment>, p: nat) {
    && |t| == |before| >= 1 && tlen <= |t| && 1 <= p <= |t|
    && (2 * |rs| + 2 <= tlen ==> p == 1 + 2 * |rs| && t[1..p] == Items(rs))
    && (forall i :: 1 <= i < |t| && i >= tlen ==> t[i] == before[i])
  }

  // Store a run if the table has room for it.
  method StoreRun(tbl: array<dword>, tlen: nat, ulen: nat, p: nat, ncl: dword, tcl: dword, ghost rs: seq<Fragment>,
                  ghost before: seq<dword>)
    returns (q: nat)
    requires Building(tbl[..], before, tlen, rs, p) && ulen == 2 * |rs| + 4
    modifies tbl
    ensures tbl[0] == old(tbl[0]) && Building(tbl[..], before, tlen, rs + [Fragment(ncl, tcl)], q)
  {
    q := p;
    ItemsAppend(rs, Fragment(ncl, tcl));
    if ulen <= tlen {
      tbl[q] := ncl;
      q := q + 1;
      tbl[q] := tcl;
      q := q + 1;
      assert tbl[1..q] == tbl[1..p] + [ncl, tcl];
    }
  }

  // Follow the run that starts with the k-th cluster of the chain, and store it.
  method AddRun(fs: Volume, top: dword, tbl: array<dword>, tlen: nat, ulen: nat, p: nat, ghost cs: seq<nat>,
                ghost k: nat, ghost rs: seq<Fragment>, ghost before: seq<dword>)
    returns (res: FResult, q: nat, next: dword, ghost ts: seq<Fragment>, ghost n: nat)
    requires fs.Valid() && Chains.IsChain(fs.fat, cs) && k < |cs| && top == cs[k] && Runs(cs) == rs + Runs(cs[k..])
    requires Building(tbl[..], before, tlen, rs, p) && ulen == 2 * |rs| + 4
    modifies tbl, fs`winsect, fs`wflag, fs.win, fs.disk
    ensures fs.Valid() && tbl[0] == old(tbl[0]) && (res == Ok || res == IntErr)
    ensures res != Ok ==> tbl[..] == old(tbl[..]) && !EndsApart(fs.fat, cs)
    ensures res == Ok ==>
      && 1 <= n && k + n <= |cs| && Runs(cs) == ts + Runs(cs[k + n..])
      && Building(tbl[..], before, tlen, ts, q) && |ts| == |rs| + 1
      && if next >= fs.g.nFatent then k + n == |cs| && EndsApart(fs.fat, cs) else k + n < |cs| && next == cs[k + n]
    ensures old(fs.disk.log) <= fs.disk.log
  {
    hide *;
    q, ts, n := p, rs, 0;
    var ncl;
    RunsStep(cs, k, rs);
    res, ncl, next := FollowRun(fs, top, cs, k);
    if res == Ok {
      q := StoreRun(tbl, tlen, ulen, p, ncl, top, rs, before);
      ChainLink(fs, cs, k + ncl - 1);
      ts, n := rs + [Fragment(ncl, top)], ncl;
    }
  }

  // Build the table for the chain cs of start cluster sclust. It never stores behind the given number of items,
  // and always reports the number needed.
  method Build(fs: Volume, sclust: dword, tbl: array<dword>, ghost cs: seq<dword>) returns (res: FResult)
    requires fs.Valid() && ChainFrom(fs.g, fs.fat, sclust, cs) && 1 <= tbl.Length && tbl[0] <= tbl.Length
    modifies tbl, fs`winsect, fs`wflag, fs.win, fs.disk
    ensures fs.Valid()
    ensures !EndsApart(fs.fat, cs) ==> res == IntErr
    ensures EndsApart(fs.fat, cs) ==>
      var need, tlen := 2 + 2 * |Runs(cs)|, old(tbl[0]);
      && res == (if need <= tlen then Ok else NotEnoughCore)
      && tbl[0] == need
      && (need <= tlen ==> tbl[1..need] == Encoded(Runs(cs)))
    ensures forall i :: 1 <= i < tbl.Length && i >= old(tbl[0]) ==> tbl[i] == old(tbl[i])
    ensures old(fs.disk.log) <= fs.disk.log
  {
    hide Volume.Valid, Building, Chains.IsChain, Runs, RunLength, Items, Encoded, EndsApart, ChainFrom;
    ghost var before := tbl[..];
    var tlen: nat, ulen: nat, p: nat := tbl[0], 2, 1;
    var cl: dword := sclust;
    ghost var rs: seq<Fragment>, k: nat := [], 0;
    BuildStarts(before, tlen, cs);
    BuildFacts(fs, sclust, cs);
    res := Ok;
    if cl != 0 {
      while true
        invariant fs.Valid() && res == Ok && k < |cs| && cl == cs[k] && ulen == 2 + 2 * |rs| && |rs| <= k
        invariant tbl[0] == before[0]
        invariant Building(tbl[..], before, tlen, rs, p) && Runs(cs) == rs + Runs(cs[k..])
        invariant old(fs.disk.log) <= fs.disk.log
        decreases |cs| - k
      {
        ghost var n;
        NotBehind(tbl[..], before, tlen, rs, p);
        ulen := ulen + 2;
        res, p, cl, rs, n := AddRun(fs, cl, tbl, tlen, ulen, p, cs, k, rs, before);
        if res != Ok { return; }
        k := k + n;
        if cl >= fs.g.nFatent { break; }
      }
    }
    BuildEnds(tbl[..], before, tlen, rs, p, ulen);
    assert cs[k..] == [] && rs + Runs([]) == rs;
    tbl[0] := ulen;
    if ulen <= tlen {
      tbl[p] := 0;
    } else {
      res := NotEnoughCore;
    }
  }

  lemma BuildStarts(before: seq<dword>, tlen: nat, cs: seq<nat>)
    requires |before| >= 1 && tlen <= |before|
    ensures Building(before, before, tlen, [], 1) && Runs(cs) == [] + Runs(cs[0..]) && Runs([]) == []
  {
    assert cs[0..] == cs;
  }

  lemma NotBehind(t: seq<dword>, before: seq<dword>, tlen: nat, rs: seq<Fragment>, p: nat)
    requires Building(t, before, tlen, rs, p)
    ensures |t| == |before| && forall i :: 1 <= i < |t| && i >= tlen ==> t[i] == before[i]
  {
  }

  lemma RunsStep(cs: seq<nat>, k: nat, rs: seq<Fragment>)
    requires k < |cs| && Runs(cs) == rs + Runs(cs[k..])
    ensures var n := RunLength(cs[k..]);
            1 <= n && k + n <= |cs| && Runs(cs) == rs + [Fragment(n, cs[k])] + Runs(cs[k + n..])
  {
    hide Runs, RunLength;
    var ds := cs[k..];
    RunsUnfold(ds);
    var n := RunLength(ds);
    assert ds[n..] == cs[k + n..];
    Regrouped(rs, Fragment(n, cs[k]), Runs(ds[n..]));
  }

  lemma Regrouped(rs: seq<Fragment>, r: Fragment, ts: seq<Fragment>)
    ensures rs + ([r] + ts) == rs + [r] + ts
  {
  }

  lemma RunsUnfold(ds: seq<nat>)
    requires ds != []
    ensures Runs(ds) == [Fragment(RunLength(ds), ds[0])] + Runs(ds[RunLength(ds)..])
  {
  }

  lemma BuildEnds(t: seq<dword>, before: seq<dword>, tlen: nat, rs: seq<Fragment>, p: nat, u: dword)
    requires Building(t, before, tlen, rs, p)
    ensures |t| == |before| && 1 <= p <= |t| && forall i :: 1 <= i < |t| && i >= tlen ==> t[i] == before[i]
    ensures 2 * |rs| + 2 <= tlen ==> p == 1 + 2 * |rs| < tlen && t[0 := u][p := 0][1..p + 1] == Encoded(rs)
  {
    if 2 * |rs| + 2 <= tlen {
      assert t[0 := u][p := 0][1..p + 1] == t[1..p] + [0];
    }
  }

  lemma BuildFacts(fs: Volume, sclust: dword, cs: seq<dword>)
    requires fs.Valid() && ChainFrom(fs.g, fs.fat, sclust, cs)
    ensures sclust == 0 <==> cs == []
    ensures cs != [] ==> cs[0] == sclust && Chains.IsChain(fs.fat, cs)
    ensures |cs| <= |fs.fat| <= 0x1000_0000 && (cs == [] ==> EndsApart(fs.fat, cs))
  {
    EocEnds(fs.g, |fs.view|);
    if cs != [] {
      Chains.ChainBounded(fs.fat, cs);
    }
  }

  // A table built for a chain gives its clusters, and 0 behind its end.
  lemma TableGivesChain(cs: seq<nat>, j: nat)
    ensures ClusterAt(Runs(cs), j) == if j < |cs| then cs[j] else 0
  {
    RunsListChain(cs);
    ClusterAtIsListed(Runs(cs), j);
  }

  // The table holds the link map of chain cs.
  ghost predicate Maps(t: seq<dword>, cs: seq<nat>) {
    1 + |Encoded(Runs(cs))| <= |t| && t[1..1 + |Encoded(Runs(cs))|] == Encoded(Runs(cs))
  }

  // The cluster of byte ofs according to the table is the one the chain has there.
  method ClmtClust(g: Layout, tbl: array<dword>, ofs: dword, ghost cs: seq<nat>) returns (c: nat)
    requires g.csize > 0 && Maps(tbl[..], cs)
    ensures var k := Ordinal(g, ofs / 512);
            c == if k < |cs| then cs[k] else 0
  {
    hide FragmentClusters, ClusterAt, Encoded, Runs;
    RunsListChain(cs);
    TableGivesChain(cs, Ordinal(g, ofs / 512));
    c := Lookup(tbl, ofs / 512 / g.csize, Runs(cs));
  }
}
