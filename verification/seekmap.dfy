/**
 Seeking in a file: clusters and sectors of byte offsets, whichever cluster the search
 for them starts from.
*/
module SeekMap {
  import opened Bytes
  import opened Geometry
  import opened FatMap
  import opened FileMap
  import opened FileGrowth
  import Chains

  // The offset of the first byte in the k-th cluster of a file.
  function Begin(g: Layout, k: nat): nat {
    512 * Times(k, g.csize)
  }

  // Bytes per cluster.
  function ClusterBytes(g: Layout): nat {
    512 * g.csize
  }

  lemma BeginNext(g: Layout, k: nat)
    ensures Begin(g, 0) == 0 && Begin(g, k + 1) == Begin(g, k) + ClusterBytes(g)
    ensures Begin(g, k) % 512 == 0
  {
  }

  // Byte p lies in the k-th cluster exactly when k is its offset divided by the cluster size.
  lemma ByteInCluster(g: Layout, p: nat, k: nat)
    requires g.csize > 0
    ensures Begin(g, k) <= p < Begin(g, k) + ClusterBytes(g) <==> Ordinal(g, p / 512) == k
    ensures Ordinal(g, p / 512) == p / ClusterBytes(g)
    ensures Ordinal(g, p / 512) == k ==>
        p - Begin(g, k) == p % ClusterBytes(g) && Rest(g, p / 512) == (p - Begin(g, k)) / 512
  {
    var i, q := p / 512, p % 512;
    var j, r := i / g.csize, i % g.csize;
    assert i == j * g.csize + r;
    TimesIsProduct(j, g.csize);
    TimesIsProduct(k, g.csize);
    assert p == j * ClusterBytes(g) + (512 * r + q) by {
      assert j * (512 * g.csize) == 512 * (j * g.csize);
    }
    DivModUnique(p, ClusterBytes(g), j, 512 * r + q);
    if k < j {
      MulGap(j, k, g.csize);
    } else if j < k {
      MulGap(k, j, g.csize);
    }
  }

  lemma Doubled(n: nat)
    requires PowerOfTwo(n)
    ensures PowerOfTwo(2 * n)
  {
    assert 2 * n % 2 == 0 && 2 * n / 2 == n;
  }

  lemma Power8(n: nat)
    requires PowerOfTwo(n)
    ensures PowerOfTwo(8 * n)
  {
    hide PowerOfTwo;
    Doubled(n);
    Doubled(2 * n);
    Doubled(2 * (2 * n));
  }

  lemma Power512(n: nat)
    requires PowerOfTwo(n)
    ensures PowerOfTwo(512 * n)
  {
    hide PowerOfTwo;
    Power8(n);
    Power8(8 * n);
    Power8(8 * (8 * n));
  }

  // Masking an offset with the cluster size gives the start of its cluster.
  lemma MaskedStart(g: Layout, p: nat)
    requires g.csize > 0 && PowerOfTwo(g.csize)
    ensures p - BitAnd(p, ClusterBytes(g) - 1) == Begin(g, Ordinal(g, p / 512))
  {
    Power512(g.csize);
    MaskIsRemainder(p, ClusterBytes(g));
    ByteInCluster(g, p, Ordinal(g, p / 512));
  }

  lemma CapacityIsBegin(g: Layout, cs: seq<dword>)
    ensures 512 * Capacity(g, cs) == Begin(g, |cs|)
  {
  }

  lemma {:induction false} BeginMonotonic(g: Layout, j: nat, k: nat)
    requires j <= k
    ensures Begin(g, j) <= Begin(g, k) && (j < k ==> Begin(g, j) + ClusterBytes(g) <= Begin(g, k))
    decreases k
  {
    if j < k {
      TimesGap(k, j, g.csize);
    }
  }

  // With f_lseek, pointer and current cluster do not matter to chain, buffer and contents.
  lemma FitAnyPlace(g: Layout, f: seq<nat>, v: seq<Sector>, s: FileState, p: dword, c: dword, d: seq<byte>,
                    winsect: nat, meta: set<nat>)
    ensures Fit(g, f, v, s, d, winsect, meta, true) == Fit(g, f, v, s.(fptr := p, clust := c), d, winsect, meta, true)
  {
  }

  // The place of the pointer, buffer aside.
  ghost predicate PointerPlaced(g: Layout, s: FileState)
    requires g.csize > 0
  {
    && s.fptr <= 512 * Capacity(g, s.cs)
    && (s.fptr > 0 ==> Ordinal(g, (s.fptr - 1) / 512) < |s.cs| && s.clust == s.cs[Ordinal(g, (s.fptr - 1) / 512)])
  }

  // The pointer moved to offset p, in the k-th cluster or at its end.
  lemma PlacedIn(g: Layout, s: FileState, k: nat, p: dword)
    requires g.csize > 0 && k < |s.cs| && Begin(g, k) < p <= Begin(g, k) + ClusterBytes(g)
    ensures PointerPlaced(g, s.(fptr := p, clust := s.cs[k]))
  {
    ByteInCluster(g, p - 1, k);
    BeginMonotonic(g, k + 1, |s.cs|);
    BeginNext(g, k);
  }

  // Sector of a pointer inside a sector of the k-th cluster.
  lemma SectorInCluster(g: Layout, cs: seq<dword>, k: nat, p: nat)
    requires g.csize > 0 && g.nFatent >= 2 && k < |cs| && Begin(g, k) <= p < Begin(g, k) + ClusterBytes(g)
    ensures Ordinal(g, p / 512) < |cs| && SectorAt(g, cs, p / 512) == g.Clust2Sect(cs[k]) + (p - Begin(g, k)) / 512
  {
    ByteInCluster(g, p, k);
  }

  // The start of a cluster behind the first.
  lemma NextPlace(g: Layout, k: nat)
    requires g.csize > 0
    ensures Begin(g, k + 1) > 0 && Begin(g, k + 1) % 512 == 0
    ensures Ordinal(g, Begin(g, k + 1) / 512) == k + 1 && Rest(g, Begin(g, k + 1) / 512) == 0
  {
    hide Ordinal, Rest, Begin;
    BeginNext(g, k);
    BeginNext(g, k + 1);
    ByteInCluster(g, Begin(g, k + 1), k + 1);
  }

  // With a clean buffer, the pointer may stand behind any cluster of the chain.
  lemma MayStandBehind(g: Layout, f: seq<nat>, v: seq<Sector>, s: FileState, k: nat)
    requires Backed(g, f, v, s) && k < |s.cs| && Begin(g, k + 1) < 0x1_0000_0000
    ensures g.csize > 0 && |f| >= 3
    ensures Sane(g, f, v, s.(fptr := Begin(g, k + 1), clust := s.cs[k], dsect := 0, dirty := false))
  {
    hide Ordinal, Rest, Begin, Capacity, Proper, PowerOfTwo, Layout.FatBytes, Layout.VolumeEnd, SectorAt;
    var t := s.(fptr := Begin(g, k + 1), clust := s.cs[k], dsect := 0, dirty := false);
    NextPlace(g, k);
    BeginNext(g, k);
    PlacedIn(g, t, k, t.fptr);
  }

  // Stretching behind the k-th cluster enters the next one.
  lemma NextEntered(g: Layout, f: seq<nat>, v: seq<Sector>, eoc: nat, last: nat, s: FileState, k: nat)
    requires Backed(g, f, v, s) && |f| == g.nFatent && eoc >= |f| && k < |s.cs| && Begin(g, k + 1) < 0x1_0000_0000
    ensures g.csize > 0
    ensures var t := s.(fptr := Begin(g, k + 1), clust := s.cs[k]);
            && t.fptr > 0 && Ordinal(g, t.fptr / 512) == k + 1
            && EntersNext(g, f, eoc, t, Chains.Create(f, eoc, last, s.cs[k]))
  {
    hide Ordinal, Rest, Begin, Chains.Create, Backed, Sane, Linked, NoneFree, HasOne;
    MayStandBehind(g, f, v, s, k);
    NextPlace(g, k);
    StretchOutcome(g, f, v, eoc, last, s.(fptr := Begin(g, k + 1), clust := s.cs[k], dsect := 0, dirty := false));
  }

  // Growing contents by what the sectors hold leaves the old contents in front.
  lemma ContentPrefix(g: Layout, v: seq<Sector>, s: FileState, m: nat, n: nat)
    requires g.Checked(|v|) && Proper(g, s.cs) && m <= n <= 512 * Capacity(g, s.cs)
    ensures Content(g, v, s, m) == Content(g, v, s, n)[..m]
  {
    forall p | 0 <= p < m
      ensures Content(g, v, s, m)[p] == Content(g, v, s, n)[p]
    {
      ContentAt(g, v, s, m, p);
      ContentAt(g, v, s, n, p);
    }
  }

  // Where a pointer came from does not matter: the state of the same file at the same offset has the same current
  // cluster and, inside a sector, the same buffered sector, the one that holds the byte at the pointer.
  lemma PathIndependent(g: Layout, f: seq<nat>, v: seq<Sector>, s: FileState, t: FileState)
    requires Sane(g, f, v, s) && Sane(g, f, v, t) && s.sclust == t.sclust && s.fptr == t.fptr
    ensures s.cs == t.cs && (s.fptr > 0 ==> s.clust == t.clust)
    ensures s.fptr % 512 != 0 ==> s.dsect == t.dsect == SectorAt(g, s.cs, s.fptr / 512)
    ensures s.fptr % 512 != 0 && !s.dirty && !t.dirty ==> s.buf == t.buf
  {
    if s.cs != [] {
      Chains.SameTail(f, s.cs, t.cs);
    }
  }
}
