/**
 The bytes of a file: where they lie along its cluster chain, and the state of an open file
 object over them.
*/
module FileMap {
  import opened Bytes
  import opened Geometry
  import opened DiskIO
  import Chains

  // The number of sectors in a chain.
  function Capacity(g: Layout, cs: seq<dword>): nat {
    Times(|cs|, g.csize)
  }

  // The cluster of a chain that holds its i-th sector, and the place of the sector in it.
  function Ordinal(g: Layout, i: nat): nat
    requires g.csize > 0
  {
    i / g.csize
  }

  function Rest(g: Layout, i: nat): nat
    requires g.csize > 0
  {
    i % g.csize
  }

  // Sector number of the i-th sector of a chain.
  function SectorAt(g: Layout, cs: seq<dword>, i: nat): nat
    requires g.csize > 0 && g.nFatent >= 2 && Ordinal(g, i) < |cs|
  {
    g.Clust2Sect(cs[Ordinal(g, i)]) + Rest(g, i)
  }

  // The chain cs lists valid clusters, none twice.
  ghost predicate Proper(g: Layout, cs: seq<dword>) {
    && (forall i :: 0 <= i < |cs| ==> g.IsCluster(cs[i]))
    && (forall i, j :: 0 <= i < j < |cs| ==> cs[i] != cs[j])
  }

  lemma ChainIsProper(g: Layout, f: seq<nat>, cs: seq<dword>)
    requires |f| == g.nFatent && (cs == [] || Chains.IsChain(f, cs))
    ensures Proper(g, cs)
  {
    forall i, j | 0 <= i < j < |cs|
      ensures cs[i] != cs[j]
    {
      Chains.ChainDistinct(f, cs, i, j);
    }
  }

  lemma InsideCapacity(g: Layout, cs: seq<dword>, i: nat)
    requires g.csize > 0
    ensures i < Capacity(g, cs) <==> Ordinal(g, i) < |cs|
  {
    TimesIsProduct(|cs|, g.csize);
    var q, r := i / g.csize, i % g.csize;
    assert i == q * g.csize + r;
    if q < |cs| {
      MulGap(|cs|, q, g.csize);
    } else if q > |cs| {
      MulGap(q, |cs|, g.csize);
    }
  }

  // The offset in front of the cluster behind a chain.
  lemma CapacityReached(g: Layout, cs: seq<dword>, p: nat)
    requires g.csize > 0
    ensures p % 512 == 0 && Rest(g, p / 512) == 0 && Ordinal(g, p / 512) == |cs| ==> p == 512 * Capacity(g, cs)
  {
    var i := p / 512;
    TimesIsProduct(i / g.csize, g.csize);
    assert i == i / g.csize * g.csize + i % g.csize;
  }

  // The i-th sector of a chain lies in the data area, in the cluster that holds it.
  lemma SectorPlace(g: Layout, cs: seq<dword>, i: nat, limit: nat)
    requires g.Checked(limit) && Proper(g, cs) && Ordinal(g, i) < |cs|
    ensures g.InCluster(cs[Ordinal(g, i)], SectorAt(g, cs, i))
    ensures g.fatbase + g.FatSectors() <= g.database <= SectorAt(g, cs, i) < limit
  {
    g.ClusterBlock(cs[Ordinal(g, i)], limit);
    g.FatsInside(limit);
  }

  // Different positions of a chain lie in different sectors.
  lemma SectorsDiffer(g: Layout, cs: seq<dword>, i: nat, j: nat, limit: nat)
    requires g.Checked(limit) && Proper(g, cs) && Ordinal(g, i) < |cs| && Ordinal(g, j) < |cs| && i != j
    ensures SectorAt(g, cs, i) != SectorAt(g, cs, j)
  {
    SameQuotient(g, i, j);
    SectorPlace(g, cs, i, limit);
    SectorPlace(g, cs, j, limit);
    hide Ordinal, Rest;
    var s, t := SectorAt(g, cs, i), SectorAt(g, cs, j);
    g.ClustersDisjoint(cs[Ordinal(g, i)], cs[Ordinal(g, j)], s, t, limit);
  }

  lemma SameQuotient(g: Layout, i: nat, j: nat)
    requires g.csize > 0 && i != j
    ensures Ordinal(g, i) != Ordinal(g, j) || Rest(g, i) != Rest(g, j)
  {
    assert i == i / g.csize * g.csize + i % g.csize && j == j / g.csize * g.csize + j % g.csize;
  }

  // Inside one cluster, consecutive positions lie in consecutive sectors.
  lemma SectorsAdjacent(g: Layout, cs: seq<dword>, i: nat, k: nat)
    requires g.csize > 0 && g.nFatent >= 2 && Ordinal(g, i) < |cs| && Rest(g, i) + k < g.csize
    ensures Ordinal(g, i + k) == Ordinal(g, i) && SectorAt(g, cs, i + k) == SectorAt(g, cs, i) + k
  {
    var q, r := i / g.csize, i % g.csize;
    assert i == q * g.csize + r;
    DivModUnique(i + k, g.csize, q, r + k);
  }

  // The cluster of the position in front of i: the same one, or the one before if i starts a cluster.
  lemma ClusterBefore(g: Layout, i: nat)
    requires i > 0 && g.csize > 0
    ensures Rest(g, i) != 0 ==> Ordinal(g, i - 1) == Ordinal(g, i)
    ensures Rest(g, i) == 0 ==> Ordinal(g, i) > 0 && Ordinal(g, i - 1) == Ordinal(g, i) - 1
  {
    var c := g.csize;
    var q, r := i / c, i % c;
    assert i == q * c + r;
    if r != 0 {
      DivModUnique(i - 1, c, q, r - 1);
    } else {
      assert q > 0;
      assert i - 1 == (q - 1) * c + (c - 1);
      DivModUnique(i - 1, c, q - 1, c - 1);
    }
  }

  // Byte p of the file on the sectors v.
  function ByteAt(g: Layout, v: seq<Sector>, cs: seq<dword>, p: nat): byte
    requires g.Checked(|v|) && Proper(g, cs) && Ordinal(g, p / 512) < |cs|
  {
    SectorPlace(g, cs, p / 512, |v|);
    v[SectorAt(g, cs, p / 512)][p % 512]
  }

  // The first n bytes of the file.
  function Data(g: Layout, v: seq<Sector>, cs: seq<dword>, n: nat): (d: seq<byte>)
    requires g.Checked(|v|) && Proper(g, cs) && n <= 512 * Capacity(g, cs)
    ensures |d| == n
  {
    seq(n, (p: nat) requires p < n => InsideCapacity(g, cs, p / 512); ByteAt(g, v, cs, p))
  }

  // ----- the state of an open file

  /** The fields of a file object, its buffer contents, and (for reasoning only) its chain cs and
      the position dk of the buffered sector in it. */
  datatype FileState = FileState(
    fptr: dword, fsize: dword, sclust: dword, clust: dword, dsect: nat, dirty: bool, buf: Sector,
    cs: seq<dword>, dk: nat)

  // The sectors as seen through the file's own buffer.
  function Through(v: seq<Sector>, s: FileState): (w: seq<Sector>)
    ensures |w| == |v|
  {
    if s.dirty && s.dsect < |v| then v[s.dsect := s.buf] else v
  }

  // cs is the chain that starts in cluster sclust; no chain for an empty file.
  ghost predicate ChainFrom(g: Layout, f: seq<nat>, sclust: dword, cs: seq<dword>) {
    && |f| == g.nFatent
    && (sclust == 0 <==> cs == [])
    && (cs != [] ==> Chains.IsChain(f, cs) && cs[0] == sclust)
  }

  // The chain is the file's, and the buffer holds a sector of it: the current one on disk unless dirty.
  ghost predicate Backed(g: Layout, f: seq<nat>, v: seq<Sector>, s: FileState) {
    && g.Checked(|v|)
    && ChainFrom(g, f, s.sclust, s.cs) && Proper(g, s.cs)
    && (s.dirty ==> s.dsect != 0)
    && (s.dsect != 0 ==>
          && s.dk < Capacity(g, s.cs) && Ordinal(g, s.dk) < |s.cs| && s.dsect == SectorAt(g, s.cs, s.dk) < |v|
          && (s.dirty || s.buf == v[s.dsect]))
  }

  // The read/write pointer lies in the chain; the current cluster holds the byte in front of it, and
  // the buffer the sector of it if it lies inside one.
  ghost predicate Tracking(g: Layout, s: FileState)
    requires g.csize > 0 && g.nFatent >= 2
  {
    && s.fptr <= 512 * Capacity(g, s.cs)
    && (s.fptr > 0 ==> Ordinal(g, (s.fptr - 1) / 512) < |s.cs| && s.clust == s.cs[Ordinal(g, (s.fptr - 1) / 512)])
    && (s.fptr % 512 != 0 ==> s.dsect != 0 && s.dk == s.fptr / 512)
  }

  ghost predicate Sane(g: Layout, f: seq<nat>, v: seq<Sector>, s: FileState) {
    Backed(g, f, v, s) && Tracking(g, s)
  }

  // The first n bytes of the file, unwritten buffer included.
  function Content(g: Layout, v: seq<Sector>, s: FileState, n: nat): (d: seq<byte>)
    requires g.Checked(|v|) && Proper(g, s.cs) && n <= 512 * Capacity(g, s.cs)
    ensures |d| == n
  {
    Data(g, Through(v, s), s.cs, n)
  }

  // Writing the dirty buffer back changes what is on the disk, not what the file contains.
  lemma FlushKeeps(g: Layout, f: seq<nat>, v: seq<Sector>, s: FileState)
    requires Backed(g, f, v, s) && s.dirty
    ensures s.dsect < |v|
    ensures var w, t := v[s.dsect := s.buf], s.(dirty := false);
            Backed(g, f, w, t) && Through(w, t) == Through(v, s)
  {
  }

  // The cluster the pointer is about to enter, on a sector boundary.
  function Entered(g: Layout, f: seq<nat>, s: FileState): nat
    requires |f| == g.nFatent && g.csize > 0
  {
    if BitAnd(s.fptr / 512, g.csize - 1) != 0 then s.clust
    else if s.fptr == 0 then s.sclust
    else if g.IsCluster(s.clust) then f[s.clust] else 1
  }

  // On a sector boundary in front of the end of the chain this is the cluster of the pointer, and the sector follows.
  lemma EnteredIsNext(g: Layout, f: seq<nat>, v: seq<Sector>, s: FileState)
    requires Sane(g, f, v, s) && s.fptr % 512 == 0 && s.fptr < 512 * Capacity(g, s.cs)
    ensures var i := s.fptr / 512;
            && Ordinal(g, i) < |s.cs| && Entered(g, f, s) == s.cs[Ordinal(g, i)] && g.IsCluster(s.cs[Ordinal(g, i)])
            && g.Clust2Sect(s.cs[Ordinal(g, i)]) > 0
            && g.Clust2Sect(s.cs[Ordinal(g, i)]) + BitAnd(i, g.csize - 1) == SectorAt(g, s.cs, i)
  {
    var i := s.fptr / 512;
    InsideCapacity(g, s.cs, i);
    MaskIsRemainder(i, g.csize);
    if s.fptr > 0 {
      ClusterBefore(g, i);
      assert (s.fptr - 1) / 512 == i - 1;
    } else {
      OrdinalZero(g);
    }
    g.ZeroIffInvalid(s.cs[Ordinal(g, i)], |v|);
  }

  lemma OrdinalZero(g: Layout)
    requires g.csize > 0
    ensures Ordinal(g, 0) == 0 && Rest(g, 0) == 0
  {
  }

  lemma OneInCluster(g: Layout, i: nat)
    requires g.csize > 0
    ensures Rest(g, i) + 1 <= g.csize
  {
  }

  // The bytes of a run of sectors inside one cluster.
  lemma RunByte(g: Layout, v: seq<Sector>, cs: seq<dword>, i: nat, cc: nat, q: nat)
    requires g.Checked(|v|) && Proper(g, cs) && Ordinal(g, i) < |cs| && Rest(g, i) + cc <= g.csize && q < 512 * cc
    ensures Ordinal(g, (512 * i + q) / 512) < |cs| && SectorAt(g, cs, i) + q / 512 < |v|
    ensures ByteAt(g, v, cs, 512 * i + q) == v[SectorAt(g, cs, i) + q / 512][q % 512]
  {
    assert (512 * i + q) / 512 == i + q / 512 && (512 * i + q) % 512 == q % 512;
    SectorsAdjacent(g, cs, i, q / 512);
    SectorPlace(g, cs, i + q / 512, |v|);
  }

  // A run inside one cluster of the chain: it lies in the data area and holds no sector of any other cluster.
  lemma RunPlace(g: Layout, cs: seq<dword>, i: nat, cc: nat, t: nat, limit: nat)
    requires g.Checked(limit) && Proper(g, cs) && Ordinal(g, i) < |cs| && Rest(g, i) + cc <= g.csize
    requires SectorAt(g, cs, i) <= t < SectorAt(g, cs, i) + cc
    ensures g.InCluster(cs[Ordinal(g, i)], t) && t < limit
    ensures g.fatbase + g.FatSectors() <= SectorAt(g, cs, i)
  {
    SectorsAdjacent(g, cs, i, t - SectorAt(g, cs, i));
    SectorPlace(g, cs, i, limit);
    SectorPlace(g, cs, i + (t - SectorAt(g, cs, i)), limit);
  }

  lemma ContentAt(g: Layout, v: seq<Sector>, s: FileState, n: nat, p: nat)
    requires g.Checked(|v|) && Proper(g, s.cs) && n <= 512 * Capacity(g, s.cs) && p < n
    ensures Ordinal(g, p / 512) < |s.cs| && Content(g, v, s, n)[p] == ByteAt(g, Through(v, s), s.cs, p)
  {
    InsideCapacity(g, s.cs, p / 512);
  }

  // What a direct read of cc sectors at the pointer finds, before and after the dirty buffer is laid over it.
  lemma DirectByte(g: Layout, f: seq<nat>, v: seq<Sector>, s: FileState, n: nat, cc: nat, q: nat)
    requires Backed(g, f, v, s) && s.fptr % 512 == 0 && n <= 512 * Capacity(g, s.cs) && s.fptr + 512 * cc <= n
    requires Ordinal(g, s.fptr / 512) < |s.cs| && Rest(g, s.fptr / 512) + cc <= g.csize && q < 512 * cc
    ensures SectorAt(g, s.cs, s.fptr / 512) + q / 512 < |v|
    ensures Content(g, v, s, n)[s.fptr + q] ==
            if s.dirty && s.dsect == SectorAt(g, s.cs, s.fptr / 512) + q / 512 then s.buf[q % 512]
            else v[SectorAt(g, s.cs, s.fptr / 512) + q / 512][q % 512]
  {
    ContentAt(g, v, s, n, s.fptr + q);
    RunByte(g, Through(v, s), s.cs, s.fptr / 512, cc, q);
  }

  // Sectors read directly are the contents, once a dirty buffer among them is put in place.
  lemma DirectData(g: Layout, f: seq<nat>, v: seq<Sector>, s: FileState, n: nat, cc: nat, raw: seq<byte>,
                   data: seq<byte>, overlay: bool)
    requires Backed(g, f, v, s) && s.fptr % 512 == 0 && n <= 512 * Capacity(g, s.cs) && s.fptr + 512 * cc <= n
    requires Ordinal(g, s.fptr / 512) < |s.cs| && Rest(g, s.fptr / 512) + cc <= g.csize
    requires var sect := SectorAt(g, s.cs, s.fptr / 512);
             && sect + cc <= |v| && raw == Gather(v, sect, cc)
             && (overlay <==> s.dirty && sect <= s.dsect < sect + cc)
             && var x := 512 * (s.dsect - sect);
                data == if overlay then raw[..x] + s.buf + raw[x + 512..] else raw
    ensures data == Content(g, v, s, n)[s.fptr..s.fptr + 512 * cc]
  {
    hide Content, SectorAt, Ordinal, Rest, Capacity, Gather, Proper, ChainFrom, Layout.FatBytes, Layout.VolumeEnd;
    var sect := SectorAt(g, s.cs, s.fptr / 512);
    forall q | 0 <= q < 512 * cc
      ensures data[q] == Content(g, v, s, n)[s.fptr + q]
    {
      DirectByte(g, f, v, s, n, cc, q);
      if overlay { Spliced(raw, s.buf, s.dsect - sect, q); }
    }
  }

  // Sector k of raw replaced by x.
  lemma Spliced(raw: seq<byte>, x: Sector, k: nat, q: nat)
    requires q < |raw| && 512 * k + 512 <= |raw|
    ensures (raw[..512 * k] + x + raw[512 * k + 512..])[q] == if q / 512 == k then x[q % 512] else raw[q]
  {
  }

  // A dirty buffer in front of the pointer.
  lemma BufferInFront(g: Layout, f: seq<nat>, v: seq<Sector>, s: FileState)
    requires Backed(g, f, v, s) && s.dirty
    ensures s.dsect != 0
  {
  }

  // A buffer behind the pointer is not touched by a direct transfer at the pointer.
  lemma BufferBehind(g: Layout, f: seq<nat>, v: seq<Sector>, s: FileState, cc: nat)
    requires Backed(g, f, v, s) && s.dsect != 0 && s.dk < s.fptr / 512
    requires Ordinal(g, s.fptr / 512) < |s.cs| && Rest(g, s.fptr / 512) + cc <= g.csize
    ensures !(SectorAt(g, s.cs, s.fptr / 512) <= s.dsect < SectorAt(g, s.cs, s.fptr / 512) + cc)
  {
    var i := s.fptr / 512;
    if SectorAt(g, s.cs, i) <= s.dsect < SectorAt(g, s.cs, i) + cc {
      var k := s.dsect - SectorAt(g, s.cs, i);
      SectorsAdjacent(g, s.cs, i, k);
      SectorsDiffer(g, s.cs, s.dk, i + k, |v|);
    }
  }

  // Neither the window nor any metadata lies in the clusters cs.
  ghost predicate Apart(g: Layout, winsect: nat, meta: set<nat>, cs: seq<dword>)
    requires g.nFatent >= 2
  {
    forall i :: 0 <= i < |cs| ==> !g.InCluster(cs[i], winsect) && forall s :: s in meta ==> !g.InCluster(cs[i], s)
  }

  // A run inside one cluster of such a chain lies in the data area, outside window and metadata.
  lemma RunApart(g: Layout, winsect: nat, meta: set<nat>, cs: seq<dword>, i: nat, cc: nat, limit: nat)
    requires g.Checked(limit) && Proper(g, cs) && Apart(g, winsect, meta, cs)
    requires Ordinal(g, i) < |cs| && 1 <= cc && Rest(g, i) + cc <= g.csize
    ensures var s := SectorAt(g, cs, i);
            && g.fatbase + g.FatSectors() <= s && s + cc <= limit <= 0x1_0000_0000 && !(s <= winsect < s + cc)
            && forall t: nat :: s <= t < s + cc ==> t !in meta
  {
    var s := SectorAt(g, cs, i);
    forall t: nat | s <= t < s + cc
      ensures g.InCluster(cs[Ordinal(g, i)], t) && t < limit
    {
      RunPlace(g, cs, i, cc, t, limit);
    }
    RunPlace(g, cs, i, cc, s, limit);
    hide Ordinal, Rest, Layout.Checked;
    assert g.InCluster(cs[Ordinal(g, i)], s + cc - 1);
  }

  // Byte p of the file when its sector is the one in the buffer.
  lemma BufferedByte(g: Layout, f: seq<nat>, v: seq<Sector>, s: FileState, n: nat, p: nat)
    requires Backed(g, f, v, s) && n <= 512 * Capacity(g, s.cs) && p < n && s.dsect != 0 && s.dk == p / 512
    ensures Content(g, v, s, n)[p] == s.buf[p % 512]
  {
    ContentAt(g, v, s, n, p);
  }

  // w differs from v only in the FAT copies and in the clusters cs.
  ghost predicate OnlyIn(g: Layout, cs: seq<dword>, v: seq<Sector>, w: seq<Sector>)
    requires g.nFatent >= 2
  {
    |v| == |w| && forall s :: 0 <= s < |v| && w[s] != v[s] ==> g.InFats(s) || exists i ::
      0 <= i < |cs| && g.InCluster(cs[i], s)
  }

  // Loading the i-th sector of the chain into a clean buffer.
  lemma LoadKeeps(g: Layout, f: seq<nat>, v: seq<Sector>, s: FileState, i: nat)
    requires Backed(g, f, v, s) && !s.dirty && Ordinal(g, i) < |s.cs|
    ensures 0 < SectorAt(g, s.cs, i) < |v|
    ensures Backed(g, f, v, s.(dsect := SectorAt(g, s.cs, i), dk := i, buf := v[SectorAt(g, s.cs, i)]))
  {
    SectorPlace(g, s.cs, i, |v|);
    InsideCapacity(g, s.cs, i);
  }

  // The position of the buffered sector is determined by its number.
  lemma BufferPosition(g: Layout, f: seq<nat>, v: seq<Sector>, s: FileState, i: nat)
    requires Backed(g, f, v, s) && Ordinal(g, i) < |s.cs|
    ensures SectorAt(g, s.cs, i) > 0 && (s.dsect == SectorAt(g, s.cs, i) ==> s.dk == i)
  {
    SectorPlace(g, s.cs, i, |v|);
    if s.dsect == SectorAt(g, s.cs, i) && s.dk != i {
      SectorsDiffer(g, s.cs, s.dk, i, |v|);
    }
  }

  // The current cluster holds the sector of the pointer.
  ghost predicate Entering(g: Layout, s: FileState)
    requires g.csize > 0
  {
    Ordinal(g, s.fptr / 512) < |s.cs| && s.clust == s.cs[Ordinal(g, s.fptr / 512)]
  }

  // Inside a sector the current cluster is the one of the pointer.
  lemma InsideSector(g: Layout, s: FileState)
    requires g.csize > 0 && g.nFatent >= 2 && Tracking(g, s) && s.fptr % 512 != 0
    ensures Entering(g, s)
  {
    assert (s.fptr - 1) / 512 == s.fptr / 512;
  }

  // Moving the pointer on inside the buffered sector, or to its end.
  lemma AdvancePartial(g: Layout, s: FileState, n: nat)
    requires g.csize > 0 && g.nFatent >= 2 && Entering(g, s) && s.dsect != 0 && s.dk == s.fptr / 512
    requires 0 < n <= 512 - s.fptr % 512 && s.fptr + n < 0x1_0000_0000
    ensures Tracking(g, s.(fptr := s.fptr + n))
  {
    var i := s.fptr / 512;
    assert (s.fptr + n - 1) / 512 == i;
    InsideCapacity(g, s.cs, i);
  }

  // Moving the pointer on over cc whole sectors of its cluster.
  lemma AdvanceWhole(g: Layout, s: FileState, cc: nat)
    requires g.csize > 0 && g.nFatent >= 2 && Entering(g, s) && s.fptr % 512 == 0
    requires 0 < cc && Rest(g, s.fptr / 512) + cc <= g.csize && s.fptr + 512 * cc < 0x1_0000_0000
    ensures Tracking(g, s.(fptr := s.fptr + 512 * cc))
  {
    var i := s.fptr / 512;
    assert (s.fptr + 512 * cc - 1) / 512 == i + (cc - 1);
    SectorsAdjacent(g, s.cs, i, cc - 1);
    InsideCapacity(g, s.cs, i + (cc - 1));
  }

  // How many of n whole sectors from the i-th on a direct transfer takes: it is clipped at the cluster end.
  function Clip(g: Layout, i: nat, n: nat): int
    requires g.csize > 0
  {
    if BitAnd(i, g.csize - 1) + n > g.csize then g.csize - BitAnd(i, g.csize - 1) else n
  }

  lemma ClipFits(g: Layout, i: nat, n: nat)
    requires PowerOfTwo(g.csize) && g.csize > 0 && n > 0
    ensures 0 < Clip(g, i, n) <= n && Rest(g, i) + Clip(g, i, n) <= g.csize
  {
    MaskIsRemainder(i, g.csize);
    OneInCluster(g, i);
  }

  lemma NothingChanged(g: Layout, cs: seq<dword>, v: seq<Sector>)
    requires g.nFatent >= 2
    ensures OnlyIn(g, cs, v, v)
  {
  }

  lemma OnlyInTransitive(g: Layout, cs: seq<dword>, u: seq<Sector>, v: seq<Sector>, w: seq<Sector>)
    requires g.nFatent >= 2 && OnlyIn(g, cs, u, v) && OnlyIn(g, cs, v, w)
    ensures OnlyIn(g, cs, u, w)
  {
  }

  // Everything a file object with contents d needs: its chain and buffer are in order, they hold d, and
  // neither the window nor metadata interferes. Without f_lseek a dirty buffer never lies at or behind the pointer.
  ghost predicate Fit(g: Layout, f: seq<nat>, v: seq<Sector>, s: FileState, d: seq<byte>, winsect: nat,
                      meta: set<nat>, seeking: bool) {
    && Backed(g, f, v, s)
    && |d| <= 512 * Capacity(g, s.cs)
    && d == Content(g, v, s, |d|)
    && Apart(g, winsect, meta, s.cs)
    && (!seeking && s.dirty ==> 512 * s.dk < s.fptr)
  }
}
