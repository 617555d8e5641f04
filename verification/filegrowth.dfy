/**
 What writing does to the bytes of a file: patches of its contents, growth of its chain, and
 the buffer in between.
*/
module FileGrowth {
  import opened Bytes
  import opened Geometry
  import opened DiskIO
  import opened FatMap
  import opened FileMap
  import Chains

  // d with the bytes from pos on replaced by x, extended if x reaches behind the end.
  function Patch(d: seq<byte>, pos: nat, x: seq<byte>): (r: seq<byte>)
    requires pos <= |d|
    ensures |r| == if pos + |x| < |d| then |d| else pos + |x|
    ensures forall p :: 0 <= p < |r| ==> r[p] == if pos <= p < pos + |x| then x[p - pos] else d[p]
  {
    d[..pos] + x + if pos + |x| < |d| then d[pos + |x|..] else []
  }

  // Two patches, one right behind the other, are one.
  lemma PatchesJoin(d: seq<byte>, pos: nat, x: seq<byte>, y: seq<byte>)
    requires pos <= |d|
    ensures Patch(Patch(d, pos, x), pos + |x|, y) == Patch(d, pos, x + y)
  {
  }

  // ----- growth of the chain

  // FAT h extends chain cs of FAT f to chain ds by formerly free clusters and changes nothing else.
  ghost predicate Grown(f: seq<nat>, h: seq<nat>, cs: seq<dword>, ds: seq<dword>) {
    && |f| == |h| && cs <= ds
    && (forall c :: 0 <= c < |f| && (forall i :: 0 <= i < |ds| ==> ds[i] != c) ==> h[c] == f[c])
    && (forall i :: |cs| <= i < |ds| ==> 0 < ds[i] < |f| && f[ds[i]] == 0)
  }

  lemma GrownTransitive(f: seq<nat>, g: seq<nat>, h: seq<nat>, cs: seq<dword>, ds: seq<dword>, es: seq<dword>)
    requires Grown(f, g, cs, ds) && Grown(g, h, ds, es)
    requires forall i, j :: 0 <= i < |ds| <= j < |es| ==> es[j] != ds[i]
    ensures Grown(f, h, cs, es)
  {
    forall c | 0 <= c < |f| && (forall i :: 0 <= i < |es| ==> es[i] != c)
      ensures h[c] == f[c]
    {
      assert forall i :: 0 <= i < |ds| ==> ds[i] == es[i];
    }
    forall i | |cs| <= i < |es|
      ensures 0 < es[i] < |f| && f[es[i]] == 0
    {
      if i < |ds| {
        assert es[i] == ds[i];
      } else {
        assert forall j :: 0 <= j < |ds| ==> ds[j] != es[i];
      }
    }
  }

  lemma NothingGrown(f: seq<nat>, cs: seq<dword>)
    ensures Grown(f, f, cs, cs)
  {
  }

  // The FAT after cluster c was allocated behind the last cluster of cs.
  function Linked(f: seq<nat>, eoc: nat, cs: seq<dword>, c: nat): seq<nat>
    requires c < |f| && (cs != [] ==> cs[|cs| - 1] < |f|)
  {
    if cs == [] then f[c := eoc] else f[c := eoc][cs[|cs| - 1] := c]
  }

  lemma LinkedExtends(g: Layout, f: seq<nat>, eoc: nat, start: dword, cs: seq<dword>, c: dword)
    requires ChainFrom(g, f, start, cs) && g.IsCluster(c) && f[c] == 0 && eoc >= |f|
    ensures cs != [] ==> cs[|cs| - 1] < |f|
    ensures ChainFrom(g, Linked(f, eoc, cs, c), if cs == [] then c else start, cs + [c])
    ensures Grown(f, Linked(f, eoc, cs, c), cs, cs + [c]) && c !in cs
  {
    if cs == [] {
    } else {
      var last := cs[|cs| - 1];
      Chains.AppendKeepsChain(f, eoc, last, c, cs);
      var ds := cs + [c];
      assert Chains.Appended(cs, last, c) == ds;
      assert ds[|cs|] == c && ds[|cs| - 1] == last;
    }
  }

  // Growth of the chain moves no byte of the file.
  lemma SectorStays(g: Layout, cs: seq<dword>, ds: seq<dword>, i: nat)
    requires g.csize > 0 && g.nFatent >= 2 && cs <= ds && Ordinal(g, i) < |cs|
    ensures SectorAt(g, ds, i) == SectorAt(g, cs, i)
  {
    assert ds[Ordinal(g, i)] == cs[Ordinal(g, i)];
  }

  lemma CapacityGrows(g: Layout, cs: seq<dword>, ds: seq<dword>)
    requires |cs| <= |ds|
    ensures Capacity(g, cs) <= Capacity(g, ds)
    ensures |cs| < |ds| ==> Capacity(g, cs) + g.csize <= Capacity(g, ds)
  {
    if |cs| < |ds| {
      TimesGap(|ds|, |cs|, g.csize);
    }
  }

  lemma GrowthKeepsByte(g: Layout, v: seq<Sector>, w: seq<Sector>, cs: seq<dword>, ds: seq<dword>, p: nat)
    requires g.Checked(|v|) && |v| == |w| && Proper(g, cs) && Proper(g, ds) && cs <= ds && Ordinal(g, p / 512) < |cs|
    requires forall s :: 0 <= s < |v| && !g.InFats(s) ==> w[s] == v[s]
    ensures ByteAt(g, w, ds, p) == ByteAt(g, v, cs, p)
  {
    SectorStays(g, cs, ds, p / 512);
    SectorPlace(g, cs, p / 512, |v|);
  }

  // A chain that grew, with the FAT sectors that record it, still backs the file, and the contents are the same.
  lemma GrowthKeeps(g: Layout, f: seq<nat>, h: seq<nat>, v: seq<Sector>, w: seq<Sector>, s: FileState, start: dword,
                    ds: seq<dword>, n: nat)
    requires Backed(g, f, v, s) && |v| == |w| && ChainFrom(g, h, start, ds) && s.cs <= ds
    requires forall t :: 0 <= t < |v| && !g.InFats(t) ==> w[t] == v[t]
    requires n <= 512 * Capacity(g, s.cs)
    ensures Proper(g, ds) && n <= 512 * Capacity(g, ds)
    ensures var t := s.(sclust := start, cs := ds);
            Backed(g, h, w, t) && Content(g, w, t, n) == Content(g, v, s, n)
  {
    ChainIsProper(g, h, ds);
    CapacityGrows(g, s.cs, ds);
    var t := s.(sclust := start, cs := ds);
    if s.dsect != 0 {
      SectorStays(g, s.cs, ds, s.dk);
      SectorPlace(g, s.cs, s.dk, |v|);
    }
    forall p | 0 <= p < n
      ensures Content(g, w, t, n)[p] == Content(g, v, s, n)[p]
    {
      ContentAt(g, v, s, n, p);
      ContentAt(g, w, t, n, p);
      GrowthKeepsByte(g, Through(v, s), Through(w, t), s.cs, ds, p);
    }
  }

  // ----- whole sectors

  // The bytes of the file after cc sectors at the pointer were overwritten on the disk.
  lemma OverwrittenByte(g: Layout, v: seq<Sector>, cs: seq<dword>, i: nat, cc: nat, data: seq<byte>, p: nat)
    requires g.Checked(|v|) && Proper(g, cs) && Ordinal(g, i) < |cs| && Rest(g, i) + cc <= g.csize && 1 <= cc
    requires 512 * cc <= |data| && Ordinal(g, p / 512) < |cs|
    ensures SectorAt(g, cs, i) + cc <= |v|
    ensures ByteAt(g, Overwrite(v, SectorAt(g, cs, i), data, cc), cs, p)
         == if 512 * i <= p < 512 * i + 512 * cc then data[p - 512 * i] else ByteAt(g, v, cs, p)
  {
    hide Layout.VolumeEnd, Layout.FatBytes, PowerOfTwo, Ordinal, Rest;
    RunPlace(g, cs, i, cc, SectorAt(g, cs, i) + cc - 1, |v|);
    var w := Overwrite(v, SectorAt(g, cs, i), data, cc);
    if 512 * i <= p < 512 * i + 512 * cc {
      var q := p - 512 * i;
      RunByte(g, w, cs, i, cc, q);
      assert data[512 * (q / 512)..512 * (q / 512) + 512][q % 512] == data[q];
    } else {
      SectorPlace(g, cs, p / 512, |v|);
      OutsideRun(g, cs, i, cc, p / 512, |v|);
    }
  }

  // A sector of the chain outside a run inside one cluster has a number outside the run's.
  lemma OutsideRun(g: Layout, cs: seq<dword>, i: nat, cc: nat, j: nat, limit: nat)
    requires g.Checked(limit) && Proper(g, cs) && Ordinal(g, i) < |cs| && Rest(g, i) + cc <= g.csize
    requires Ordinal(g, j) < |cs|
    ensures i <= j < i + cc <==> SectorAt(g, cs, i) <= SectorAt(g, cs, j) < SectorAt(g, cs, i) + cc
  {
    var s, t := SectorAt(g, cs, i), SectorAt(g, cs, j);
    if i <= j < i + cc {
      SectorsAdjacent(g, cs, i, j - i);
    } else if s <= t < s + cc {
      SectorsAdjacent(g, cs, i, t - s);
      SectorsDiffer(g, cs, i + (t - s), j, limit);
    }
  }

  // A direct write with a clean buffer: the buffer is refilled if its sector was overwritten.
  function Refilled(s: FileState, sect: nat, data: seq<byte>, cc: nat): FileState
    requires 512 * cc <= |data|
  {
    if sect <= s.dsect < sect + cc then s.(buf := data[512 * (s.dsect - sect)..512 * (s.dsect - sect) + 512]) else s
  }

  lemma DirectWriteKeeps(g: Layout, f: seq<nat>, v: seq<Sector>, s: FileState, d: seq<byte>, data: seq<byte>, cc: nat)
    requires Backed(g, f, v, s) && !s.dirty && |d| <= 512 * Capacity(g, s.cs) && d == Content(g, v, s, |d|)
    requires s.fptr % 512 == 0 && s.fptr <= |d| && Ordinal(g, s.fptr / 512) < |s.cs|
    requires 1 <= cc && Rest(g, s.fptr / 512) + cc <= g.csize && 512 * cc <= |data|
    ensures var sect, x := SectorAt(g, s.cs, s.fptr / 512), data[..512 * cc];
            && sect + cc <= |v|
            && var w, t := Overwrite(v, sect, data, cc), Refilled(s, sect, data, cc);
               && Backed(g, f, w, t) && |Patch(d, s.fptr, x)| <= 512 * Capacity(g, s.cs)
               && Content(g, w, t, |Patch(d, s.fptr, x)|) == Patch(d, s.fptr, x)
  {
    hide SectorAt, Ordinal, Rest, Layout.Checked, Backed, Capacity, Content, Refilled;
    DirectWriteBacked(g, f, v, s, data, cc);
    DirectWriteFitsIn(g, f, v, s, d, data, cc);
    var sect, r := SectorAt(g, s.cs, s.fptr / 512), Patch(d, s.fptr, data[..512 * cc]);
    var w, t := Overwrite(v, sect, data, cc), Refilled(s, sect, data, cc);
    forall p | 0 <= p < |r|
      ensures Content(g, w, t, |r|)[p] == r[p]
    {
      DirectWriteByte(g, f, v, s, d, data, cc, p);
    }
  }

  lemma DirectWriteFitsIn(g: Layout, f: seq<nat>, v: seq<Sector>, s: FileState, d: seq<byte>, data: seq<byte>, cc: nat)
    requires Backed(g, f, v, s) && |d| <= 512 * Capacity(g, s.cs) && s.fptr % 512 == 0 && s.fptr <= |d|
    requires Ordinal(g, s.fptr / 512) < |s.cs| && 1 <= cc && Rest(g, s.fptr / 512) + cc <= g.csize && 512 * cc <= |data|
    ensures g.Checked(|v|) && g.nFatent >= 2 && g.csize > 0
    ensures Proper(g, s.cs) && |Patch(d, s.fptr, data[..512 * cc])| <= 512 * Capacity(g, s.cs)
    ensures forall sect :: Refilled(s, sect, data, cc).cs == s.cs
  {
    SectorsAdjacent(g, s.cs, s.fptr / 512, cc - 1);
    InsideCapacity(g, s.cs, s.fptr / 512 + (cc - 1));
    hide Ordinal, Rest, SectorAt, Capacity;
  }

  lemma DirectWriteByte(g: Layout, f: seq<nat>, v: seq<Sector>, s: FileState, d: seq<byte>, data: seq<byte>, cc: nat,
                        p: nat)
    requires Backed(g, f, v, s) && !s.dirty && |d| <= 512 * Capacity(g, s.cs) && d == Content(g, v, s, |d|)
    requires s.fptr % 512 == 0 && s.fptr <= |d| && Ordinal(g, s.fptr / 512) < |s.cs|
    requires 1 <= cc && Rest(g, s.fptr / 512) + cc <= g.csize && 512 * cc <= |data|
    requires var r := Patch(d, s.fptr, data[..512 * cc]); |r| <= 512 * Capacity(g, s.cs) && p < |r|
    ensures var sect, r := SectorAt(g, s.cs, s.fptr / 512), Patch(d, s.fptr, data[..512 * cc]);
            && sect + cc <= |v|
            && Content(g, Overwrite(v, sect, data, cc), Refilled(s, sect, data, cc), |r|)[p] == r[p]
  {
    hide SectorAt, Ordinal, Rest, Capacity, Content;
    var i, r := s.fptr / 512, Patch(d, s.fptr, data[..512 * cc]);
    DirectWriteBacked(g, f, v, s, data, cc);
    var w, t := Overwrite(v, SectorAt(g, s.cs, i), data, cc), Refilled(s, SectorAt(g, s.cs, i), data, cc);
    ContentAt(g, w, t, |r|, p);
    OverwrittenByte(g, v, s.cs, i, cc, data, p);
    if p < |d| {
      ContentAt(g, v, s, |d|, p);
    }
  }

  lemma RunOnlyIn(g: Layout, cs: seq<dword>, v: seq<Sector>, i: nat, data: seq<byte>, cc: nat)
    requires g.Checked(|v|) && Proper(g, cs) && Ordinal(g, i) < |cs| && Rest(g, i) + cc <= g.csize && 1 <= cc
    requires 512 * cc <= |data| && SectorAt(g, cs, i) + cc <= |v|
    ensures OnlyIn(g, cs, v, Overwrite(v, SectorAt(g, cs, i), data, cc))
  {
    var sect := SectorAt(g, cs, i);
    forall s | sect <= s < sect + cc
      ensures g.InCluster(cs[Ordinal(g, i)], s)
    {
      RunPlace(g, cs, i, cc, s, |v|);
    }
  }

  lemma DirectWriteBacked(g: Layout, f: seq<nat>, v: seq<Sector>, s: FileState, data: seq<byte>, cc: nat)
    requires Backed(g, f, v, s) && !s.dirty && Ordinal(g, s.fptr / 512) < |s.cs|
    requires 1 <= cc && Rest(g, s.fptr / 512) + cc <= g.csize && 512 * cc <= |data|
    ensures var sect := SectorAt(g, s.cs, s.fptr / 512);
            sect + cc <= |v| && Backed(g, f, Overwrite(v, sect, data, cc), Refilled(s, sect, data, cc))
  {
    var sect := SectorAt(g, s.cs, s.fptr / 512);
    RunPlace(g, s.cs, s.fptr / 512, cc, sect + cc - 1, |v|);
  }

  lemma DirectWriteFits(g: Layout, f: seq<nat>, v: seq<Sector>, s: FileState, d: seq<byte>, data: seq<byte>, cc: nat,
                        winsect: nat, meta: set<nat>, seeking: bool)
    requires Fit(g, f, v, s, d, winsect, meta, seeking) && !s.dirty
    requires s.fptr % 512 == 0 && s.fptr <= |d| && Ordinal(g, s.fptr / 512) < |s.cs|
    requires 1 <= cc && Rest(g, s.fptr / 512) + cc <= g.csize && 512 * cc <= |data|
    ensures var sect := SectorAt(g, s.cs, s.fptr / 512);
            && sect + cc <= |v| && s.dsect < |v|
            && Fit(g, f, Overwrite(v, sect, data, cc), Refilled(s, sect, data, cc),
                 Patch(d, s.fptr, data[..512 * cc]), winsect, meta, seeking)
  {
    DirectWriteKeeps(g, f, v, s, d, data, cc);
    hide Ordinal, Rest, SectorAt, Capacity, Content, Apart;
    assert s.dsect < |v|;
    hide Backed;
  }

  // ----- part of a sector

  // Chain and buffer position are in order, the buffer holds what d says of its sector, and the disk the rest of d.
  ghost predicate Holding(g: Layout, f: seq<nat>, v: seq<Sector>, s: FileState, d: seq<byte>) {
    && g.Checked(|v|)
    && ChainFrom(g, f, s.sclust, s.cs) && Proper(g, s.cs)
    && s.dsect != 0 && s.dk < Capacity(g, s.cs) && Ordinal(g, s.dk) < |s.cs| && s.dsect == SectorAt(g, s.cs, s.dk) < |v|
    && |d| <= 512 * Capacity(g, s.cs)
    && forall p :: 0 <= p < |d| ==> HeldByte(g, v, s, d[p], p)
  }

  ghost predicate HeldByte(g: Layout, v: seq<Sector>, s: FileState, b: byte, p: nat)
    requires g.Checked(|v|) && Proper(g, s.cs)
  {
    if p / 512 == s.dk then b == s.buf[p % 512] else Ordinal(g, p / 512) < |s.cs| && b == ByteAt(g, v, s.cs, p)
  }

  // With its sector in the buffer, a file object holds its contents.
  lemma BackedHolds(g: Layout, f: seq<nat>, v: seq<Sector>, s: FileState, d: seq<byte>)
    requires Backed(g, f, v, s) && s.dsect != 0 && |d| <= 512 * Capacity(g, s.cs) && d == Content(g, v, s, |d|)
    ensures Holding(g, f, v, s, d)
  {
    forall p | 0 <= p < |d|
      ensures HeldByte(g, v, s, d[p], p)
    {
      ContentAt(g, v, s, |d|, p);
      if p / 512 == s.dk {
        BufferedByte(g, f, v, s, |d|, p);
      } else {
        OtherSector(g, v, s, p);
      }
    }
  }

  lemma OtherSector(g: Layout, v: seq<Sector>, s: FileState, p: nat)
    requires g.Checked(|v|) && Proper(g, s.cs) && Ordinal(g, p / 512) < |s.cs| && Ordinal(g, s.dk) < |s.cs|
    requires s.dsect == SectorAt(g, s.cs, s.dk) && p / 512 != s.dk
    ensures ByteAt(g, Through(v, s), s.cs, p) == ByteAt(g, v, s.cs, p)
  {
    SectorsDiffer(g, s.cs, p / 512, s.dk, |v|);
    SectorPlace(g, s.cs, p / 512, |v|);
    hide SectorAt, Ordinal, Layout.Checked;
  }

  // At the growing edge of the file any buffer will do: no byte of the contents lies in its sector.
  lemma EdgeHolds(g: Layout, f: seq<nat>, v: seq<Sector>, s: FileState, d: seq<byte>, i: nat)
    requires Backed(g, f, v, s) && !s.dirty && |d| <= 512 * Capacity(g, s.cs) && d == Content(g, v, s, |d|)
    requires Ordinal(g, i) < |s.cs| && |d| <= 512 * i
    ensures Holding(g, f, v, s.(dsect := SectorAt(g, s.cs, i), dk := i), d)
  {
    var t := s.(dsect := SectorAt(g, s.cs, i), dk := i);
    SectorPlace(g, s.cs, i, |v|);
    InsideCapacity(g, s.cs, i);
    forall p | 0 <= p < |d|
      ensures HeldByte(g, v, t, d[p], p)
    {
      ContentAt(g, v, s, |d|, p);
    }
  }

  // Copying x into the buffered sector patches the held contents.
  lemma HoldingPatched(g: Layout, f: seq<nat>, v: seq<Sector>, s: FileState, d: seq<byte>, pos: nat, x: seq<byte>)
    requires Holding(g, f, v, s, d) && pos <= |d| && s.dk == pos / 512 && pos % 512 + |x| <= 512
    ensures var r := Patch(d, pos, x);
            Holding(g, f, v, s.(buf := s.buf[..pos % 512] + x + s.buf[pos % 512 + |x|..]), r)
  {
    var o := pos % 512;
    var t, r := s.(buf := s.buf[..o] + x + s.buf[o + |x|..]), Patch(d, pos, x);
    forall p | 0 <= p < |r|
      ensures HeldByte(g, v, t, r[p], p)
    {
      if pos <= p < pos + |x| {
        SamePlace(pos, p);
      } else {
        assert HeldByte(g, v, s, d[p], p);
      }
    }
  }

  lemma SamePlace(pos: nat, p: nat)
    requires pos <= p && pos % 512 + (p - pos) < 512
    ensures p / 512 == pos / 512 && p % 512 == pos % 512 + (p - pos)
  {
  }

  // A file object that holds d backs it once the buffer is marked dirty.
  lemma HoldingBacks(g: Layout, f: seq<nat>, v: seq<Sector>, s: FileState, d: seq<byte>)
    requires Holding(g, f, v, s, d)
    ensures Backed(g, f, v, s.(dirty := true)) && Content(g, v, s.(dirty := true), |d|) == d
  {
    var t := s.(dirty := true);
    forall p | 0 <= p < |d|
      ensures Content(g, v, t, |d|)[p] == d[p]
    {
      assert HeldByte(g, v, s, d[p], p);
      ContentAt(g, v, t, |d|, p);
      if p / 512 != s.dk {
        OtherSector(g, v, t, p);
      }
    }
  }

  // The buffer filled for writing the i-th sector: with that sector, or with anything at the growing edge.
  lemma FilledHolds(g: Layout, f: seq<nat>, v: seq<Sector>, s: FileState, d: seq<byte>, i: nat)
    requires Backed(g, f, v, s) && !s.dirty && |d| <= 512 * Capacity(g, s.cs) && d == Content(g, v, s, |d|)
    requires Ordinal(g, i) < |s.cs| && (s.dsect == SectorAt(g, s.cs, i) || |d| <= 512 * i)
    ensures Holding(g, f, v, s.(dsect := SectorAt(g, s.cs, i), dk := i), d)
  {
    BufferPosition(g, f, v, s, i);
    hide Ordinal, Rest, SectorAt, Capacity, Content, Backed;
    if s.dsect == SectorAt(g, s.cs, i) {
      BackedHolds(g, f, v, s, d);
    } else {
      EdgeHolds(g, f, v, s, d, i);
    }
  }

  // The file object after x was copied into the buffer at the pointer.
  function Partly(s: FileState, x: seq<byte>): FileState
    requires s.fptr % 512 + |x| <= 512 && s.fptr + |x| < 0x1_0000_0000
  {
    var o := s.fptr % 512;
    s.(buf := s.buf[..o] + x + s.buf[o + |x|..], dirty := true, fptr := s.fptr + |x|)
  }

  lemma PartialKeeps(g: Layout, f: seq<nat>, v: seq<Sector>, s: FileState, d: seq<byte>, x: seq<byte>, winsect: nat,
                     meta: set<nat>, seeking: bool)
    requires Holding(g, f, v, s, d) && Apart(g, winsect, meta, s.cs) && g.csize > 0
    requires Entering(g, s) && s.dk == s.fptr / 512 && s.fptr <= |d|
    requires 0 < |x| <= 512 - s.fptr % 512 && s.fptr + |x| < 0x1_0000_0000
    ensures Fit(g, f, v, Partly(s, x), Patch(d, s.fptr, x), winsect, meta, seeking) && Tracking(g, Partly(s, x))
  {
    hide Ordinal, Capacity, Content, Backed, Holding, Tracking, Entering, Apart;
    var o := s.fptr % 512;
    var u := s.(buf := s.buf[..o] + x + s.buf[o + |x|..]);
    HoldingPlace(g, f, v, s, d);
    HoldingPatched(g, f, v, s, d, s.fptr, x);
    PartialTracking(g, s, x);
    HoldingBacks(g, f, v, u, Patch(d, s.fptr, x));
    FitAtPointer(g, f, v, u.(dirty := true), Patch(d, s.fptr, x), winsect, meta, seeking, s.fptr + |x|);
  }

  lemma HoldingPlace(g: Layout, f: seq<nat>, v: seq<Sector>, s: FileState, d: seq<byte>)
    requires Holding(g, f, v, s, d)
    ensures s.dsect != 0 && g.Checked(|v|) && g.nFatent >= 2 && Proper(g, s.cs) && |d| <= 512 * Capacity(g, s.cs)
  {
  }

  lemma PartialTracking(g: Layout, s: FileState, x: seq<byte>)
    requires g.csize > 0 && g.nFatent >= 2 && Entering(g, s) && s.dsect != 0 && s.dk == s.fptr / 512
    requires 0 < |x| <= 512 - s.fptr % 512 && s.fptr + |x| < 0x1_0000_0000
    ensures Tracking(g, Partly(s, x))
  {
    hide Capacity, Ordinal;
    var t := Partly(s, x);
    AdvancePartial(g, t.(fptr := s.fptr), |x|);
    assert t.(fptr := s.fptr).(fptr := s.fptr + |x|) == t;
  }

  // A dirty buffer in front of pointer p.
  lemma FitAtPointer(g: Layout, f: seq<nat>, v: seq<Sector>, s: FileState, d: seq<byte>, winsect: nat, meta: set<nat>,
                     seeking: bool, p: dword)
    requires Backed(g, f, v, s) && |d| <= 512 * Capacity(g, s.cs) && d == Content(g, v, s, |d|)
    requires Apart(g, winsect, meta, s.cs)
    requires 512 * s.dk < p
    ensures Fit(g, f, v, s.(fptr := p), d, winsect, meta, seeking)
  {
  }

  // ----- entering the next cluster for writing

  // No cluster is free.
  ghost predicate NoneFree(f: seq<nat>) {
    forall c :: 2 <= c < |f| ==> f[c] != 0
  }

  lemma ScanFails(f: seq<nat>, scl: nat)
    requires 1 <= scl < |f| && |f| >= 3 && Chains.Scan(f, scl) == 0
    ensures NoneFree(f)
  {
    Chains.VisitsAllOnce(|f|, scl);
    forall c | 2 <= c < |f|
      ensures f[c] != 0
    {
      assert f[Chains.Visit(|f|, scl, Chains.Round(|f|, scl, c))] > 1;
    }
  }

  // Some entry is 1, which is no valid entry.
  ghost predicate HasOne(f: seq<nat>) {
    exists c :: 2 <= c < |f| && f[c] == 1
  }

  // Only a FAT with such an entry makes the scan fail.
  lemma ScanMeetsOne(f: seq<nat>, scl: nat)
    requires 1 <= scl < |f| && |f| >= 3 && Chains.Scan(f, scl) == 1
    ensures HasOne(f)
  {
    Chains.VisitsAllOnce(|f|, scl);
    assert f[Chains.Visit(|f|, scl, Chains.Stop(f, scl, 0))] == 1;
  }

  // Growth adds no such entry.
  lemma GrownHasOne(g: Layout, f: seq<nat>, h: seq<nat>, cs: seq<dword>, start: dword, ds: seq<dword>)
    requires Grown(f, h, cs, ds) && ChainFrom(g, h, start, ds) && HasOne(h)
    ensures HasOne(f)
  {
    var c :| 2 <= c < |h| && h[c] == 1;
    forall i | 0 <= i < |ds|
      ensures ds[i] != c
    {
      Chains.ChainEntries(h, ds, i);
    }
    assert f[c] == 1;
  }

  // Outcome r of stretching enters the next cluster: the following one, a new one behind the last, or none.
  ghost predicate EntersNext(g: Layout, f: seq<nat>, eoc: nat, s: FileState, r: Chains.Growth)
    requires g.csize > 0 && |f| == g.nFatent
  {
    var i := s.fptr / 512;
    && (!r.grew && r.code >= 2 ==> Ordinal(g, i) < |s.cs| && s.cs[Ordinal(g, i)] == r.code)
    && (r.grew ==> r.code < |f| && Ordinal(g, i) == |s.cs| && (s.cs != [] ==> s.cs[|s.cs| - 1] < |f|)
                   && r.fat == Linked(f, eoc, s.cs, r.code))
    && (r.code == 0 ==> NoneFree(f) && Ordinal(g, i) == |s.cs|)
    && (r.code == 1 ==> HasOne(f))
  }

  // What stretching from the current cluster (or creating a chain for an empty file) does on a cluster boundary.
  lemma StretchOutcome(g: Layout, f: seq<nat>, v: seq<Sector>, eoc: nat, last: nat, s: FileState)
    requires g.csize > 0 && |f| == g.nFatent >= 3 && eoc >= |f|
    requires Sane(g, f, v, s) && s.fptr % 512 == 0 && Rest(g, s.fptr / 512) == 0 && (s.fptr == 0 ==> s.sclust == 0)
    ensures EntersNext(g, f, eoc, s, Chains.Create(f, eoc, last, if s.fptr == 0 then 0 else s.clust))
  {
    if s.fptr == 0 {
      CreateOutcome(g, f, eoc, last, s);
    } else {
      ExtendOutcome(g, f, v, eoc, last, s);
    }
  }

  lemma CreateOutcome(g: Layout, f: seq<nat>, eoc: nat, last: nat, s: FileState)
    requires g.csize > 0 && |f| == g.nFatent >= 3 && s.cs == [] && s.fptr == 0
    ensures EntersNext(g, f, eoc, s, Chains.Create(f, eoc, last, 0))
  {
    OrdinalZero(g);
    hide Chains.Scan, Ordinal;
    if Chains.Scan(f, Chains.Hint(|f|, last)) == 0 {
      ScanFails(f, Chains.Hint(|f|, last));
    } else if Chains.Scan(f, Chains.Hint(|f|, last)) == 1 {
      ScanMeetsOne(f, Chains.Hint(|f|, last));
    }
  }

  lemma ExtendOutcome(g: Layout, f: seq<nat>, v: seq<Sector>, eoc: nat, last: nat, s: FileState)
    requires g.csize > 0 && |f| == g.nFatent >= 3
    requires Sane(g, f, v, s) && s.fptr > 0 && s.fptr % 512 == 0 && Rest(g, s.fptr / 512) == 0
    ensures EntersNext(g, f, eoc, s, Chains.Create(f, eoc, last, s.clust))
  {
    var i := s.fptr / 512;
    assert (s.fptr - 1) / 512 == i - 1;
    ClusterBefore(g, i);
    hide Chains.Scan, Ordinal, Rest, Layout.Checked, Capacity;
    var k := Ordinal(g, i - 1);
    Chains.ChainEntries(f, s.cs, k);
    if k < |s.cs| - 1 {
      assert f[s.cs[k]] == s.cs[k + 1];
    } else if Chains.Scan(f, s.clust) == 0 {
      ScanFails(f, s.clust);
    } else if Chains.Scan(f, s.clust) == 1 {
      ScanMeetsOne(f, s.clust);
    }
  }

  // An allocated chain is entered at its head.
  lemma EntersFirst(g: Layout, f: seq<nat>, v: seq<Sector>, s: FileState)
    requires Sane(g, f, v, s) && s.fptr == 0 && s.sclust != 0
    ensures Ordinal(g, s.fptr / 512) < |s.cs| && s.cs[Ordinal(g, s.fptr / 512)] == s.sclust
    ensures 1 < s.sclust < 0xFFFF_FFFF
  {
    OrdinalZero(g);
    g.FatsInside(|v|);
    g.ClusterBlock(s.sclust, |v|);
    TimesAtLeast(s.sclust - 2, g.csize);
  }

  // No free cluster holds metadata.
  ghost predicate FreeIsUnused(g: Layout, f: seq<nat>, meta: set<nat>)
    requires g.nFatent >= 2 && |f| == g.nFatent
  {
    forall c: dword, s :: g.IsCluster(c) && f[c] == 0 && s in meta ==> !g.InCluster(c, s)
  }

  // The FAT window lies in no cluster.
  lemma FatApart(g: Layout, limit: nat, winsect: nat)
    requires g.Checked(limit) && g.InFat(winsect)
    ensures forall c: dword :: !g.InCluster(c, winsect)
  {
    forall c: dword
      ensures !g.InCluster(c, winsect)
    {
      if g.IsCluster(c) {
        g.ClusterBlock(c, limit);
        g.FatsInside(limit);
      }
    }
  }

  // A newly allocated cluster becomes the last of the file's chain.
  lemma AdoptCluster(g: Layout, f: seq<nat>, h: seq<nat>, v: seq<Sector>, w: seq<Sector>, eoc: nat, s: FileState,
                     c: dword, d: seq<byte>, meta: set<nat>, before: nat, winsect: nat, seeking: bool)
    requires Fit(g, f, v, s, d, before, meta, seeking) && |v| == |w|
    requires g.IsCluster(c) && f[c] == 0 && eoc >= |f| && (s.cs != [] ==> s.cs[|s.cs| - 1] < |f|)
    requires h == Linked(f, eoc, s.cs, c)
    requires g.fatbase + g.FatSectors() <= |v| && FatOnly(g, v, w)
    requires FreeIsUnused(g, f, meta) && g.InFat(winsect)
    ensures var t := s.(sclust := if s.cs == [] then c else s.sclust, cs := s.cs + [c]);
            Fit(g, h, w, t, d, winsect, meta, seeking) && FreeIsUnused(g, h, meta) && Grown(f, h, s.cs, t.cs)
  {
    hide Content, Layout.FatBytes, Layout.VolumeEnd, PowerOfTwo, Mirrored, Chains.IsChain;
    LinkedExtends(g, f, eoc, s.sclust, s.cs, c);
    GrowthKeeps(g, f, h, v, w, s, if s.cs == [] then c else s.sclust, s.cs + [c], |d|);
    FatApart(g, |v|, winsect);
  }

  lemma FitInFat(g: Layout, f: seq<nat>, v: seq<Sector>, s: FileState, d: seq<byte>, before: nat, winsect: nat,
                 meta: set<nat>, seeking: bool)
    requires Fit(g, f, v, s, d, before, meta, seeking) && g.InFat(winsect)
    ensures Fit(g, f, v, s, d, winsect, meta, seeking)
  {
    FatApart(g, |v|, winsect);
  }

  // The file object after entering the next cluster with outcome r.
  function ChainAfter(cs: seq<dword>, r: Chains.Growth): seq<dword>
    requires r.code < 0x1_0000_0000
  {
    if r.grew then cs + [r.code] else cs
  }

  // Entering the next cluster keeps the file in order, whatever the outcome; only an inconsistent FAT is not survived.
  lemma ExtendKeeps(g: Layout, f: seq<nat>, h: seq<nat>, v: seq<Sector>, w: seq<Sector>, eoc: nat, s: FileState,
                    r: Chains.Growth, d: seq<byte>, meta: set<nat>, before: nat, winsect: nat, seeking: bool)
    requires Fit(g, f, v, s, d, before, meta, seeking) && |v| == |w| && FreeIsUnused(g, f, meta)
    requires eoc >= |f| && r.code != 1 && r.code < 0x1_0000_0000 && h == r.fat && (s.fptr == 0 <==> s.cs == [])
    requires r.grew ==> g.IsCluster(r.code) && f[r.code] == 0
    requires !r.grew ==> r.fat == f && w == v
    requires g.csize > 0 && EntersNext(g, f, eoc, s, r) && g.InFat(winsect)
    requires g.fatbase + g.FatSectors() <= |v| && FatOnly(g, v, w)
    ensures var t := s.(sclust := if s.fptr == 0 then r.code else s.sclust, cs := ChainAfter(s.cs, r));
            Fit(g, h, w, t, d, winsect, meta, seeking) && FreeIsUnused(g, h, meta) && Grown(f, h, s.cs, t.cs)
  {
    if r.grew {
      AdoptCluster(g, f, h, v, w, eoc, s, r.code, d, meta, before, winsect, seeking);
    } else {
      FitInFat(g, f, v, s, d, before, winsect, meta, seeking);
    }
  }

  // ----- one write as a whole

  // From FAT f and sectors v to FAT h and sectors w: the chain cs grew to ds by free clusters, nothing outside
  // the FAT copies and ds changed, and the contents d became e, which has x at position pos.
  ghost predicate Wrote(g: Layout, f: seq<nat>, v: seq<Sector>, cs: seq<dword>, d: seq<byte>,
                        h: seq<nat>, w: seq<Sector>, ds: seq<dword>, e: seq<byte>, pos: nat, x: seq<byte>)
    requires g.nFatent >= 2
  {
    Grown(f, h, cs, ds) && OnlyIn(g, ds, v, w) && pos <= |d| && e == Patch(d, pos, x)
  }

  lemma WroteNothing(g: Layout, f: seq<nat>, v: seq<Sector>, cs: seq<dword>, d: seq<byte>, pos: nat)
    requires g.nFatent >= 2 && pos <= |d|
    ensures Wrote(g, f, v, cs, d, f, v, cs, d, pos, [])
  {
    NothingGrown(f, cs);
  }

  lemma OnlyInGrows(g: Layout, cs: seq<dword>, ds: seq<dword>, v: seq<Sector>, w: seq<Sector>)
    requires g.nFatent >= 2 && OnlyIn(g, cs, v, w) && cs <= ds
    ensures OnlyIn(g, ds, v, w)
  {
    forall s | 0 <= s < |v| && w[s] != v[s]
      ensures g.InFats(s) || exists i :: 0 <= i < |ds| && g.InCluster(ds[i], s)
    {
      if !g.InFats(s) {
        var i :| 0 <= i < |cs| && g.InCluster(cs[i], s);
        assert ds[i] == cs[i];
      }
    }
  }

  lemma FatOnlyIsOnlyIn(g: Layout, cs: seq<dword>, v: seq<Sector>, w: seq<Sector>)
    requires g.nFatent >= 2 && g.fatbase + g.FatSectors() <= |v| == |w| && FatOnly(g, v, w)
    ensures OnlyIn(g, cs, v, w)
  {
  }

  lemma WroteJoins(g: Layout, f: seq<nat>, u: seq<Sector>, cs: seq<dword>, c: seq<byte>,
                   h: seq<nat>, v: seq<Sector>, ds: seq<dword>, d: seq<byte>,
                   k: seq<nat>, w: seq<Sector>, es: seq<dword>, e: seq<byte>, pos: nat, x: seq<byte>, y: seq<byte>)
    requires g.nFatent >= 2 && Proper(g, es)
    requires Wrote(g, f, u, cs, c, h, v, ds, d, pos, x) && Wrote(g, h, v, ds, d, k, w, es, e, pos + |x|, y)
    ensures Wrote(g, f, u, cs, c, k, w, es, e, pos, x + y)
  {
    assert Grown(f, k, cs, es) by {
      forall i, j | 0 <= i < |ds| <= j < |es|
        ensures es[j] != ds[i]
      {
        assert es[i] == ds[i];
      }
      GrownTransitive(f, h, k, cs, ds, es);
    }
    assert OnlyIn(g, es, u, w) by {
      OnlyInGrows(g, ds, es, u, v);
      OnlyInTransitive(g, es, u, v, w);
    }
    PatchesJoin(c, pos, x, y);
  }

  // Inside a cluster the next sector lies in the current one.
  lemma StaysInCluster(g: Layout, s: FileState)
    requires g.csize > 0 && g.nFatent >= 2 && Tracking(g, s) && s.fptr % 512 == 0 && Rest(g, s.fptr / 512) != 0
    ensures Entering(g, s)
  {
    OrdinalZero(g);
    ClusterBefore(g, s.fptr / 512);
    assert (s.fptr - 1) / 512 == s.fptr / 512 - 1;
  }

  // Nor do the bytes in the buffer matter to the pointer.
  lemma TrackingAnyBuffer(g: Layout, s: FileState, b: Sector, dirty: bool)
    requires g.csize > 0 && g.nFatent >= 2
    ensures Tracking(g, s) == Tracking(g, s.(buf := b, dirty := dirty))
  {
  }

  lemma FitAnySize(g: Layout, f: seq<nat>, v: seq<Sector>, s: FileState, n: dword, d: seq<byte>, winsect: nat,
                   meta: set<nat>, seeking: bool)
    ensures Fit(g, f, v, s, d, winsect, meta, seeking) == Fit(g, f, v, s.(fsize := n), d, winsect, meta, seeking)
  {
  }

  // Which cluster is current does not matter to chain, buffer and contents.
  lemma FitAnyCluster(g: Layout, f: seq<nat>, v: seq<Sector>, s: FileState, c: dword, d: seq<byte>, winsect: nat,
                      meta: set<nat>, seeking: bool)
    ensures Fit(g, f, v, s, d, winsect, meta, seeking) == Fit(g, f, v, s.(clust := c), d, winsect, meta, seeking)
  {
  }

  // A step that first enters a cluster and then changes sectors of the chain.
  lemma EnteredThenWrote(g: Layout, f: seq<nat>, u: seq<Sector>, cs: seq<dword>, c: seq<byte>,
                         h: seq<nat>, v: seq<Sector>, ds: seq<dword>, w: seq<Sector>, pos: nat, x: seq<byte>)
    requires g.nFatent >= 2 && pos <= |c|
    requires Grown(f, h, cs, ds) && OnlyIn(g, ds, u, v) && OnlyIn(g, ds, v, w)
    ensures Wrote(g, f, u, cs, c, h, w, ds, Patch(c, pos, x), pos, x)
  {
    OnlyInTransitive(g, ds, u, v, w);
  }

  lemma PatchedNothing(d: seq<byte>, pos: nat)
    requires pos <= |d|
    ensures Patch(d, pos, []) == d
  {
  }

  // ----- other files

  ghost predicate Separate(cs: seq<dword>, ds: seq<dword>) {
    forall i, j :: 0 <= i < |cs| && 0 <= j < |ds| ==> cs[i] != ds[j]
  }

  // Growth of one chain touches no other chain.
  lemma OtherChainKept(g: Layout, f: seq<nat>, h: seq<nat>, cs: seq<dword>, ds: seq<dword>, start: dword,
                       es: seq<dword>)
    requires ChainFrom(g, f, start, es) && Grown(f, h, cs, ds) && Separate(es, cs)
    ensures Separate(es, ds) && ChainFrom(g, h, start, es)
  {
    forall i, j | 0 <= i < |es| && 0 <= j < |ds|
      ensures es[i] != ds[j]
    {
      Chains.ChainEntries(f, es, i);
      if j < |cs| {
        assert ds[j] == cs[j];
      }
    }
    if es != [] {
      Chains.ChainFrame(f, h, es);
    }
  }

  // A sector of another chain keeps its contents.
  lemma OtherSectorKept(g: Layout, v: seq<Sector>, w: seq<Sector>, ds: seq<dword>, es: seq<dword>, i: nat)
    requires g.Checked(|v|) && OnlyIn(g, ds, v, w) && Proper(g, es) && Separate(es, ds) && Ordinal(g, i) < |es|
    ensures SectorAt(g, es, i) < |v| == |w| && w[SectorAt(g, es, i)] == v[SectorAt(g, es, i)]
  {
    SectorPlace(g, es, i, |v|);
    var s := SectorAt(g, es, i);
    hide SectorAt, Ordinal, Layout.Checked;
    if w[s] != v[s] {
      var j :| 0 <= j < |ds| && g.InCluster(ds[j], s);
      g.ClustersDisjoint(es[Ordinal(g, i)], ds[j], s, s, |v|);
    }
  }

  // Writing one file leaves every other file in order, contents included.
  lemma OtherFileKept(g: Layout, f: seq<nat>, h: seq<nat>, v: seq<Sector>, w: seq<Sector>, cs: seq<dword>,
                      ds: seq<dword>, s: FileState, d: seq<byte>, before: nat, winsect: nat, meta: set<nat>,
                      seeking: bool)
    requires Fit(g, f, v, s, d, before, meta, seeking) && Grown(f, h, cs, ds) && OnlyIn(g, ds, v, w)
    requires Separate(s.cs, cs)
    requires winsect == before || g.InFat(winsect)
    ensures Separate(s.cs, ds) && Fit(g, h, w, s, d, winsect, meta, seeking)
  {
    OtherChainKept(g, f, h, cs, ds, s.sclust, s.cs);
    if s.dsect != 0 {
      OtherSectorKept(g, v, w, ds, s.cs, s.dk);
    }
    forall p | 0 <= p < |d|
      ensures d[p] == Content(g, w, s, |d|)[p]
    {
      ContentAt(g, v, s, |d|, p);
      ContentAt(g, w, s, |d|, p);
      OtherSectorKept(g, v, w, ds, s.cs, p / 512);
    }
    if winsect != before {
      FatApart(g, |v|, winsect);
    }
  }

  // Changes outside the clusters of the chain do not concern the file.
  lemma UntouchedKeeps(g: Layout, f: seq<nat>, v: seq<Sector>, w: seq<Sector>, s: FileState, d: seq<byte>,
                       before: nat, winsect: nat, meta: set<nat>, seeking: bool)
    requires Fit(g, f, v, s, d, before, meta, seeking) && |w| == |v| && Apart(g, winsect, meta, s.cs)
    requires forall i, t :: 0 <= i < |s.cs| && 0 <= t < |v| && g.InCluster(s.cs[i], t) ==> w[t] == v[t]
    ensures Fit(g, f, w, s, d, winsect, meta, seeking)
  {
    if s.dsect != 0 {
      SectorPlace(g, s.cs, s.dk, |v|);
    }
    forall p | 0 <= p < |d|
      ensures d[p] == Content(g, w, s, |d|)[p]
    {
      ContentAt(g, v, s, |d|, p);
      ContentAt(g, w, s, |d|, p);
      SectorPlace(g, s.cs, p / 512, |v|);
    }
  }

  // A changed metadata sector is no concern of the file either, nor is a window on it.
  lemma MetaChangeKeeps(g: Layout, f: seq<nat>, v: seq<Sector>, s: FileState, d: seq<byte>, before: nat, meta: set<nat>,
                        seeking: bool, t: nat, x: Sector)
    requires Fit(g, f, v, s, d, before, meta, seeking) && t < |v| && t in meta
    ensures Fit(g, f, v[t := x], s, d, t, meta, seeking)
  {
    hide Backed, Content, Capacity;
    UntouchedKeeps(g, f, v, v[t := x], s, d, before, t, meta, seeking);
  }

  // Nor is a sector in front of the data area.
  lemma FrontChangeKeeps(g: Layout, f: seq<nat>, v: seq<Sector>, s: FileState, d: seq<byte>, before: nat,
                         winsect: nat, meta: set<nat>, seeking: bool, w: seq<Sector>)
    requires Fit(g, f, v, s, d, before, meta, seeking) && |w| == |v| && (winsect == before || winsect < g.database)
    requires forall t :: g.database <= t < |v| ==> w[t] == v[t]
    ensures Fit(g, f, w, s, d, winsect, meta, seeking)
  {
    forall i, t | 0 <= i < |s.cs| && g.InCluster(s.cs[i], t)
      ensures t >= g.database
    {
      g.ClusterBlock(s.cs[i], |v|);
    }
    hide Content, Capacity;
    UntouchedKeeps(g, f, v, w, s, d, before, winsect, meta, seeking);
  }

  // w differs from v only in the directory sector t, in front of the FAT and in the clusters cs.
  ghost predicate SyncOnly(g: Layout, cs: seq<dword>, t: nat, v: seq<Sector>, w: seq<Sector>)
    requires g.nFatent >= 2
  {
    |v| == |w| && forall s :: 0 <= s < |v| && w[s] != v[s] ==>
                    s == t || s < g.fatbase + g.FatSectors() || exists i :: 0 <= i < |cs| && g.InCluster(cs[i], s)
  }

  lemma NothingSynced(g: Layout, cs: seq<dword>, t: nat, v: seq<Sector>)
    requires g.nFatent >= 2
    ensures SyncOnly(g, cs, t, v, v)
  {
  }

  lemma SyncedOnly(g: Layout, cs: seq<dword>, t: nat, u: seq<Sector>, v: seq<Sector>, x: Sector, w: seq<Sector>)
    requires g.nFatent >= 2 && OnlyIn(g, cs, u, v) && t < |v| == |w|
    requires forall s :: 0 <= s < |v| && w[s] != v[t := x][s] ==> s < g.fatbase + g.FatSectors()
    ensures SyncOnly(g, cs, t, u, w)
  {
    forall s | 0 <= s < |u| && w[s] != u[s]
      ensures s == t || s < g.fatbase + g.FatSectors() || exists i :: 0 <= i < |cs| && g.InCluster(cs[i], s)
    {
      if s != t && w[s] == v[s] {
        assert v[s] != u[s];
      }
    }
  }

  // Synchronizing one file leaves every other file in order, contents included.
  lemma OtherFileSynced(g: Layout, f: seq<nat>, v: seq<Sector>, w: seq<Sector>, cs: seq<dword>, t: nat,
                        s: FileState, d: seq<byte>, before: nat, winsect: nat, meta: set<nat>, seeking: bool)
    requires Fit(g, f, v, s, d, before, meta, seeking) && SyncOnly(g, cs, t, v, w) && Separate(s.cs, cs)
    requires t in meta && (winsect == before || winsect == t || winsect == 0)
    ensures Fit(g, f, w, s, d, winsect, meta, seeking)
  {
    hide Content, Capacity;
    forall i, k | 0 <= i < |s.cs| && 0 <= k < |v| && g.InCluster(s.cs[i], k)
      ensures w[k] == v[k] && k >= g.database > 0
    {
      g.ClusterBlock(s.cs[i], |v|);
      g.FatsInside(|v|);
      if w[k] != v[k] {
        var j :| 0 <= j < |cs| && g.InCluster(cs[j], k);
        g.ClustersDisjoint(s.cs[i], cs[j], k, k, |v|);
      }
    }
    assert Apart(g, winsect, meta, s.cs) by {
      forall i | 0 <= i < |s.cs|
        ensures !g.InCluster(s.cs[i], winsect)
      {
        g.ClusterBlock(s.cs[i], |v|);
      }
    }
    UntouchedKeeps(g, f, v, w, s, d, before, winsect, meta, seeking);
  }
}
