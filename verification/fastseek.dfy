/**
 f_lseek with a link map: the position is found without reading the FAT.
*/
module FastSeeking {
  import opened Bytes
  import opened Geometry
  import opened DiskIO
  import opened FatMap
  import opened WriteBehind
  import opened FileMap
  import opened FileGrowth
  import opened SeekMap
  import opened LinkMap
  import opened Files

  lemma OffsetFacts(f: File, o: dword)
    requires f.Valid() && f.seeking && 0 < o <= f.fsize
    ensures f.buf.Length == 512 && f.fs.g.csize > 0 && f.fs.g.nFatent >= 2
    ensures var k, i := Ordinal(f.fs.g, (o - 1) / 512), (o - 1) / 512;
            && k < |f.chain| && f.fs.g.Clust2Sect(f.chain[k]) > 0
            && f.fs.g.Clust2Sect(f.chain[k]) + BitAnd(i, f.fs.g.csize - 1) == SectorAt(f.fs.g, f.chain, i)
            && o <= 512 * Capacity(f.fs.g, f.chain)
            && (o % 512 != 0 ==> o / 512 == i)
  {
    hide FatOf, FatMap.Entry, Chronicle, Agrees, MetaGrows, Mirrored, Store, BitAnd, Ordinal, Capacity, Content;
    hide SectorAt;
    PlaceInChain(f.fs.g, f.chain, o, |f.fs.view|);
  }

  lemma PlaceInChain(g: Layout, cs: seq<dword>, o: nat, limit: nat)
    requires g.Checked(limit) && Proper(g, cs) && 0 < o <= 512 * Capacity(g, cs)
    ensures var k, i := Ordinal(g, (o - 1) / 512), (o - 1) / 512;
            && k < |cs| && g.Clust2Sect(cs[k]) > 0
            && g.Clust2Sect(cs[k]) + BitAnd(i, g.csize - 1) == SectorAt(g, cs, i)
            && (o % 512 != 0 ==> o / 512 == i)
  {
    hide BitAnd, Capacity, Layout.FatBytes, Layout.VolumeEnd, PowerOfTwo;
    var i := (o - 1) / 512;
    InsideCapacity(g, cs, i);
    g.ZeroIffInvalid(cs[Ordinal(g, i)], limit);
    MaskIsRemainder(i, g.csize);
  }

  lemma JumpedReady(f: File, s: FileState)
    requires f.fs.Valid() && f.buf.Length == 512 && f.buf != f.fs.win && f.seeking
    requires Fit(f.fs.g, f.fs.fat, f.fs.view, s, f.contents, f.fs.winsect, f.fs.meta, true)
    requires s.(fptr := f.fptr, clust := f.clust) == f.State()
    ensures f.Ready()
  {
    FitAnyPlace(f.fs.g, f.fs.fat, f.fs.view, s, f.fptr, f.clust, f.contents, f.fs.winsect, f.fs.meta);
  }

  // Set pointer and current cluster.
  method Jump(f: File, p: dword, c: dword)
    requires f.Ready() && f.seeking
    modifies f`fptr, f`clust
    ensures f.Ready() && f.fptr == p && f.clust == c
  {
    hide Fit, PointerPlaced;
    ghost var s := f.State();
    f.fptr := p;
    f.clust := c;
    JumpedReady(f, s);
  }

  lemma TableFacts(f: File)
    requires f.Valid()
    ensures f.Ready() && f.fs.g.csize > 0 && f.fs.g.nFatent >= 2 && f.buf.Length == 512 && |f.contents| == f.fsize
  {
  }

  lemma StandsAtStart(f: File)
    requires f.Ready() && f.fs.g.csize > 0 && f.fs.g.nFatent >= 2 && f.fptr == 0 && |f.contents| == f.fsize
    ensures f.Valid()
  {
  }

  lemma StandsInside(f: File, o: dword)
    requires f.Ready() && f.fs.g.csize > 0 && f.fs.g.nFatent >= 2 && 0 < o == f.fptr <= f.fsize == |f.contents|
    requires o <= 512 * Capacity(f.fs.g, f.chain)
    requires Ordinal(f.fs.g, (o - 1) / 512) < |f.chain| && f.clust == f.chain[Ordinal(f.fs.g, (o - 1) / 512)]
    requires o % 512 != 0 ==> f.dsect != 0 && f.dk == o / 512
    ensures f.Valid()
  {
  }

  // Move the pointer to offset ofs, cut to the file size, with a table that maps the file's chain.
  method FastSeek(f: File, tbl: array<dword>, ofs: dword) returns (res: FResult)
    requires f.Valid() && f.seeking && Maps(tbl[..], f.chain)
    modifies f`fptr, f`clust, f`dirty, f`dsect, f`dk, f`error, f.buf, f.fs`view, f.fs.disk
    ensures f.Valid() && f.error == old(f.error) && f.fs.g.nFatent >= 2
    ensures res == if f.error then IntErr else Ok
    ensures f.fptr == if f.error then old(f.fptr) else if ofs > f.fsize then f.fsize else ofs
    ensures OnlyIn(f.fs.g, f.chain, old(f.fs.view), f.fs.view)
    ensures old(f.fs.disk.log) <= f.fs.disk.log
  {
    hide *;
    f.ValidFacts();
    NothingChanged(f.fs.g, f.chain, f.fs.view);
    if f.error { return IntErr; }
    var o := if ofs > f.fsize then f.fsize else ofs;
    res := SeekByTable(f, tbl, o);
    f.error := f.error || res != Ok;
  }

  method SeekByTable(f: File, tbl: array<dword>, o: dword) returns (res: FResult)
    requires f.Valid() && f.seeking && Maps(tbl[..], f.chain) && o <= f.fsize
    modifies f`fptr, f`clust, f`dirty, f`dsect, f`dk, f.buf, f.fs`view, f.fs.disk
    ensures f.Valid() && res == Ok && f.fptr == o && f.fs.g.nFatent >= 2
    ensures OnlyIn(f.fs.g, f.chain, old(f.fs.view), f.fs.view)
    ensures old(f.fs.disk.log) <= f.fs.disk.log
  {
    hide *;
    f.ValidFacts();
    TableFacts(f);
    NothingChanged(f.fs.g, f.chain, f.fs.view);
    res := Ok;
    if o == 0 {
      Jump(f, 0, f.clust);
      StandsAtStart(f);
    } else {
      OffsetFacts(f, o);
      var c := ClmtClust(f.fs.g, tbl, o - 1, f.chain);
      var dsc := f.fs.g.Clust2Sect(c);
      Jump(f, o, c);
      if dsc == 0 { return IntErr; }
      dsc := dsc + BitAnd((o - 1) / 512, f.fs.g.csize - 1);
      if o % 512 != 0 {
        res := f.FillBuffer(dsc);
      }
      StandsInside(f, o);
    }
  }
}
