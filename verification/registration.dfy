/**
 Registering an object in a directory on the volume.
*/
module Registration {
  import opened Bytes
  import opened Geometry
  import opened DiskIO
  import opened FatMap
  import opened WriteBehind
  import opened Volumes
  import opened Allocator
  import opened Entries
  import opened LongNames
  import opened ShortNames
  import opened FileMap
  import opened FileGrowth
  import opened Cursor
  import opened Directory
  import opened Ordering
  import opened Tables
  import opened DirTables
  import opened Lookup
  import opened Reserving
  import Chains
  import Mount

  // All sectors of the table cs hold metadata, and no free cluster does.
  ghost predicate Reserved(g: Layout, f: seq<nat>, limit: nat, m: set<nat>, cs: seq<dword>) {
    && g.Checked(limit) && |f| == g.nFatent && FreeIsUnused(g, f, m)
    && Proper(g, cs) && (g.fsType == Fat32 ==> cs != [])
    && forall i :: 0 <= i < Size(g, cs) ==> SectorIn(g, limit, cs, i, m)
  }

  ghost predicate SectorIn(g: Layout, limit: nat, cs: seq<dword>, i: nat, m: set<nat>)
    requires g.Checked(limit) && (g.fsType == Fat32 ==> cs != []) && Proper(g, cs) && i < Size(g, cs)
  {
    DirSectorPlace(g, cs, i, limit);
    DirSector(g, cs, i) in m
  }

  // The cursor stands on entry i of the table cs with entries t, all of it recorded as metadata.
  ghost predicate Working(dj: Dir, cs: seq<dword>, t: seq<Slot>, i: nat)
    reads dj, dj.fs, dj.fs.win, dj.fs.disk
  {
    On(dj, cs, t, i) && Reserved(dj.fs.g, dj.fs.fat, |dj.fs.view|, dj.fs.meta, cs)
  }

  lemma WorkingFacts(dj: Dir, cs: seq<dword>, t: seq<Slot>, i: nat)
    requires Working(dj, cs, t, i)
    ensures On(dj, cs, t, i) && dj.fs.Valid() && Listing(dj, cs) && EntriesOf(dj, cs) == t
    ensures Reserved(dj.fs.g, dj.fs.fat, |dj.fs.view|, dj.fs.meta, cs)
    ensures i < |t| <= 0x1_0000 && dj.index == i && dj.fs.win.Length == 512 && dj.Placed()
    ensures dj.fs.g.dirbase < 0x1_0000_0000
    ensures TableChain(dj.fs.g, dj.fs.fat, dj.sclust, cs)
    ensures dj.fs.g.Checked(|dj.fs.view|) && Proper(dj.fs.g, cs) && (dj.fs.g.fsType == Fat32 ==> cs != [])
    ensures dj.sect in dj.fs.meta && !dj.fs.g.InFats(dj.sect) && 0 < dj.sect < |dj.fs.view|
    ensures dj.fs.g.Cacheable(dj.sect)
    ensures dj.off == i % 16 * 32
    ensures |t| == Size(dj.fs.g, cs) && (cs != [] ==> Ordinal(dj.fs.g, i / 16) < |cs|)
    ensures dj.sect == DirSector(dj.fs.g, cs, i)
    ensures t == Table(dj.fs.g, dj.fs.view, cs)
  {
    OnFacts(dj, cs, t, i);
    StandsFacts(dj, cs, i);
    ListingFacts(dj, cs);
    Bounds(dj.fs.g, |dj.fs.view|);
    SeekInTable(dj.fs.g, dj.fs.fat, dj.sclust, cs, i, |dj.fs.view|);
    assert SectorIn(dj.fs.g, |dj.fs.view|, cs, i, dj.fs.meta);
  }

  // A directory ready for registrations.
  ghost predicate TableReady(dj: Dir, cs: seq<dword>)
    reads dj, dj.fs, dj.fs.win, dj.fs.disk
  {
    dj.fs.Valid() && Listing(dj, cs) && Reserved(dj.fs.g, dj.fs.fat, |dj.fs.view|, dj.fs.meta, cs)
  }

  lemma WorkingIsReady(dj: Dir, cs: seq<dword>, t: seq<Slot>, i: nat)
    requires Working(dj, cs, t, i)
    ensures TableReady(dj, cs) && EntriesOf(dj, cs) == t
  {
    WorkingFacts(dj, cs, t, i);
  }

  lemma TableReadyFacts(dj: Dir, cs: seq<dword>)
    requires TableReady(dj, cs)
    ensures dj.fs.Valid() && Listing(dj, cs) && Reserved(dj.fs.g, dj.fs.fat, |dj.fs.view|, dj.fs.meta, cs)
    ensures 0 < |EntriesOf(dj, cs)|
  {
    ListingFacts(dj, cs);
  }

  lemma StillReady(dj: Dir, cs: seq<dword>, f: seq<nat>, m: set<nat>, limit: nat)
    requires dj.fs.Valid() && Listing(dj, cs) && dj.fs.fat == f && dj.fs.meta == m && |dj.fs.view| == limit
    requires Reserved(dj.fs.g, f, limit, m, cs)
    ensures TableReady(dj, cs)
  {
  }

  lemma TableIsMeta(g: Layout, f: seq<nat>, limit: nat, m: set<nat>, cs: seq<dword>, s: nat)
    requires Reserved(g, f, limit, m, cs) && g.csize > 0 && g.nFatent >= 2 && OnTable(g, cs, s)
    ensures s in m
  {
    var i: nat :| i < Size(g, cs) && (cs != [] ==> Ordinal(g, i / 16) < |cs|) && DirSector(g, cs, i) == s;
    assert SectorIn(g, limit, cs, i, m);
  }

  lemma WindowOnTable(dj: Dir, cs: seq<dword>)
    requires TableReady(dj, cs)
    ensures dj.fs.g.csize > 0 && dj.fs.g.nFatent >= 2
    ensures OnTable(dj.fs.g, cs, dj.fs.winsect) ==> dj.fs.winsect in dj.fs.meta
  {
    hide Reserved, OnTable;
    ListingFacts(dj, cs);
    if OnTable(dj.fs.g, cs, dj.fs.winsect) {
      TableIsMeta(dj.fs.g, dj.fs.fat, |dj.fs.view|, dj.fs.meta, cs, dj.fs.winsect);
    }
  }

  // Bring the entry at the cursor into the window.
  method Load(dj: Dir, ghost i: nat, ghost cs: seq<dword>, ghost t: seq<Slot>) returns (res: FResult, e: Slot)
    requires Working(dj, cs, t, i)
    modifies dj.fs`winsect, dj.fs`wflag, dj.fs.win, dj.fs.disk
    ensures res == Ok && Working(dj, cs, t, i) && i < |t| && e == t[i] && dj.fs.winsect == dj.sect
    ensures old(dj.fs.disk.log) <= dj.fs.disk.log
  {
    hide On, Reserved;
    res, e := LoadEntry(dj, i, cs, t);
  }

  // Move the cursor on.
  method NextEntry(dj: Dir, ghost i: nat, ghost cs: seq<dword>, ghost t: seq<Slot>) returns (res: FResult)
    requires Working(dj, cs, t, i) && i + 1 < |t|
    modifies dj`index, dj`clust, dj`sect, dj`off, dj.fs, dj.fs.win, dj.fs.disk
    ensures res == Ok && Working(dj, cs, t, i + 1)
    ensures Kept(dj.fs) && dj.fs.meta == old(dj.fs.meta) && dj.fs.fat == old(dj.fs.fat)
    ensures old(dj.fs.disk.log) <= dj.fs.disk.log && old(dj.fs.steps) <= dj.fs.steps
    ensures old(dj.fs.meta) <= dj.fs.meta
    ensures dj.fs.winsect == old(dj.fs.winsect) || dj.fs.g.InFat(dj.fs.winsect) || dj.fs.winsect in dj.fs.meta
  {
    hide On, Reserved;
    res := Forward(dj, i, cs, t);
  }

  // Place the cursor.
  method GoTo(dj: Dir, k: word, ghost i: nat, ghost cs: seq<dword>, ghost t: seq<Slot>) returns (res: FResult)
    requires Working(dj, cs, t, i) && k < |t|
    modifies dj`index, dj`clust, dj`sect, dj`off, dj.fs`winsect, dj.fs`wflag, dj.fs.win, dj.fs.disk
    ensures res == Ok && Working(dj, cs, t, k)
    ensures old(dj.fs.disk.log) <= dj.fs.disk.log
    ensures old(dj.fs.meta) <= dj.fs.meta
    ensures dj.fs.winsect == old(dj.fs.winsect) || dj.fs.g.InFat(dj.fs.winsect) || dj.fs.winsect in dj.fs.meta
  {
    hide On, Reserved;
    WorkingFacts(dj, cs, t, i);
    res := Rewind(dj, k, cs);
  }

  // What storing entry e at index i of the table does.
  lemma StoredEntry(g: Layout, v: seq<Sector>, m: set<nat>, steps: seq<Snapshot>, cs: seq<dword>, t: seq<Slot>,
                    i: nat, e: Slot)
    requires g.Checked(|v|) && Reserved(g, FatOf(g, v), |v|, m, cs) && Proper(g, cs) && (g.fsType == Fat32 ==> cs != [])
    requires i < Size(g, cs) && t == Table(g, v, cs) && (Live(e) ==> StartCluster(e) == 0)
    requires |steps| > 0 && WriteBehind.Agrees(v, steps[|steps| - 1]) && steps[|steps| - 1].meta == m
    ensures cs != [] ==> Ordinal(g, i / 16) < |cs|
    ensures var s := DirSector(g, cs, i);
            && s < |v| && s in m && !g.InFats(s) && g.fatbase + g.FatSectors() <= |v|
            && var w := v[s := WithSlot(v[s], i % 16, e)];
               && Store(g, v, s, WithSlot(v[s], i % 16, e)) == w && FatOf(g, w) == FatOf(g, v)
               && Table(g, w, cs) == t[i := e]
               && (InOrder(g, steps) <==> InOrder(g, steps + [Snapshot(w, m)]))
  {
    hide FatOf, FatMap.Entry, DirTables.Table;
    DirSectorPlace(g, cs, i, |v|);
    assert SectorIn(g, |v|, cs, i, m);
    var s := DirSector(g, cs, i);
    var w := v[s := WithSlot(v[s], i % 16, e)];
    OtherThanFat(g, v, s, WithSlot(v[s], i % 16, e));
    TableUpdated(g, v, cs, i, e);
    if InOrder(g, steps) {
      SlotChangeIsSafe(g, v, m, steps, s, i % 16, e);
    }
    if InOrder(g, steps + [Snapshot(w, m)]) {
      PrefixIsSafe(g, steps, steps + [Snapshot(w, m)]);
    }
  }

  // The window was given a new entry at the cursor: mark it dirty.
  method Commit(dj: Dir, ghost i: nat, ghost cs: seq<dword>, ghost t: seq<Slot>, ghost e: Slot, ghost x: Sector)
    requires dj.fs.Staged() && dj.fs.winsect == dj.sect < |dj.fs.view| && x == dj.fs.view[dj.sect]
    requires dj.fs.win[..] == WithSlot(x, i % 16, e)
    requires Reserved(dj.fs.g, dj.fs.fat, |dj.fs.view|, dj.fs.meta, cs) && dj.fs.g.Checked(|dj.fs.view|)
    requires Proper(dj.fs.g, cs)
    requires (dj.fs.g.fsType == Fat32 ==> cs != []) && i < Size(dj.fs.g, cs) && t == Table(dj.fs.g, dj.fs.view, cs)
    requires (cs != [] ==> Ordinal(dj.fs.g, i / 16) < |cs|) && dj.sect == DirSector(dj.fs.g, cs, i)
    requires dj.off == i % 16 * 32
    requires Placing(dj, cs, i) && (Live(e) ==> StartCluster(e) == 0)
    modifies dj.fs`wflag, dj.fs`view, dj.fs`fat, dj.fs`steps
    ensures Working(dj, cs, t[i := e], i) && dj.fs.fat == old(dj.fs.fat) && |dj.fs.view| == |old(dj.fs.view)|
    ensures forall s :: 0 <= s < |dj.fs.view| && s != dj.sect ==> dj.fs.view[s] == old(dj.fs.view)[s]
    ensures dj.sect < |dj.fs.view| && dj.fs.view[dj.sect] == WithSlot(old(dj.fs.view)[dj.sect], i % 16, e)
    ensures InOrder(dj.fs.g, old(dj.fs.steps)) <==> InOrder(dj.fs.g, dj.fs.steps)
    ensures old(dj.fs.steps) <= dj.fs.steps
  {
    hide FatOf, FatMap.Entry, InOrder, WriteBehind.Agrees, Chronicle, Layout.Checked, WithSlot, Reserved;
    hide DirTables.Table, Store;
    StoredEntry(dj.fs.g, dj.fs.view, dj.fs.meta, dj.fs.steps, cs, t, i, e);
    dj.fs.MarkDirty();
    StillOn(dj, cs, t[i := e], i);
  }

  // The cursor fields are those of entry i.
  ghost predicate Placing(dj: Dir, cs: seq<dword>, i: nat)
    reads dj, dj.fs`fat
  {
    var g := dj.fs.g;
    && i < 0x1_0000 && 2 <= g.nFatent <= 0x1_0000_0000 && g.dirbase < 0x1_0000_0000 && g.csize > 0
    && |dj.fs.fat| == g.nFatent
    && TableChain(g, dj.fs.fat, dj.sclust, cs) && dj.index == i && Seek(g, dj.fs.fat, dj.sclust, i) == At(dj.Here())
  }

  lemma StillOn(dj: Dir, cs: seq<dword>, t: seq<Slot>, i: nat)
    requires dj.fs.Valid() && Placing(dj, cs, i) && i < Size(dj.fs.g, cs) && Proper(dj.fs.g, cs)
    requires (dj.fs.g.fsType == Fat32 ==> cs != [])
    requires t == Table(dj.fs.g, dj.fs.view, cs)
    ensures On(dj, cs, t, i)
  {
    Bounds(dj.fs.g, |dj.fs.view|);
  }

  // What is needed to change the entry at the cursor in the window.
  lemma Editing(dj: Dir, cs: seq<dword>, t: seq<Slot>, i: nat)
    requires Working(dj, cs, t, i) && dj.fs.winsect == dj.sect
    ensures dj.fs.Staged() && dj.fs.win.Length == 512 && dj.sect < |dj.fs.view| && dj.fs.win[..] == dj.fs.view[dj.sect]
    ensures Placing(dj, cs, i) && i < |t| <= 0x1_0000
  {
    WorkingFacts(dj, cs, t, i);
    dj.fs.MayStage();
    Bounds(dj.fs.g, |dj.fs.view|);
  }

  // Write part ord of a long name into the entry at the cursor.
  method PutLong(dj: Dir, lfn: array<word>, ord: byte, sum: byte, ghost name: seq<word>, ghost i: nat,
                 ghost cs: seq<dword>, ghost t: seq<Slot>)
    returns (res: FResult, ghost e: Slot)
    requires Working(dj, cs, t, i) && Holds(lfn[..], name) && 0 < ord <= Parts(name)
    modifies dj.fs, dj.fs.win, dj.fs.disk
    ensures res == Ok && i < |t| && Working(dj, cs, t[i := e], i) && IsPart(e, name, ord, sum)
    ensures dj.fs.fat == old(dj.fs.fat) && dj.fs.meta == old(dj.fs.meta) && |dj.fs.view| == |old(dj.fs.view)|
    ensures forall s :: 0 <= s < |dj.fs.view| && s != dj.sect ==> dj.fs.view[s] == old(dj.fs.view)[s]
    ensures dj.sect < |dj.fs.view| && dj.fs.view[dj.sect] == WithSlot(old(dj.fs.view)[dj.sect], i % 16, e)
    ensures InOrder(dj.fs.g, old(dj.fs.steps)) <==> InOrder(dj.fs.g, dj.fs.steps)
    ensures old(dj.fs.disk.log) <= dj.fs.disk.log && old(dj.fs.steps) <= dj.fs.steps
    ensures old(dj.fs.meta) <= dj.fs.meta
    ensures dj.fs.winsect == old(dj.fs.winsect) || dj.fs.g.InFat(dj.fs.winsect) || dj.fs.winsect in dj.fs.meta
  {
    hide FatOf, FatMap.Entry, InOrder, Chronicle, Layout.Checked, WithSlot, Reserved, DirTables.Table, Store, Working;
    hide On, Volume.Valid;
    hide Volume.Staged, SlotAt, Placing, TableChain, Holds, IsPart;
    e := seq(32, _ => 0);
    var before;
    res, before := Load(dj, i, cs, t);
    Editing(dj, cs, t, i);
    WorkingFacts(dj, cs, t, i);
    if res != Ok { return; }
    ghost var x := dj.fs.view[dj.sect];
    FitLfn(lfn, dj.fs.win, dj.off / 32, ord, sum, name);
    e := SlotAt(dj.fs.win[..], i % 16);
    PartNotLive(e, name, ord, sum);
    Commit(dj, i, cs, t, e, x);
  }

  lemma PartNotLive(e: Slot, name: seq<word>, ord: nat, sum: byte)
    requires ord > 0 && IsPart(e, name, ord, sum)
    ensures !Live(e)
  {
  }

  // The short entry of a new object.
  function ShortEntry(fn: seq<byte>): Slot
    requires |fn| == 12
  {
    fn[..11] + [0] + [fn[11] / 8 % 4 * 8] + seq(19, _ => 0)
  }

  // Build it in the window.
  method StoreShort(win: array<byte>, o: nat, fn: array<byte>)
    requires win.Length == 512 && o < 16 && fn.Length == 12 && fn != win
    modifies win
    ensures var x: Sector := old(win[..]); win[..] == WithSlot(x, o, ShortEntry(fn[..]))
  {
    ghost var x: Sector := win[..];
    forall k | 0 <= k < 32 { win[32 * o + k] := 0; }
    forall k | 0 <= k < 11 { win[32 * o + k] := fn[k]; }
    win[32 * o + 12] := fn[11] / 8 % 4 * 8;
    var e := ShortEntry(fn[..]);
    forall q | 0 <= q < 512
      ensures win[q] == WithSlot(x, o, e)[q]
    {
    }
    assert win[..] == WithSlot(x, o, e);
  }

  // Write the short entry at the cursor.
  method PutShort(dj: Dir, fn: array<byte>, ghost i: nat, ghost cs: seq<dword>, ghost t: seq<Slot>)
    returns (res: FResult)
    requires Working(dj, cs, t, i) && fn.Length == 12 && fn != dj.fs.win
    modifies dj.fs, dj.fs.win, dj.fs.disk
    ensures res == Ok && i < |t| && Working(dj, cs, t[i := ShortEntry(fn[..])], i)
    ensures dj.fs.fat == old(dj.fs.fat) && dj.fs.meta == old(dj.fs.meta) && |dj.fs.view| == |old(dj.fs.view)|
    ensures forall s :: 0 <= s < |dj.fs.view| && s != dj.sect ==> dj.fs.view[s] == old(dj.fs.view)[s]
    ensures dj.sect < |dj.fs.view|
    ensures dj.fs.view[dj.sect] == WithSlot(old(dj.fs.view)[dj.sect], i % 16, ShortEntry(fn[..]))
    ensures InOrder(dj.fs.g, old(dj.fs.steps)) <==> InOrder(dj.fs.g, dj.fs.steps)
    ensures dj.fs.winsect == dj.sect && fn[..] == old(fn[..])
    ensures old(dj.fs.disk.log) <= dj.fs.disk.log && old(dj.fs.steps) <= dj.fs.steps
    ensures old(dj.fs.meta) <= dj.fs.meta
    ensures dj.fs.winsect == old(dj.fs.winsect) || dj.fs.g.InFat(dj.fs.winsect) || dj.fs.winsect in dj.fs.meta
  {
    hide FatOf, FatMap.Entry, InOrder, Chronicle, Layout.Checked, WithSlot, Reserved, DirTables.Table, Store, Working;
    hide On, Volume.Valid;
    hide Volume.Staged, SlotAt, Placing, TableChain, ShortEntry;
    var before;
    res, before := Load(dj, i, cs, t);
    Editing(dj, cs, t, i);
    WorkingFacts(dj, cs, t, i);
    if res != Ok { return; }
    ghost var x := dj.fs.view[dj.sect];
    StoreShort(dj.fs.win, dj.off / 32, fn);
    ShortHasNoCluster(fn[..]);
    Commit(dj, i, cs, t, ShortEntry(fn[..]), x);
  }

  lemma ShortHasNoCluster(fn: seq<byte>)
    requires |fn| == 12
    ensures StartCluster(ShortEntry(fn)) == 0 && FileSize(ShortEntry(fn)) == 0
    ensures ShortEntry(fn)[..11] == fn[..11] && ShortEntry(fn)[11] == 0
    ensures ShortEntry(fn)[12] == fn[11] / 8 % 4 * 8 && ClearFrom13(ShortEntry(fn))
  {
  }

  // ----- extending the table

  // At the end of a table in a chain, the current cluster is the last one.
  lemma AtTableEnd(dj: Dir, cs: seq<dword>, t: seq<Slot>, i: nat)
    requires Working(dj, cs, t, i)
    ensures dj.fs.Valid() && (dj.AtChainEnd() <==> i + 1 == |t| < 0x1_0000 && cs != [])
    ensures dj.AtChainEnd() ==> dj.clust == cs[|cs| - 1]
    ensures i + 1 == |t| && !dj.AtChainEnd() ==> Next(dj.fs.g, dj.fs.fat, dj.Here()) == Nowhere(NoFile)
    ensures i + 1 < |t| ==> Next(dj.fs.g, dj.fs.fat, dj.Here()).At?
  {
    WorkingFacts(dj, cs, t, i);
    var g := dj.fs.g;
    Bounds(g, |dj.fs.view|);
    SeekInTable(g, dj.fs.fat, dj.sclust, cs, i, |dj.fs.view|);
    TableNext(g, dj.fs.fat, dj.sclust, cs, i, |dj.fs.view|);
    if cs != [] {
      var k := Ordinal(g, i / 16);
      Chains.ChainEntries(dj.fs.fat, cs, k);
      if i + 1 == 16 * Capacity(g, cs) {
        LastInChain(g, cs, i);
        EndCrosses(g, cs, i, |dj.fs.view|);
      }
    }
  }

  // Behind the last entry of a chain a cluster boundary follows.
  lemma EndCrosses(g: Layout, cs: seq<dword>, i: nat, limit: nat)
    requires g.Checked(limit) && cs != [] && i + 1 == 16 * Capacity(g, cs)
    ensures (i + 1) % 16 == 0 && BitAnd((i + 1) / 16, g.csize - 1) == 0
  {
    hide BitAnd, PowerOfTwo, Layout.FatBytes, Layout.VolumeEnd;
    MaskIsRemainder((i + 1) / 16, g.csize);
    TimesIsProduct(|cs|, g.csize);
    DivModUnique(Capacity(g, cs), g.csize, |cs|, 0);
  }

  // What the table of chain cs is after the free cluster c was appended and zeroed.
  lemma StretchedIsTable(g: Layout, f: seq<nat>, h: seq<nat>, v: seq<Sector>, w: seq<Sector>, m: set<nat>, eoc: nat,
                         sclust: dword, cs: seq<dword>, c: dword)
    requires g.Checked(|v|) && Reserved(g, f, |v|, m, cs) && g.dirbase < 0x1_0000_0000 && TableChain(g, f, sclust, cs)
    requires cs != []
    requires g.IsCluster(c) && f[c] == 0 && eoc >= |f| && cs[|cs| - 1] < |f| && h == f[c := eoc][cs[|cs| - 1] := c]
    requires Stretched(g, v, w, c)
    ensures TableChain(g, h, sclust, cs + [c]) && Reserved(g, h, |v|, m + ClusterSectors(g, c), cs + [c])
    ensures Table(g, v, cs) <= Table(g, w, cs + [c])
    ensures forall p :: |Table(g, v, cs)| <= p < |Table(g, w, cs + [c])| ==> Table(g, w, cs + [c])[p][0] == 0
    ensures forall s :: s in m ==> !g.InCluster(c, s)
  {
    LinkedExtends(g, f, eoc, cs[0], cs, c);
    var ds := cs + [c];
    ChainIsProper(g, h, ds);
    TableStretched(g, v, w, cs, c);
    forall i | 0 <= i < Size(g, ds)
      ensures SectorIn(g, |v|, ds, i, m + ClusterSectors(g, c))
    {
      StretchedSectorIn(g, f, |v|, m, cs, c, i);
    }
    assert FreeIsUnused(g, h, m + ClusterSectors(g, c)) by {
      UnusedAfterStretch(g, f, h, |v|, m, cs, c);
    }
  }

  lemma StretchedSectorIn(g: Layout, f: seq<nat>, limit: nat, m: set<nat>, cs: seq<dword>, c: dword, i: nat)
    requires g.Checked(limit) && Reserved(g, f, limit, m, cs) && cs != [] && g.IsCluster(c) && Proper(g, cs + [c])
    requires i < Size(g, cs + [c])
    ensures SectorIn(g, limit, cs + [c], i, m + ClusterSectors(g, c))
  {
    var ds := cs + [c];
    DirSectorPlace(g, ds, i, limit);
    InTable(g, cs, i);
    if Ordinal(g, i / 16) < |cs| {
      assert SectorIn(g, limit, cs, i, m);
      assert ds[Ordinal(g, i / 16)] == cs[Ordinal(g, i / 16)];
    }
  }

  lemma UnusedAfterStretch(g: Layout, f: seq<nat>, h: seq<nat>, limit: nat, m: set<nat>, cs: seq<dword>, c: dword)
    requires g.Checked(limit) && Reserved(g, f, limit, m, cs) && cs != [] && g.IsCluster(c) && |h| == |f|
    requires h[c] != 0 && forall d :: 0 <= d < |f| && h[d] == 0 ==> f[d] == 0
    ensures FreeIsUnused(g, h, m + ClusterSectors(g, c))
  {
    forall d: dword, s | g.IsCluster(d) && h[d] == 0 && s in m + ClusterSectors(g, c)
      ensures !g.InCluster(d, s)
    {
      if s in ClusterSectors(g, c) && g.InCluster(d, s) {
        g.ClustersDisjoint(c, d, s, s, limit);
      }
    }
  }

  // w differs from v only in the FAT copies and in sectors of m.
  ghost predicate MetaOnly(g: Layout, m: set<nat>, v: seq<Sector>, w: seq<Sector>) {
    |v| == |w| && forall s :: 0 <= s < |v| && w[s] != v[s] ==> g.InFats(s) || s in m
  }

  // The live entries in the metadata m stay as they are.
  ghost predicate LiveKept(g: Layout, m: set<nat>, v: seq<Sector>, w: seq<Sector>) {
    && |v| == |w|
    && forall s, p :: s in m && s < |v| && !g.InFats(s) && 0 <= p < 16 && Live(SlotAt(v[s], p)) ==>
                        SlotAt(w[s], p) == SlotAt(v[s], p)
  }

  lemma LiveKeptJoins(g: Layout, m: set<nat>, n: set<nat>, u: seq<Sector>, v: seq<Sector>, w: seq<Sector>)
    requires LiveKept(g, m, u, v) && LiveKept(g, n, v, w) && m <= n
    ensures LiveKept(g, m, u, w)
  {
    hide SlotAt, Live;
  }

  lemma LiveKeptRefl(g: Layout, m: set<nat>, v: seq<Sector>)
    ensures LiveKept(g, m, v, v)
  {
  }

  // Writing an entry where none is live.
  lemma BlankWritten(g: Layout, m: set<nat>, v: seq<Sector>, s: nat, o: nat, e: Slot)
    requires s < |v| && o < 16 && !Live(SlotAt(v[s], o))
    ensures LiveKept(g, m, v, v[s := WithSlot(v[s], o, e)])
  {
    hide SlotAt, WithSlot, Live;
    forall p | 0 <= p < 16
      ensures SlotAt(WithSlot(v[s], o, e), p) == if p == o then e else SlotAt(v[s], p)
    {
      WithSlotAt(v[s], o, e, p);
    }
  }

  // Stretching a table touches no other metadata sector.
  lemma StretchKeepsLive(g: Layout, m: set<nat>, v: seq<Sector>, w: seq<Sector>, c: dword)
    requires g.nFatent >= 2 && g.fatbase + g.FatSectors() <= |v| && Stretched(g, v, w, c)
    requires forall s :: s in m ==> !g.InCluster(c, s)
    ensures LiveKept(g, m, v, w)
  {
    hide SlotAt, Live;
  }

  lemma MetaOnlyJoins(g: Layout, m: set<nat>, n: set<nat>, u: seq<Sector>, v: seq<Sector>, w: seq<Sector>)
    requires MetaOnly(g, m, u, v) && MetaOnly(g, n, v, w) && m <= n
    ensures MetaOnly(g, n, u, w)
  {
  }

  lemma MetaOnlyRefl(g: Layout, m: set<nat>, v: seq<Sector>)
    ensures MetaOnly(g, m, v, v)
  {
  }

  // What an allocation behind the last cluster of a chain comes to.
  lemma GrowthOutcome(g: Layout, f: seq<nat>, eoc: nat, last: nat, end: dword)
    requires |f| == g.nFatent >= 3 && g.nFatent <= 0x1_0000_0000 && g.IsCluster(end) && f[end] >= g.nFatent
    ensures var r := Chains.Create(f, eoc, last, end);
            r.grew ==>
              && g.IsCluster(r.code) && f[r.code] == 0 && r.code < 0x1_0000_0000
              && r.fat == f[r.code := eoc][end := r.code]
  {
  }

  lemma Unstretched(dj: Dir, cs: seq<dword>, t: seq<Slot>, i: nat)
    requires dj.fs.Valid() && dj.fs.g.dirbase < 0x1_0000_0000 && TableChain(dj.fs.g, dj.fs.fat, dj.sclust, cs)
    requires Reserved(dj.fs.g, dj.fs.fat, |dj.fs.view|, dj.fs.meta, cs) && t == Table(dj.fs.g, dj.fs.view, cs)
    requires i < |t| && dj.index == i && dj.Placed()
    ensures Working(dj, cs, t, i)
  {
    Bounds(dj.fs.g, |dj.fs.view|);
  }

  // FAT f with the clusters xs in use.
  function InUse(f: seq<nat>, xs: seq<dword>): (h: seq<nat>)
    ensures |h| == |f| && forall c :: 0 <= c < |f| ==> (h[c] == 0 <==> f[c] == 0 && c !in xs)
  {
    seq(|f|, (c: nat) requires c < |f| => if c in xs then 1 else f[c])
  }

  // From FAT f to FAT h, the table cs was extended to ds by formerly free clusters.
  ghost predicate Lengthened(g: Layout, f: seq<nat>, h: seq<nat>, cs: seq<dword>, ds: seq<dword>) {
    && cs <= ds && |f| == |h| == g.nFatent
    && (forall i :: |cs| <= i < |ds| ==> g.IsCluster(ds[i]) && f[ds[i]] == 0)
    && (forall c :: 0 <= c < |f| ==> (h[c] == 0 <==> f[c] == 0 && c !in ds[|cs|..]))
    && forall c :: 0 <= c < |f| && c !in ds ==> h[c] == f[c]
  }

  // The metadata grew from m to n by the clusters by which table cs was extended to ds.
  ghost predicate MetaAdded(g: Layout, m: set<nat>, n: set<nat>, cs: seq<dword>, ds: seq<dword>) {
    && g.nFatent >= 2 && cs <= ds && m <= n
    && (forall s :: s in n && s !in m ==> exists i :: |cs| <= i < |ds| && g.InCluster(ds[i], s))
    && forall i :: |cs| <= i < |ds| ==> ClusterIn(g, ds[i], n)
  }

  lemma MetaAddedJoins(g: Layout, m: set<nat>, n: set<nat>, o: set<nat>, cs: seq<dword>, ds: seq<dword>, es: seq<dword>)
    requires MetaAdded(g, m, n, cs, ds) && MetaAdded(g, n, o, ds, es)
    ensures MetaAdded(g, m, o, cs, es)
  {
    hide ClusterIn;
    forall s | s in o && s !in m
      ensures exists i :: |cs| <= i < |es| && g.InCluster(es[i], s)
    {
      if s in n {
        var i :| |cs| <= i < |ds| && g.InCluster(ds[i], s);
        assert es[i] == ds[i];
      }
    }
    forall i | |cs| <= i < |es|
      ensures ClusterIn(g, es[i], o)
    {
      if i < |ds| {
        assert es[i] == ds[i];
        StillClusterIn(g, ds[i], n, o);
      }
    }
  }

  lemma StillClusterIn(g: Layout, c: nat, m: set<nat>, n: set<nat>)
    requires g.nFatent >= 2 && ClusterIn(g, c, m) && m <= n
    ensures ClusterIn(g, c, n)
  {
  }

  lemma ClusterAdded(g: Layout, m: set<nat>, cs: seq<dword>, c: dword)
    requires g.nFatent >= 2 && g.IsCluster(c)
    ensures MetaAdded(g, m, m + ClusterSectors(g, c), cs, cs + [c]) && MetaAdded(g, m, m, cs, cs)
  {
    forall s | s in ClusterSectors(g, c)
      ensures exists i :: |cs| <= i < |cs + [c]| && g.InCluster((cs + [c])[i], s)
    {
      assert (cs + [c])[|cs|] == c;
    }
  }

  // Among the old contents of the clusters by which table cs was extended to ds, no entry leads to a cluster that was
  // free when the cluster was linked.
  ghost predicate OldContentsLive(g: Layout, f: seq<nat>, v: seq<Sector>, cs: seq<dword>, ds: seq<dword>) {
    && g.nFatent >= 2 && cs <= ds
    && forall i :: |cs| <= i < |ds| ==> ClusterLive(g, InUse(f, ds[|cs|..i + 1]), v, ds[i])
  }

  // A 12-bit entry may be torn, so nothing is demanded of FAT12.
  ghost predicate StretchSafe(g: Layout, f: seq<nat>, v: seq<Sector>, cs: seq<dword>, ds: seq<dword>) {
    g.fsType != Fat12 ==> OldContentsLive(g, f, v, cs, ds)
  }

  lemma NotLengthened(g: Layout, f: seq<nat>, v: seq<Sector>, cs: seq<dword>)
    requires |f| == g.nFatent >= 2
    ensures Lengthened(g, f, f, cs, cs) && StretchSafe(g, f, v, cs, cs)
  {
  }

  lemma LengthenedByOne(g: Layout, f: seq<nat>, h: seq<nat>, v: seq<Sector>, cs: seq<dword>, c: dword, eoc: nat)
    requires |f| == g.nFatent >= 2 && cs != [] && cs[|cs| - 1] < |f| <= eoc && f[cs[|cs| - 1]] >= |f|
    requires g.IsCluster(c) && f[c] == 0 && h == f[c := eoc][cs[|cs| - 1] := c]
    ensures Lengthened(g, f, h, cs, cs + [c])
    ensures g.fsType != Fat12 ==> (StretchSafe(g, f, v, cs, cs + [c]) <==> ClusterLive(g, f[c := eoc], v, c))
  {
    var ds := cs + [c];
    assert ds[|cs|..] == [c] && ds[|cs|..|cs| + 1] == [c] && ds[|cs|] == c;
    SameFreeRest(g, f[c := eoc], InUse(f, [c]), v, c, 0);
    hide RestLive;
  }

  // The condition splits as the table grows cluster by cluster.
  lemma StretchesJoin(g: Layout, f: seq<nat>, v: seq<Sector>, cs: seq<dword>, h: seq<nat>, w: seq<Sector>,
                      ds: seq<dword>, i: seq<nat>, es: seq<dword>, limit: nat, m: set<nat>)
    requires g.Checked(limit) && |v| == |w| == limit && Lengthened(g, f, h, cs, ds) && Lengthened(g, h, i, ds, es)
    requires MetaOnly(g, m, v, w) && FreeIsUnused(g, h, m)
    ensures Lengthened(g, f, i, cs, es)
    ensures StretchSafe(g, f, v, cs, es) <==> StretchSafe(g, f, v, cs, ds) && StretchSafe(g, h, w, ds, es)
  {
    hide ClusterLive, Layout.Checked, MetaOnly, FreeIsUnused;
    assert es[|cs|..] == ds[|cs|..] + es[|ds|..];
    assert forall k :: |cs| <= k < |ds| ==> es[k] == ds[k] && es[|cs|..k + 1] == ds[|cs|..k + 1];
    forall k | |ds| <= k < |es|
      ensures ClusterLive(g, InUse(f, es[|cs|..k + 1]), v, es[k]) <==>
          ClusterLive(g, InUse(h, es[|ds|..k + 1]), w, es[k])
    {
      assert es[|cs|..k + 1] == ds[|cs|..] + es[|ds|..k + 1];
      SameLive(g, InUse(f, es[|cs|..k + 1]), InUse(h, es[|ds|..k + 1]), h, v, w, es[k], m, limit);
    }
  }

  // The contents of a free cluster do not change.
  lemma SameLive(g: Layout, f: seq<nat>, h: seq<nat>, u: seq<nat>, v: seq<Sector>, w: seq<Sector>, c: dword,
                 m: set<nat>, limit: nat)
    requires g.Checked(limit) && |v| == |w| == limit && |f| == |h| == |u| == g.nFatent && g.IsCluster(c) && u[c] == 0
    requires forall d :: 0 <= d < |f| ==> (f[d] == 0 <==> h[d] == 0)
    requires MetaOnly(g, m, v, w) && FreeIsUnused(g, u, m)
    ensures ClusterLive(g, f, v, c) <==> ClusterLive(g, h, w, c)
  {
    hide SectorLive, Layout.Checked;
    SameFreeRest(g, f, h, v, c, 0);
    ClusterSectorsAre(g, c, m, limit);
    assert forall s: nat :: g.InCluster(c, s) ==> w[s] == v[s];
  }

  // A directory with chain cs and the volume it lies on: FAT, sectors, metadata, and whether the steps so far are safe.
  datatype Baseline = Baseline(cs: seq<dword>, fat: seq<nat>, sectors: seq<Sector>, meta: set<nat>, inOrder: bool)

  // Since o, the table was extended to ds, leaving FAT h, sectors w, metadata m and the order of the steps as b says.
  // Only the FAT and metadata sectors changed, no live entry did, and the steps are safe exactly if they were and the
  // extensions are.
  ghost predicate Grew(g: Layout, o: Baseline, ds: seq<dword>, h: seq<nat>, w: seq<Sector>, m: set<nat>, b: bool) {
    && g.Checked(|o.sectors|) && o.meta <= m && MetaOnly(g, m, o.sectors, w)
    && Lengthened(g, o.fat, h, o.cs, ds) && MetaAdded(g, o.meta, m, o.cs, ds) && FreeIsUnused(g, h, m)
    && LiveKept(g, o.meta, o.sectors, w)
    && (b <==> o.inOrder && StretchSafe(g, o.fat, o.sectors, o.cs, ds))
  }

  ghost function BaselineOf(dj: Dir, cs: seq<dword>): Baseline
    reads dj.fs`fat, dj.fs`view, dj.fs`meta, dj.fs`steps
  {
    Baseline(cs, dj.fs.fat, dj.fs.view, dj.fs.meta, InOrder(dj.fs.g, dj.fs.steps))
  }

  ghost predicate HasGrown(dj: Dir, o: Baseline, ds: seq<dword>)
    reads dj.fs`fat, dj.fs`view, dj.fs`meta, dj.fs`steps
  {
    Grew(dj.fs.g, o, ds, dj.fs.fat, dj.fs.view, dj.fs.meta, InOrder(dj.fs.g, dj.fs.steps))
  }

  lemma NothingGrew(dj: Dir, cs: seq<dword>)
    requires TableReady(dj, cs)
    ensures HasGrown(dj, BaselineOf(dj, cs), cs)
  {
    NotLengthened(dj.fs.g, dj.fs.fat, dj.fs.view, cs);
    LiveKeptRefl(dj.fs.g, dj.fs.meta, dj.fs.view);
  }

  lemma GrewOn(dj: Dir, o: Baseline, ds: seq<dword>, p: Baseline, es: seq<dword>)
    requires p.cs == ds && Grew(dj.fs.g, o, ds, p.fat, p.sectors, p.meta, p.inOrder) && HasGrown(dj, p, es)
    ensures HasGrown(dj, o, es)
  {
    hide Layout.Checked, Lengthened, StretchSafe, FreeIsUnused, InOrder, MetaAdded, LiveKept;
    var g := dj.fs.g;
    MetaAddedJoins(g, o.meta, p.meta, dj.fs.meta, o.cs, ds, es);
    SameLength(g, p.meta, o.sectors, p.sectors);
    LiveKeptJoins(g, o.meta, p.meta, o.sectors, p.sectors, dj.fs.view);
    StretchesJoin(g, o.fat, o.sectors, o.cs, p.fat, p.sectors, ds, dj.fs.fat, es, |o.sectors|, p.meta);
    MetaOnlyJoins(g, p.meta, dj.fs.meta, o.sectors, p.sectors, dj.fs.view);
  }

  lemma SameLength(g: Layout, m: set<nat>, v: seq<Sector>, w: seq<Sector>)
    requires MetaOnly(g, m, v, w)
    ensures |v| == |w|
  {
  }

  // Writes to metadata sectors that do not change the FAT.
  lemma GrewByWrites(dj: Dir, o: Baseline, ds: seq<dword>, p: Baseline)
    requires Grew(dj.fs.g, o, ds, p.fat, p.sectors, p.meta, p.inOrder)
    requires dj.fs.fat == p.fat && dj.fs.meta == p.meta && MetaOnly(dj.fs.g, dj.fs.meta, p.sectors, dj.fs.view)
    requires (InOrder(dj.fs.g, dj.fs.steps) <==> p.inOrder) && LiveKept(dj.fs.g, p.meta, p.sectors, dj.fs.view)
    ensures HasGrown(dj, o, ds)
  {
    hide Layout.Checked, Lengthened, StretchSafe, FreeIsUnused, InOrder, MetaAdded, LiveKept;
    LiveKeptJoins(dj.fs.g, o.meta, p.meta, o.sectors, p.sectors, dj.fs.view);
    MetaOnlyJoins(dj.fs.g, p.meta, dj.fs.meta, o.sectors, p.sectors, dj.fs.view);
  }

  // The cursor after a stretch from sectors v, FAT f and metadata m.
  lemma AfterStretch(dj: Dir, cs: seq<dword>, i: nat, v: seq<Sector>, f: seq<nat>, m: set<nat>, steps: seq<Snapshot>,
                     c: dword)
    requires dj.fs.Valid() && dj.Placed() && dj.index == i < 0x1_0000 && |v| == |dj.fs.view|
    requires dj.fs.g.Checked(|v|) && dj.fs.g.fatbase + dj.fs.g.FatSectors() <= |v| && f == FatOf(dj.fs.g, v)
    requires dj.fs.g.dirbase < 0x1_0000_0000 && TableChain(dj.fs.g, f, dj.sclust, cs)
    requires Reserved(dj.fs.g, f, |v|, m, cs) && cs != []
    requires cs[|cs| - 1] < |f| && f[cs[|cs| - 1]] >= |f| && i == |Table(dj.fs.g, v, cs)|
    requires dj.fs.g.IsCluster(c) && f[c] == 0 && dj.fs.fat == f[c := Eoc(dj.fs.g)][cs[|cs| - 1] := c]
    requires Stretched(dj.fs.g, v, dj.fs.view, c) && dj.fs.meta == m + ClusterSectors(dj.fs.g, c)
    requires |steps| > 0 && WriteBehind.Agrees(v, steps[|steps| - 1]) && steps[|steps| - 1].meta == m
    requires StretchSteps(dj.fs.g, v, m, steps, dj.fs.steps, f, Eoc(dj.fs.g), c, cs[|cs| - 1])
    ensures Reserved(dj.fs.g, dj.fs.fat, |dj.fs.view|, dj.fs.meta, cs + [c]) && Proper(dj.fs.g, cs + [c])
    ensures Working(dj, cs + [c], Table(dj.fs.g, dj.fs.view, cs + [c]), i)
    ensures Continues(Table(dj.fs.g, v, cs), Table(dj.fs.g, dj.fs.view, cs + [c]))
    ensures MetaOnly(dj.fs.g, dj.fs.meta, v, dj.fs.view) && Lengthened(dj.fs.g, f, dj.fs.fat, cs, cs + [c])
    ensures MetaAdded(dj.fs.g, m, dj.fs.meta, cs, cs + [c]) && LiveKept(dj.fs.g, m, v, dj.fs.view)
    ensures InOrder(dj.fs.g, dj.fs.steps) <==> InOrder(dj.fs.g, steps) && StretchSafe(dj.fs.g, f, v, cs, cs + [c])
  {
    hide FatOf, FatMap.Entry, Seek, Chronicle, Store, StretchSteps, DirTables.Table, Reserved, FreeIsUnused;
    hide ClusterLive, StretchSafe, MetaAdded, LiveKept;
    EocEnds(dj.fs.g, |v|);
    StretchedIsTable(dj.fs.g, f, dj.fs.fat, v, dj.fs.view, m, Eoc(dj.fs.g), dj.sclust, cs, c);
    GrowsByEntry(dj.fs.g, cs, c, i);
    StretchIsSafe(dj.fs.g, v, m, steps, dj.fs.steps, Eoc(dj.fs.g), c, cs[|cs| - 1]);
    LengthenedByOne(dj.fs.g, f, dj.fs.fat, v, cs, c, Eoc(dj.fs.g));
    TornAnyway(dj.fs.g, f, v, cs, cs + [c]);
    ClusterAdded(dj.fs.g, m, cs, c);
    StretchKeepsLive(dj.fs.g, m, v, dj.fs.view, c);
    Unstretched(dj, cs + [c], Table(dj.fs.g, dj.fs.view, cs + [c]), i);
  }

  lemma TornAnyway(g: Layout, f: seq<nat>, v: seq<Sector>, cs: seq<dword>, ds: seq<dword>)
    ensures g.fsType == Fat12 ==> StretchSafe(g, f, v, cs, ds)
  {
  }

  lemma GrowsByEntry(g: Layout, cs: seq<dword>, c: dword, i: nat)
    requires g.csize > 0 && cs != [] && i == Size(g, cs) < 0x1_0000
    ensures i < Size(g, cs + [c])
  {
    TimesGap(|cs| + 1, |cs|, g.csize);
  }

  // ----- when the table can be extended

  // The clusters by which the chain cs can be stretched, and the code of the failure then.
  ghost function SupplyAt(g: Layout, f: seq<nat>, cs: seq<dword>): Chains.Supply {
    if cs != [] && |f| >= 3 && Eoc(g) > 0 && Chains.IsCluster(f, cs[|cs| - 1]) && f[cs[|cs| - 1]] != 0
    then Chains.SupplyOf(f, Eoc(g), cs[|cs| - 1]) else Chains.Supply(0, 0)
  }

  // The answer when no further cluster can be had.
  function FullCode(s: Chains.Supply): FResult {
    if s.code == 0 then Denied else IntErr
  }

  // Without FAT entries equal to 1 these are all free clusters.
  lemma AllFreeCount(g: Layout, f: seq<nat>, cs: seq<dword>, limit: nat)
    requires g.Sound(limit) && |f| == g.nFatent && cs != [] && Chains.IsChain(f, cs) && !HasOne(f)
    ensures SupplyAt(g, f, cs) == Chains.Supply(Chains.CountFree(f), 0)
  {
    hide Chains.SupplyOf, Chains.CountFree;
    EocEnds(g, limit);
    Chains.ChainEntries(f, cs, |cs| - 1);
    Chains.SupplyIsFree(f, Eoc(g), cs[|cs| - 1]);
  }

  // An allocation behind the end of a chain takes one cluster of the supply.
  lemma GrowthTakesOne(g: Layout, f: seq<nat>, cs: seq<dword>, last: nat)
    requires |f| >= 3 && |f| <= Eoc(g) && cs != []
    requires var end := cs[|cs| - 1]; Chains.IsCluster(f, end) && f[end] >= |f|
    ensures var r, s := Chains.Create(f, Eoc(g), last, cs[|cs| - 1]), SupplyAt(g, f, cs);
            && (r.grew <==> s.count > 0) && (!r.grew ==> r.code == s.code)
            && (r.grew && r.code < 0x1_0000_0000 ==>
                 SupplyAt(g, r.fat, cs + [r.code]) == Chains.Supply(s.count - 1, s.code))
  {
  }

  lemma {:induction false} PowerDivides(n: nat, m: nat)
    requires PowerOfTwo(n) && PowerOfTwo(m) && n <= m
    ensures m % n == 0
    decreases n
  {
    if n > 1 {
      PowerDivides(n / 2, m / 2);
      DivModUnique(m, n, m / 2 / (n / 2), 0);
    }
  }

  // The sizes of a directory in a chain are multiples of the entries of a cluster.
  lemma WholeTable(g: Layout, cs: seq<dword>, limit: nat)
    requires g.Checked(limit) && cs != []
    ensures PerCluster(g) > 0 && Size(g, cs) % PerCluster(g) == 0 && 0x1_0000 % PerCluster(g) == 0
  {
    Mount.PowerOfTwo128();
    PowerDivides(g.csize, 128);
    DivModUnique(0x1_0000, PerCluster(g), 32 * (128 / g.csize), 0);
    TimesIsProduct(|cs|, g.csize);
    DivModUnique(16 * Capacity(g, cs), PerCluster(g), |cs|, 0);
  }

  lemma OneClusterMore(g: Layout, cs: seq<dword>, c: dword, limit: nat)
    requires g.Checked(limit) && cs != [] && Size(g, cs) < 0x1_0000
    ensures PerCluster(g) > 0 && Size(g, cs + [c]) == Size(g, cs) + PerCluster(g)
  {
    WholeTable(g, cs, limit);
    RoomStep(Size(g, cs), PerCluster(g));
    assert Capacity(g, cs + [c]) == Capacity(g, cs) + g.csize;
  }

  // A step behind entry i that left FAT h, chain ds and table u, and returned res: it fails exactly at the end of a
  // table that cannot be extended, for want of entries or of clusters.
  ghost predicate Stepped(g: Layout, f: seq<nat>, h: seq<nat>, cs: seq<dword>, ds: seq<dword>, t: seq<Slot>,
                          u: seq<Slot>, i: nat, res: FResult)
  {
    var s := SupplyAt(g, f, cs);
    && PerCluster(g) > 0
    && res == (if i + 1 < |t| then Ok else if cs == [] || |t| >= 0x1_0000 then NoFile
               else if s.count == 0 then FullCode(s) else Ok)
    && if i + 1 == |t| && res == Ok
       then
         && cs != [] && ds != [] && |u| == |t| + PerCluster(g)
         && SupplyAt(g, h, ds) == Chains.Supply(s.count - 1, s.code)
       else ds == cs && u == t && h == f
  }

  lemma SteppedPlainly(g: Layout, f: seq<nat>, cs: seq<dword>, t: seq<Slot>, i: nat, res: FResult)
    requires g.csize > 0 && if i + 1 < |t| then res == Ok else res == NoFile && (cs == [] || |t| >= 0x1_0000)
    ensures Stepped(g, f, f, cs, cs, t, t, i, res)
  {
  }

  lemma SteppedFull(g: Layout, f: seq<nat>, cs: seq<dword>, t: seq<Slot>, i: nat, res: FResult, last: nat)
    requires g.csize > 0 && |f| >= 3 && |f| <= Eoc(g) && cs != []
    requires var end := cs[|cs| - 1]; Chains.IsCluster(f, end) && f[end] >= |f|
    requires var r := Chains.Create(f, Eoc(g), last, cs[|cs| - 1]);
        !r.grew && res == if r.code == 0 then Denied else IntErr
    requires i + 1 == |t| < 0x1_0000
    ensures Stepped(g, f, f, cs, cs, t, t, i, res)
  {
    hide Chains.Create, SupplyAt;
    GrowthTakesOne(g, f, cs, last);
  }

  lemma SteppedLonger(g: Layout, f: seq<nat>, cs: seq<dword>, c: dword, t: seq<Slot>, u: seq<Slot>, i: nat, last: nat,
                      limit: nat)
    requires g.Checked(limit) && |f| >= 3 && |f| <= Eoc(g) && cs != []
    requires var end := cs[|cs| - 1]; Chains.IsCluster(f, end) && f[end] >= |f|
    requires var r := Chains.Create(f, Eoc(g), last, cs[|cs| - 1]); r.grew && r.code == c
    requires i + 1 == |t| == Size(g, cs) < 0x1_0000 && |u| == Size(g, cs + [c])
    ensures Stepped(g, f, Chains.Create(f, Eoc(g), last, cs[|cs| - 1]).fat, cs, cs + [c], t, u, i, Ok)
  {
    hide Chains.Create, Size, SupplyAt;
    OneClusterMore(g, cs, c, limit);
    GrowthTakesOne(g, f, cs, last);
  }

  // Move the cursor on; at the end of a table in a chain, extend it by a zeroed cluster.
  method StepOrStretch(dj: Dir, ghost i: nat, ghost cs: seq<dword>, ghost t: seq<Slot>)
    returns (res: FResult, ghost ds: seq<dword>, ghost u: seq<Slot>)
    requires Working(dj, cs, t, i)
    modifies dj`index, dj`clust, dj`sect, dj`off, dj.fs, dj.fs.win, dj.fs.disk
    ensures TableReady(dj, ds) && EntriesOf(dj, ds) == u && Continues(t, u) && HasGrown(dj, old(BaselineOf(dj, cs)), ds)
    ensures if res == Ok then Working(dj, ds, u, i + 1) else i + 1 == |t|
    ensures Stepped(dj.fs.g, old(dj.fs.fat), dj.fs.fat, cs, ds, t, u, i, res)
    ensures old(dj.fs.disk.log) <= dj.fs.disk.log && old(dj.fs.steps) <= dj.fs.steps
    ensures old(dj.fs.meta) <= dj.fs.meta
    ensures dj.fs.winsect == old(dj.fs.winsect) || dj.fs.g.InFat(dj.fs.winsect) || dj.fs.winsect in dj.fs.meta
  {
    hide FatOf, FatMap.Entry, TableChain, Seek, Next, StretchSteps, Stretched, Size, Layout.Checked, Chronicle;
    hide DirTables.Table;
    hide Working, On, Reserved, Chains.Create, InOrder, WriteBehind.Agrees, Volume.Valid, Volume.Base;
    hide Layout.Clust2Sect, StretchSafe;
    hide Dir.AtChainEnd, Dir.Placed, FreeIsUnused, Proper, Store, Continues, MetaOnly, Chains.GrowthTrace, Lengthened;
    hide MetaAdded, LiveKept, Stepped;
    hide TableReady, EntriesOf, Listing;
    ghost var v, m, f, steps, last, end := dj.fs.view, dj.fs.meta, dj.fs.fat, dj.fs.steps, dj.fs.lastClust, dj.clust;
    WorkingFacts(dj, cs, t, i);
    AtTableEnd(dj, cs, t, i);
    dj.fs.LastStep();
    MetaOnlyRefl(dj.fs.g, m, v);
    LiveKeptRefl(dj.fs.g, m, v);
    ContinuesRefl(t);
    WorkingIsReady(dj, cs, t, i);
    ghost var o := BaselineOf(dj, cs);
    NothingGrew(dj, cs);
    ds, u := cs, t;
    ghost var stretches := dj.AtChainEnd();
    if stretches { EndFacts(dj, cs, t, i, last); }
    StepFacts(dj, cs, t, i);
    res := dj.DirNext(true);
    dj.fs.LastStep();
    if res == Ok && stretches {
      AfterStretch(dj, cs, i + 1, v, f, m, steps, dj.clust);
      ds := cs + [dj.clust];
      u := Table(dj.fs.g, dj.fs.view, ds);
      WorkingIsReady(dj, ds, u, i + 1);
      GrewByOne(dj, o, ds);
      SteppedLonger(dj.fs.g, f, cs, dj.clust, t, u, i, last, |v|);
    } else {
      if stretches {
        SteppedFull(dj.fs.g, f, cs, t, i, res, last);
      } else {
        SteppedPlainly(dj.fs.g, f, cs, t, i, res);
      }
      StillTable(dj, cs, t, f, m, |v|);
      GrewByWrites(dj, o, cs, o);
      if res == Ok { Unstretched(dj, cs, t, i + 1); }
    }
  }

  lemma StepFacts(dj: Dir, cs: seq<dword>, t: seq<Slot>, i: nat)
    requires Working(dj, cs, t, i)
    ensures dj.fs.g.csize > 0 && dj.fs.Valid() && (dj.AtChainEnd() <==> i + 1 == |t| < 0x1_0000 && cs != [])
    ensures |dj.fs.fat| == dj.fs.g.nFatent >= 3 && |dj.fs.fat| <= Eoc(dj.fs.g) && |t| == Size(dj.fs.g, cs)
    ensures dj.AtChainEnd() ==> Chains.IsCluster(dj.fs.fat, dj.clust)
    ensures i + 1 < |t| ==> Next(dj.fs.g, dj.fs.fat, dj.Here()).At?
    ensures i + 1 == |t| && !dj.AtChainEnd() ==> Next(dj.fs.g, dj.fs.fat, dj.Here()) == Nowhere(NoFile)
  {
    hide FatOf, FatMap.Entry, Seek, Next, Chronicle, Store, DirTables.Table, Reserved, FreeIsUnused;
    AtTableEnd(dj, cs, t, i);
    WorkingFacts(dj, cs, t, i);
    EocEnds(dj.fs.g, |dj.fs.view|);
    Bounds(dj.fs.g, |dj.fs.view|);
  }

  lemma GrewByOne(dj: Dir, o: Baseline, ds: seq<dword>)
    requires TableReady(dj, ds) && dj.fs.g.Checked(|o.sectors|) && o.meta <= dj.fs.meta
    requires MetaOnly(dj.fs.g, dj.fs.meta, o.sectors, dj.fs.view) && LiveKept(dj.fs.g, o.meta, o.sectors, dj.fs.view)
    requires Lengthened(dj.fs.g, o.fat, dj.fs.fat, o.cs, ds) && MetaAdded(dj.fs.g, o.meta, dj.fs.meta, o.cs, ds)
    requires InOrder(dj.fs.g, dj.fs.steps) <==> o.inOrder && StretchSafe(dj.fs.g, o.fat, o.sectors, o.cs, ds)
    ensures HasGrown(dj, o, ds)
  {
  }

  lemma StillTable(dj: Dir, cs: seq<dword>, t: seq<Slot>, f: seq<nat>, m: set<nat>, limit: nat)
    requires dj.fs.Valid() && dj.fs.fat == f && dj.fs.meta == m && |dj.fs.view| == limit
    requires Reserved(dj.fs.g, f, limit, m, cs)
    requires dj.fs.g.dirbase < 0x1_0000_0000 && TableChain(dj.fs.g, f, dj.sclust, cs)
    requires dj.fs.g.Checked(|dj.fs.view|) && Proper(dj.fs.g, cs) && (dj.fs.g.fsType == Fat32 ==> cs != [])
    requires t == Table(dj.fs.g, dj.fs.view, cs)
    ensures TableReady(dj, cs) && EntriesOf(dj, cs) == t
  {
  }

  lemma EndFacts(dj: Dir, cs: seq<dword>, t: seq<Slot>, i: nat, last: nat)
    requires Working(dj, cs, t, i) && dj.fs.Valid() && dj.AtChainEnd()
    ensures cs != [] && cs[|cs| - 1] == dj.clust && dj.clust < |dj.fs.fat| && dj.fs.fat[dj.clust] >= |dj.fs.fat|
    ensures i + 1 < 0x1_0000
    ensures |dj.fs.fat| >= 3
    ensures var r := Chains.Create(dj.fs.fat, Eoc(dj.fs.g), last, dj.clust);
            r.grew ==> dj.fs.g.IsCluster(r.code) && dj.fs.fat[r.code] == 0 && r.code < 0x1_0000_0000
                       && r.fat == dj.fs.fat[r.code := Eoc(dj.fs.g)][dj.clust := r.code]
  {
    AtTableEnd(dj, cs, t, i);
    WorkingFacts(dj, cs, t, i);
    Bounds(dj.fs.g, |dj.fs.view|);
    GrowthOutcome(dj.fs.g, dj.fs.fat, Eoc(dj.fs.g), last, dj.clust);
  }

  // ----- reserving entries

  // A run of ne entries that ends with entry i.
  ghost predicate FreeRun(t: seq<Slot>, u: seq<Slot>, at: nat, ne: nat) {
    && Continues(t, u) && at + ne <= |u| && at <= |t|
    && (forall p :: at <= p < at + ne ==> Blank(u[p]))
    && (at > 0 ==> !Blank(t[at - 1]))
  }

  lemma RunIsFree(t: seq<Slot>, u: seq<Slot>, i: nat, n: nat, start: nat)
    requires Continues(t, u) && RunBefore(u, i, n, start) && n > 0
    ensures FreeRun(t, u, start, n)
  {
    if start > 0 {
      assert !Blank(u[start - 1]);
    }
  }

  // The search for ne entries, begun with FAT f0, chain cs and table t, stands in front of entry i of table u, behind n
  // blank entries.
  ghost predicate OnTrack(g: Layout, f0: seq<nat>, cs: seq<dword>, t: seq<Slot>, ne: nat, f: seq<nat>, ds: seq<dword>,
                          u: seq<Slot>, i: nat, n: nat)
  {
    var s, s0 := SupplyAt(g, f, ds), SupplyAt(g, f0, cs);
    && PerCluster(g) > 0 && i <= |u|
    && Scanning(u, i, n, ne, ds != [], PerCluster(g), s.count, FullCode(s))
       == Scanning(t, 0, 0, ne, cs != [], PerCluster(g), s0.count, FullCode(s0))
  }

  // The search ended with res.
  ghost predicate Searched(g: Layout, f: seq<nat>, cs: seq<dword>, t: seq<Slot>, ne: nat, res: FResult) {
    var s := SupplyAt(g, f, cs);
    res == Scanning(t, 0, 0, ne, cs != [], PerCluster(g), s.count, FullCode(s))
  }

  lemma TrackStarts(g: Layout, f: seq<nat>, cs: seq<dword>, t: seq<Slot>, ne: nat)
    requires g.csize > 0
    ensures OnTrack(g, f, cs, t, ne, f, cs, t, 0, 0)
  {
  }

  lemma TrackFound(g: Layout, f0: seq<nat>, cs: seq<dword>, t: seq<Slot>, ne: nat, f: seq<nat>, ds: seq<dword>,
                   u: seq<Slot>, i: nat, n: nat)
    requires OnTrack(g, f0, cs, t, ne, f, ds, u, i, n) && i < |u| && Blank(u[i]) && n + 1 == ne
    ensures Searched(g, f0, cs, t, ne, Ok)
  {
  }

  lemma TrackStep(g: Layout, f0: seq<nat>, cs: seq<dword>, t: seq<Slot>, ne: nat, f: seq<nat>, ds: seq<dword>,
                  u: seq<Slot>, i: nat, n: nat, m: nat, h: seq<nat>, es: seq<dword>, w: seq<Slot>, res: FResult)
    requires OnTrack(g, f0, cs, t, ne, f, ds, u, i, n) && i < |u|
    requires m == (if Blank(u[i]) then n + 1 else 0) && m < ne
    requires Stepped(g, f, h, ds, es, u, w, i, res) && Continues(u, w)
    ensures if res == Ok then OnTrack(g, f0, cs, t, ne, h, es, w, i + 1, m) else Searched(g, f0, cs, t, ne, res)
  {
    hide SupplyAt, Growing;
    var per, s := PerCluster(g), SupplyAt(g, f, ds);
    var full := FullCode(s);
    assert Scanning(u, i, n, ne, ds != [], per, s.count, full) == Scanning(u, i + 1, m, ne, ds != [], per, s.count,
      full);
    if i + 1 == |u| {
      EndOfScan(u, m, ne, ds != [], per, s.count, full);
      if res == Ok {
        ScanningExtended(u, w, m, ne, per, s.count, full);
      }
    }
  }

  lemma EndOfScan(u: seq<Slot>, m: nat, ne: nat, chained: bool, per: nat, free: nat, full: FResult)
    requires m < ne
    ensures Scanning(u, |u|, m, ne, chained, per, free, full) == Growing(|u|, m, ne, chained, per, free, full)
    ensures !chained || |u| >= 0x1_0000 ==> Growing(|u|, m, ne, chained, per, free, full) == NoFile
    ensures chained && |u| < 0x1_0000 && free == 0 ==> Growing(|u|, m, ne, chained, per, free, full) == full
  {
  }

  // What reserving ne entries in table t comes to, told from the state before.
  ghost predicate IsReservation(g: Layout, f: seq<nat>, cs: seq<dword>, t: seq<Slot>, ne: nat, res: FResult) {
    var s := SupplyAt(g, f, cs);
    && PerCluster(g) > 0 && |t| <= 0x1_0000
    && res == Reservation(t, ne, cs != [], PerCluster(g), s.count, FullCode(s))
  }

  lemma SearchedIsReservation(g: Layout, f: seq<nat>, cs: seq<dword>, t: seq<Slot>, ne: nat, res: FResult, limit: nat)
    requires g.Checked(limit) && |t| == Size(g, cs) <= 0x1_0000 && ne > 0 && Searched(g, f, cs, t, ne, res)
    ensures IsReservation(g, f, cs, t, ne, res)
  {
    hide Layout.Checked, Size, Scanning, Reservation, SupplyAt;
    if cs != [] { WholeTable(g, cs, limit); }
    PerClusterPositive(g, limit);
    var s := SupplyAt(g, f, cs);
    ScanningIs(t, ne, cs != [], PerCluster(g), s.count, FullCode(s));
  }

  // Without FAT entries equal to 1, the table and the number of free clusters decide.
  lemma CountDecides(g: Layout, f: seq<nat>, cs: seq<dword>, t: seq<Slot>, ne: nat, res: FResult, limit: nat)
    requires g.Sound(limit) && |f| == g.nFatent && (cs != [] ==> Chains.IsChain(f, cs)) && !HasOne(f)
    requires IsReservation(g, f, cs, t, ne, res)
    ensures PerCluster(g) > 0 && |t| <= 0x1_0000
    ensures res == Reservation(t, ne, cs != [], PerCluster(g), Chains.CountFree(f), Denied)
  {
    hide Layout.Sound, SupplyAt, Chains.CountFree, HasOne, Chains.IsChain;
    if cs != [] { AllFreeCount(g, f, cs, limit); }
  }

  lemma PerClusterPositive(g: Layout, limit: nat)
    requires g.Checked(limit)
    ensures PerCluster(g) > 0 && g.csize > 0
  {
  }

  // Find ne contiguous blank entries, extending the table where it ends.
  method ReserveEntries(dj: Dir, ne: word, ghost cs: seq<dword>, ghost t: seq<Slot>)
    returns (res: FResult, start: word, ghost ds: seq<dword>, ghost u: seq<Slot>)
    requires Working(dj, cs, t, 0) && 1 <= ne
    modifies dj`index, dj`clust, dj`sect, dj`off, dj.fs, dj.fs.win, dj.fs.disk
    ensures TableReady(dj, ds) && EntriesOf(dj, ds) == u && Continues(t, u) && HasGrown(dj, old(BaselineOf(dj, cs)), ds)
    ensures IsReservation(dj.fs.g, old(dj.fs.fat), cs, t, ne, res)
    ensures res == Ok ==> start + ne <= |u| && Working(dj, ds, u, start + ne - 1) && FreeRun(t, u, start, ne)
    ensures old(dj.fs.disk.log) <= dj.fs.disk.log && old(dj.fs.steps) <= dj.fs.steps
    ensures old(dj.fs.meta) <= dj.fs.meta
    ensures dj.fs.winsect == old(dj.fs.winsect) || dj.fs.g.InFat(dj.fs.winsect) || dj.fs.winsect in dj.fs.meta
  {
    hide *;
    WorkingIsReady(dj, cs, t, 0);
    NothingGrew(dj, cs);
    ghost var o := BaselineOf(dj, cs);
    ContinuesRefl(t);
    RunStarts(t);
    ds, u := cs, t;
    var n: word := 0;
    start := 0;
    ghost var i := 0;
    res := Ok;
    WorkingFacts(dj, cs, t, 0);
    ghost var g, f0, limit := dj.fs.g, dj.fs.fat, |dj.fs.view|;
    PerClusterPositive(g, limit);
    TableLimit(dj, cs);
    TrackStarts(g, f0, cs, t, ne);
    while true
      invariant res == Ok && Working(dj, ds, u, i) && Continues(t, u) && RunBefore(u, i, n, start) && n < ne
      invariant dj.index == i < |u| <= 0x1_0000
      invariant HasGrown(dj, o, ds) && OnTrack(g, f0, cs, t, ne, dj.fs.fat, ds, u, i, n)
      invariant old(dj.fs.disk.log) <= dj.fs.disk.log && old(dj.fs.steps) <= dj.fs.steps
      invariant old(dj.fs.meta) <= dj.fs.meta
      invariant dj.fs.winsect == old(dj.fs.winsect) || dj.fs.g.InFat(dj.fs.winsect) || dj.fs.winsect in dj.fs.meta
      decreases 0x1_0000 - i
    {
      var blank;
      res, blank := LookBlank(dj, i, ds, u);
      if res != Ok { break; }
      ghost var f, before, es := dj.fs.fat, n, ds;
      WorkingFacts(dj, ds, u, i);
      RunOn(u, i, n, start);
      if blank {
        if n == 0 { start := dj.index; }
        n := n + 1;
        if n == ne {
          RunIsFree(t, u, i + 1, n, start);
          EndsAt(u, i, n, start);
          TrackFound(g, f0, cs, t, ne, f, ds, u, i, before);
          break;
        }
      } else {
        n := 0;
      }
      ghost var u1 := u;
      res, ds, u := StepFurther(dj, i, ds, u, o);
      BlanksGoOn(t, u1, u, i + 1, n, start);
      TrackStep(g, f0, cs, t, ne, f, es, u1, i, before, n, dj.fs.fat, ds, u, res);
      if res != Ok { break; }
      i := i + 1;
      WorkingFacts(dj, ds, u, i);
    }
    if res == Ok { WorkingIsReady(dj, ds, u, i); }
    SearchedIsReservation(g, f0, cs, t, ne, res, limit);
  }

  lemma TableLimit(dj: Dir, cs: seq<dword>)
    requires dj.fs.Valid() && Listing(dj, cs)
    ensures Size(dj.fs.g, cs) <= 0x1_0000
  {
    ListingFacts(dj, cs);
  }

  // Look whether the entry at the cursor is blank.
  method LookBlank(dj: Dir, ghost i: nat, ghost cs: seq<dword>, ghost t: seq<Slot>) returns (res: FResult, blank: bool)
    requires Working(dj, cs, t, i)
    modifies dj.fs`winsect, dj.fs`wflag, dj.fs.win, dj.fs.disk
    ensures res == Ok && Working(dj, cs, t, i) && i < |t| && blank == Blank(t[i]) && dj.fs.fat == old(dj.fs.fat)
    ensures old(dj.fs.disk.log) <= dj.fs.disk.log
    ensures old(dj.fs.meta) <= dj.fs.meta
    ensures dj.fs.winsect == old(dj.fs.winsect) || dj.fs.g.InFat(dj.fs.winsect) || dj.fs.winsect in dj.fs.meta
  {
    hide Working;
    var e;
    res, e := Load(dj, i, cs, t);
    WorkingFacts(dj, cs, t, i);
    blank := e[0] == 0xE5 || e[0] == 0;
  }

  // Move on, since o.
  method StepFurther(dj: Dir, ghost i: nat, ghost cs: seq<dword>, ghost t: seq<Slot>, ghost o: Baseline)
    returns (res: FResult, ghost ds: seq<dword>, ghost u: seq<Slot>)
    requires Working(dj, cs, t, i) && HasGrown(dj, o, cs)
    modifies dj`index, dj`clust, dj`sect, dj`off, dj.fs, dj.fs.win, dj.fs.disk
    ensures TableReady(dj, ds) && EntriesOf(dj, ds) == u && Continues(t, u) && HasGrown(dj, o, ds)
    ensures if res == Ok then Working(dj, ds, u, i + 1) else i + 1 == |t|
    ensures Stepped(dj.fs.g, old(dj.fs.fat), dj.fs.fat, cs, ds, t, u, i, res)
    ensures old(dj.fs.disk.log) <= dj.fs.disk.log && old(dj.fs.steps) <= dj.fs.steps
    ensures old(dj.fs.meta) <= dj.fs.meta
    ensures dj.fs.winsect == old(dj.fs.winsect) || dj.fs.g.InFat(dj.fs.winsect) || dj.fs.winsect in dj.fs.meta
  {
    hide *;
    ghost var p := BaselineOf(dj, cs);
    BaselineGrew(dj, o, cs);
    res, ds, u := StepOrStretch(dj, i, cs, t);
    GrewOn(dj, o, cs, p, ds);
  }

  lemma BaselineGrew(dj: Dir, o: Baseline, cs: seq<dword>)
    requires HasGrown(dj, o, cs)
    ensures var p := BaselineOf(dj, cs); p.cs == cs && Grew(dj.fs.g, o, cs, p.fat, p.sectors, p.meta, p.inOrder)
  {
  }

  lemma BlanksGoOn(t: seq<Slot>, u: seq<Slot>, w: seq<Slot>, i: nat, n: nat, start: nat)
    requires Continues(t, u) && Continues(u, w) && RunBefore(u, i, n, start)
    ensures Continues(t, w) && RunBefore(w, i, n, start)
  {
    ContinuesOn(t, u, w);
    RunExtended(u, w, i, n, start);
  }

  lemma RunStarts(t: seq<Slot>)
    ensures RunBefore(t, 0, 0, 0)
  {
  }

  lemma EndsAt(u: seq<Slot>, i: nat, n: nat, start: nat)
    requires RunBefore(u, i + 1, n, start) && n > 0 && i < |u|
    ensures start + n - 1 == i
  {
  }

  // ----- writing the entries

  // Table w is u with parts n, n - 1, ... of the name in its entries from index at on, up to index k.
  ghost predicate Filled(u: seq<Slot>, w: seq<Slot>, at: nat, n: nat, k: nat, name: seq<word>, sum: byte) {
    && |w| == |u| && k <= at + n <= |u| && at <= k
    && (forall p :: at <= p < k ==> IsPart(w[p], name, at + n - p, sum))
    && (forall p :: 0 <= p < |u| && !(at <= p < k) ==> w[p] == u[p])
  }

  lemma FilledOn(u: seq<Slot>, w: seq<Slot>, at: nat, n: nat, k: nat, name: seq<word>, sum: byte, e: Slot)
    requires Filled(u, w, at, n, k, name, sum) && k < at + n && IsPart(e, name, at + n - k, sum)
    ensures Filled(u, w[k := e], at, n, k + 1, name, sum)
  {
  }

  lemma FillStarts(u: seq<Slot>, at: nat, n: nat, name: seq<word>, sum: byte)
    requires at + n <= |u|
    ensures Filled(u, u, at, n, at, name, sum)
  {
  }

  // Write all parts of the long name, the last one first; the cursor ends on the entry behind them.
  method PutAllLong(dj: Dir, lfn: array<word>, sum: byte, n: byte, at: word, ghost name: seq<word>, ghost i: nat,
                    ghost cs: seq<dword>, ghost u: seq<Slot>)
    returns (res: FResult, ghost w: seq<Slot>)
    requires Working(dj, cs, u, i) && Holds(lfn[..], name) && n as int == Parts(name) > 0 && at + n < |u|
    requires forall p :: at <= p < at + n ==> Blank(u[p])
    modifies dj`index, dj`clust, dj`sect, dj`off, dj.fs, dj.fs.win, dj.fs.disk
    ensures res == Ok && Working(dj, cs, w, at + n) && Filled(u, w, at, n, at + n, name, sum)
    ensures dj.fs.meta == old(dj.fs.meta) && dj.fs.fat == old(dj.fs.fat)
    ensures MetaOnly(dj.fs.g, dj.fs.meta, old(dj.fs.view), dj.fs.view)
    ensures LiveKept(dj.fs.g, dj.fs.meta, old(dj.fs.view), dj.fs.view)
    ensures InOrder(dj.fs.g, old(dj.fs.steps)) <==> InOrder(dj.fs.g, dj.fs.steps)
    ensures old(dj.fs.disk.log) <= dj.fs.disk.log && old(dj.fs.steps) <= dj.fs.steps
    ensures old(dj.fs.meta) <= dj.fs.meta
    ensures dj.fs.winsect == old(dj.fs.winsect) || dj.fs.g.InFat(dj.fs.winsect) || dj.fs.winsect in dj.fs.meta
  {
    hide FatOf, FatMap.Entry, TableChain, Seek, Size, Layout.Checked, Chronicle, DirTables.Table, Working, InOrder;
    hide MetaOnly, LiveKept, Live, SlotAt, WithSlot;
    hide Volume.Valid, Reserved, Listing, On, Holds, IsPart, Filled;
    ghost var v, m := dj.fs.view, dj.fs.meta;
    MetaOnlyRefl(dj.fs.g, m, v);
    LiveKeptRefl(dj.fs.g, m, v);
    FillStarts(u, at, n, name, sum);
    w := u;
    res := GoTo(dj, at, i, cs, u);
    var ne: byte := n;
    ghost var k: nat := at;
    while res == Ok && ne > 0
      invariant res == Ok && ne as int == at + n - k && at <= k && Working(dj, cs, w, k) && |w| == |u|
      invariant Filled(u, w, at, n, k, name, sum)
      invariant dj.fs.meta == m && dj.fs.fat == old(dj.fs.fat) && MetaOnly(dj.fs.g, m, v, dj.fs.view)
      invariant LiveKept(dj.fs.g, m, v, dj.fs.view)
      invariant InOrder(dj.fs.g, old(dj.fs.steps)) <==> InOrder(dj.fs.g, dj.fs.steps)
      invariant old(dj.fs.disk.log) <= dj.fs.disk.log && old(dj.fs.steps) <= dj.fs.steps
      invariant old(dj.fs.meta) <= dj.fs.meta
      invariant dj.fs.winsect == old(dj.fs.winsect) || dj.fs.g.InFat(dj.fs.winsect) || dj.fs.winsect in dj.fs.meta
      decreases ne
    {
      ghost var x := dj.fs.view;
      WorkingFacts(dj, cs, w, k);
      StillBlank(u, w, at, n, k, name, sum);
      EntryAt(dj, cs, w, k);
      ghost var e;
      res, e := PutLong(dj, lfn, ne, sum, name, k, cs, w);
      OneSector(dj.fs.g, m, x, dj.fs.view, dj.sect);
      OneSlot(dj.fs.g, m, x, dj.fs.view, dj.sect, k % 16, e);
      MetaOnlyJoins(dj.fs.g, m, m, v, x, dj.fs.view);
      LiveKeptJoins(dj.fs.g, m, m, v, x, dj.fs.view);
      FilledOn(u, w, at, n, k, name, sum, e);
      w := w[k := e];
      if res != Ok { break; }
      res := NextEntry(dj, k, cs, w);
      k := k + 1;
      ne := ne - 1;
    }
  }

  // The entry to be written next is blank.
  lemma StillBlank(u: seq<Slot>, w: seq<Slot>, at: nat, n: nat, k: nat, name: seq<word>, sum: byte)
    requires Filled(u, w, at, n, k, name, sum) && k < |u| && Blank(u[k])
    ensures |w| == |u| && Blank(w[k]) && !Live(w[k])
  {
  }

  // Where the entry at the cursor lies.
  lemma EntryAt(dj: Dir, cs: seq<dword>, t: seq<Slot>, i: nat)
    requires Working(dj, cs, t, i)
    ensures i < |t| && dj.sect < |dj.fs.view| && SlotAt(dj.fs.view[dj.sect], i % 16) == t[i]
  {
    OnFacts(dj, cs, t, i);
    StandsFacts(dj, cs, i);
  }

  lemma OneSlot(g: Layout, m: set<nat>, v: seq<Sector>, w: seq<Sector>, s: nat, o: nat, e: Slot)
    requires |v| == |w| && s < |v| && o < 16 && !Live(SlotAt(v[s], o)) && w[s] == WithSlot(v[s], o, e)
    requires forall t :: 0 <= t < |w| && t != s ==> w[t] == v[t]
    ensures LiveKept(g, m, v, w)
  {
    hide SlotAt, WithSlot, Live, LiveKept;
    assert w == v[s := WithSlot(v[s], o, e)];
    BlankWritten(g, m, v, s, o, e);
  }

  lemma OneSector(g: Layout, m: set<nat>, v: seq<Sector>, w: seq<Sector>, s: nat)
    requires |v| == |w| && s in m && forall t :: 0 <= t < |w| && t != s ==> w[t] == v[t]
    ensures MetaOnly(g, m, v, w)
  {
  }

  // Write the ne reserved entries from `start` on: the parts of the long name, and the short entry behind them.
  method FillEntries(dj: Dir, fn: array<byte>, lfn: array<word>, ghost name: seq<word>, start: word, ne: word,
                     ghost cs: seq<dword>, ghost r: seq<Slot>)
    returns (res: FResult, ghost w: seq<Slot>)
    requires 1 <= ne && start + ne <= |r| && Working(dj, cs, r, start + ne - 1)
    requires (ne > 1 ==> ne as int == Parts(name) + 1) && forall p :: start <= p < start + ne ==> Blank(r[p])
    requires fn.Length == 12 && fn != dj.fs.win && Holds(lfn[..], name)
    modifies dj`index, dj`clust, dj`sect, dj`off, dj.fs, dj.fs.win, dj.fs.disk
    ensures res == Ok && |w| == |r| && Working(dj, cs, w[start + ne - 1 := ShortEntry(fn[..])], start + ne - 1)
    ensures Filled(r, w, start, ne - 1, start + ne - 1, name, Sum(fn[..][..11])) && dj.fs.winsect == dj.sect
    ensures fn[..] == old(fn[..]) && lfn[..] == old(lfn[..])
    ensures dj.fs.meta == old(dj.fs.meta) && dj.fs.fat == old(dj.fs.fat)
    ensures MetaOnly(dj.fs.g, dj.fs.meta, old(dj.fs.view), dj.fs.view)
    ensures LiveKept(dj.fs.g, dj.fs.meta, old(dj.fs.view), dj.fs.view)
    ensures InOrder(dj.fs.g, old(dj.fs.steps)) <==> InOrder(dj.fs.g, dj.fs.steps)
    ensures old(dj.fs.disk.log) <= dj.fs.disk.log && old(dj.fs.steps) <= dj.fs.steps
    ensures old(dj.fs.meta) <= dj.fs.meta
    ensures dj.fs.winsect == old(dj.fs.winsect) || dj.fs.g.InFat(dj.fs.winsect) || dj.fs.winsect in dj.fs.meta
  {
    hide *;
    ghost var x, m := dj.fs.view, dj.fs.meta;
    MetaOnlyRefl(dj.fs.g, m, x);
    LiveKeptRefl(dj.fs.g, m, x);
    WorkingFacts(dj, cs, r, start + ne - 1);
    w := r;
    if ne > 1 {
      var sum := SumSfn(fn[..]);
      PartsAreFew(lfn[..], name);
      res, w := PutAllLong(dj, lfn, sum, ne - 1, start, name, start + ne - 1, cs, r);
      if res != Ok { return; }
    } else {
      FillStarts(r, start, 0, name, Sum(fn[..][..11]));
    }
    ghost var y := dj.fs.view;
    FilledSize(r, w, start, ne - 1, start + ne - 1, name, Sum(fn[..][..11]));
    StillBlank(r, w, start, ne - 1, start + ne - 1, name, Sum(fn[..][..11]));
    EntryAt(dj, cs, w, start + ne - 1);
    res := PutShort(dj, fn, start + ne - 1, cs, w);
    WorkingFacts(dj, cs, w[start + ne - 1 := ShortEntry(fn[..])], start + ne - 1);
    OneSector(dj.fs.g, m, y, dj.fs.view, dj.sect);
    OneSlot(dj.fs.g, m, y, dj.fs.view, dj.sect, (start + ne - 1) % 16, ShortEntry(fn[..]));
    MetaOnlyJoins(dj.fs.g, m, m, x, y, dj.fs.view);
    LiveKeptJoins(dj.fs.g, m, m, x, y, dj.fs.view);
  }

  lemma PartsAreFew(b: seq<word>, name: seq<word>)
    requires Holds(b, name)
    ensures Parts(name) <= 20
  {
  }

  lemma FilledSize(r: seq<Slot>, w: seq<Slot>, at: nat, n: nat, k: nat, name: seq<word>, sum: byte)
    requires Filled(r, w, at, n, k, name, sum)
    ensures |w| == |r|
  {
  }

  // The number of entries a new object takes.
  function Needed(fn: seq<byte>, name: seq<word>): nat
    requires |fn| == 12
  {
    if fn[11] / 2 % 2 == 1 then Parts(name) + 1 else 1
  }

  // Reserve and write the entries of an object whose short name is settled.
  method WriteEntries(dj: Dir, fn: array<byte>, lfn: array<word>, ghost name: seq<word>, ghost cs: seq<dword>,
                      ghost t: seq<Slot>)
    returns (res: FResult, ghost at: nat, ghost ds: seq<dword>, ghost u: seq<Slot>)
    requires Working(dj, cs, t, 0) && fn.Length == 12 && fn != dj.fs.win && Holds(lfn[..], name) && name != []
    requires fn[0] != 0 && fn[0] != 0xE5
    modifies dj`index, dj`clust, dj`sect, dj`off, dj.fs, dj.fs.win, dj.fs.disk
    ensures TableReady(dj, ds) && EntriesOf(dj, ds) == u && HasGrown(dj, old(BaselineOf(dj, cs)), ds)
    ensures fn[..] == old(fn[..]) && lfn[..] == old(lfn[..])
    ensures var ne := Needed(fn[..], name);
            if res == Ok then Registered(t, u, at, ne, name, fn[..11]) && Working(dj, ds, u, at + ne - 1)
              && dj.fs.winsect == dj.sect && at + ne <= |u| && u[at + ne - 1][12] == fn[11] / 8 % 4 * 8
            else Continues(t, u)
    ensures IsReservation(dj.fs.g, old(dj.fs.fat), cs, t, Needed(fn[..], name), res)
    ensures old(dj.fs.disk.log) <= dj.fs.disk.log && old(dj.fs.steps) <= dj.fs.steps
    ensures old(dj.fs.meta) <= dj.fs.meta
    ensures dj.fs.winsect == old(dj.fs.winsect) || dj.fs.g.InFat(dj.fs.winsect) || dj.fs.winsect in dj.fs.meta
  {
    hide FatOf, FatMap.Entry, TableChain, Seek, Size, Layout.Checked, Chronicle, DirTables.Table, Working, InOrder;
    hide MetaOnly, LiveKept;
    hide Volume.Valid, Reserved, Listing, On, Holds, IsPart, Filled, FreeRun, Registered, ShortEntry, TableReady;
    hide EntriesOf, HasGrown, Grew;
    hide Continues, IsReservation;
    ghost var o := BaselineOf(dj, cs);
    var ne: word := 1;
    if fn[11] / 2 % 2 == 1 {
      var len := NameLength(lfn, name);
      ne := (len + 25) / 13;
    }
    var start;
    ghost var r;
    res, start, ds, r := ReserveEntries(dj, ne, cs, t);
    at, u := start, r;
    if res != Ok { return; }
    ghost var p, w := BaselineOf(dj, ds), r;
    RunIsBlank(t, r, start, ne);
    BaselineGrew(dj, o, ds);
    res, w := FillEntries(dj, fn, lfn, name, start, ne, ds, r);
    GrewByWrites(dj, o, ds, p);
    u := w[start + ne - 1 := ShortEntry(fn[..])];
    WorkingIsReady(dj, ds, u, start + ne - 1);
    FilledIsRegistered(t, r, w, start, ne, name, fn[..]);
    ShortHasNoCluster(fn[..]);
    assert fn[..][..11] == fn[..11];
  }

  lemma RunIsBlank(t: seq<Slot>, u: seq<Slot>, at: nat, ne: nat)
    requires FreeRun(t, u, at, ne)
    ensures at + ne <= |u| && forall p :: at <= p < at + ne ==> Blank(u[p])
  {
  }

  lemma FilledIsRegistered(t: seq<Slot>, r: seq<Slot>, w: seq<Slot>, at: nat, ne: nat, name: seq<word>, fn: seq<byte>)
    requires |fn| == 12 && fn[0] != 0 && fn[0] != 0xE5 && ne >= 1 && (ne > 1 ==> ne == Parts(name) + 1)
    requires FreeRun(t, r, at, ne) && Filled(r, w, at, ne - 1, at + ne - 1, name, Sum(fn[..11]))
    ensures Registered(t, w[at + ne - 1 := ShortEntry(fn)], at, ne, name, fn[..11])
  {
    ShortHasNoCluster(fn);
  }

  // The length of the name in the buffer.
  method NameLength(lfn: array<word>, ghost name: seq<word>) returns (n: word)
    requires Holds(lfn[..], name)
    ensures n as int == |name| <= MAX_LFN
  {
    n := 0;
    HeldChar(lfn[..], name, 0);
    while lfn[n] != 0
      invariant n <= |name| && lfn[n] == LongNames.UnitAt(name, n)
      decreases |name| - n
    {
      HeldChar(lfn[..], name, n + 1);
      n := n + 1;
    }
  }

  // ----- choosing a short name

  lemma NumberedFirst(src: seq<byte>, n: word)
    requires |src| == 11 && src[0] != 0 && src[0] != 0xE5
    ensures Numbered(src, n)[0] != 0 && Numbered(src, n)[0] != 0xE5
  {
    NumberedParts(src, n);
  }

  // The short name is one of the numbered forms of sn that the table t does not hold.
  ghost predicate Chosen(t: seq<Slot>, short: seq<byte>, sn: seq<byte>, name: seq<word>, buffer: seq<word>,
                         up: word -> word)
    requires |sn| == 11 && |buffer| == MAX_LFN + 1
  {
    && (exists n: word :: 1 <= n < 100 && short == Numbered(sn, Number(n, name)))
    && !Find(t, 0, START, Key(short, false, false, buffer), up).Found?
  }

  // The n-th numbered form of the short name sn is taken in table t.
  ghost predicate IsTaken(t: seq<Slot>, sn: seq<byte>, name: seq<word>, buffer: seq<word>, up: word -> word, n: word)
    requires |sn| == 11 && |buffer| == MAX_LFN + 1
  {
    Find(t, 0, START, Key(Numbered(sn, Number(n, name)), false, false, buffer), up).Found?
  }

  // All of the first 99 are.
  ghost predicate AllTaken(t: seq<Slot>, sn: seq<byte>, name: seq<word>, buffer: seq<word>, up: word -> word)
    requires |sn| == 11 && |buffer| == MAX_LFN + 1
  {
    forall n: word :: 1 <= n < 100 ==> IsTaken(t, sn, name, buffer, up, n)
  }

  // Replace a lossy short name by a numbered one that is not taken.
  method ChooseName(dj: Dir, fn: array<byte>, lfn: array<word>, up: word -> word, ghost name: seq<word>,
                    ghost cs: seq<dword>)
    returns (res: FResult)
    requires dj.fs.Valid() && Listing(dj, cs) && fn.Length == 12 && fn != dj.fs.win && Holds(lfn[..], name)
    requires name != []
    requires fn[0] != 0 && fn[0] != 0xE5 && lfn.Length == MAX_LFN + 1
    modifies fn, dj`index, dj`clust, dj`sect, dj`off, dj.fs, dj.fs.win, dj.fs.disk
    ensures dj.fs.Valid() && Kept(dj.fs) && dj.fs.meta == old(dj.fs.meta) && dj.fs.fat == old(dj.fs.fat)
    ensures Listing(dj, cs)
    ensures dj.fs.view == old(dj.fs.view) && dj.fs.steps == old(dj.fs.steps)
    ensures EntriesOf(dj, cs) == old(EntriesOf(dj, cs)) && lfn[..] == old(lfn[..])
    ensures fn[11] == old(fn[11]) && fn[0] != 0 && fn[0] != 0xE5 && (res == Ok || res == Denied)
    ensures res == Ok ==> Chosen(EntriesOf(dj, cs), fn[..11], old(fn[..])[..11], name, lfn[..], up)
    ensures res == if AllTaken(EntriesOf(dj, cs), old(fn[..])[..11], name, lfn[..], up) then Denied else Ok
    ensures old(dj.fs.disk.log) <= dj.fs.disk.log && old(dj.fs.steps) <= dj.fs.steps
    ensures dj.fs.g.csize > 0 && dj.fs.g.nFatent >= 2
    ensures dj.fs.winsect == old(dj.fs.winsect) || dj.fs.g.InFat(dj.fs.winsect) || dj.fs.winsect in dj.fs.meta ||
        OnTable(dj.fs.g, cs, dj.fs.winsect)
  {
    hide Find, FatOf, FatMap.Entry, Listing, Volume.Valid, EntriesOf, Holds, Numbered, Number, StandsOn, OnTable;
    ListingFacts(dj, cs);
    var sn := fn[..];
    fn[11] := 0;
    ghost var t, b := EntriesOf(dj, cs), lfn[..];
    res := Ok;
    var n: word := 1;
    while n < 100
      invariant 1 <= n <= 100 && (n > 1 ==> res == Ok)
      invariant dj.fs.Valid() && Listing(dj, cs) && EntriesOf(dj, cs) == t && lfn[..] == b
      invariant Kept(dj.fs) && dj.fs.meta == old(dj.fs.meta) && dj.fs.fat == old(dj.fs.fat)
      invariant fn[11] == 0 && fn[0] != 0 && fn[0] != 0xE5
      invariant forall k: word :: 1 <= k < n ==> IsTaken(t, sn[..11], name, b, up, k)
      invariant old(dj.fs.disk.log) <= dj.fs.disk.log && old(dj.fs.steps) <= dj.fs.steps
      invariant dj.fs.g.csize > 0 && dj.fs.g.nFatent >= 2
      invariant dj.fs.winsect == old(dj.fs.winsect) || dj.fs.g.InFat(dj.fs.winsect) || dj.fs.winsect in dj.fs.meta ||
        OnTable(dj.fs.g, cs, dj.fs.winsect)
    {
      GenNumname(fn, sn, lfn, n, name);
      NumberedFirst(sn[..11], Number(n, name));
      assert fn[0] == fn[..11][0];
      var idx;
      res, idx := DirFind(dj, fn, lfn, false, up, cs);
      assert fn[0] == fn[..11][0] && fn[..][..11] == fn[..11];
      assert KeyOf(fn[..], false, b) == Key(fn[..11], false, false, b);
      assert IsTaken(t, sn[..11], name, b, up, n) <==> res == Ok;
      if res != Ok { break; }
      n := n + 1;
    }
    if n == 100 { res := Denied; }
    if res == NoFile { res := Ok; }
    fn[11] := sn[11];
  }

  // What registering an object comes to, told from the state before: with a lossy name, one of its numbered forms must
  // not be taken; then the entries must be reserved.
  ghost predicate IsRegistration(g: Layout, f: seq<nat>, cs: seq<dword>, t: seq<Slot>, fn: seq<byte>, name: seq<word>,
                                 buffer: seq<word>, up: word -> word, res: FResult)
    requires |fn| == 12 && |buffer| == MAX_LFN + 1
  {
    if fn[11] % 2 == 1 && AllTaken(t, fn[..11], name, buffer, up) then res == Denied
    else IsReservation(g, f, cs, t, Needed(fn, name), res)
  }

  // Register an object under the name prepared in fn and lfn. If the table has to be extended, the steps are safe
  // exactly if no entry among the old contents of the new clusters leads to a free cluster.
  method DirRegister(dj: Dir, fn: array<byte>, lfn: array<word>, up: word -> word, ghost name: seq<word>,
                     ghost cs: seq<dword>)
    returns (res: FResult, ghost at: nat, ghost ds: seq<dword>)
    requires TableReady(dj, cs) && fn.Length == 12 && fn != dj.fs.win && lfn.Length == MAX_LFN + 1
    requires Holds(lfn[..], name) && name != []
    requires fn[0] != 0 && fn[0] != 0xE5
    modifies fn, dj`index, dj`clust, dj`sect, dj`off, dj.fs, dj.fs.win, dj.fs.disk
    ensures fn[11] == old(fn[11]) && lfn[..] == old(lfn[..]) && old(dj.fs.Valid() && Listing(dj, cs))
    ensures TableReady(dj, ds) && HasGrown(dj, old(BaselineOf(dj, cs)), ds)
    ensures InOrder(dj.fs.g, dj.fs.steps) <==>
              InOrder(dj.fs.g, old(dj.fs.steps)) && StretchSafe(dj.fs.g, old(dj.fs.fat), old(dj.fs.view), cs, ds)
    ensures var t := old(EntriesOf(dj, cs));
            if res == Ok then
              && Registered(t, EntriesOf(dj, ds), at, Needed(fn[..], name), name, fn[..11])
              && StandsOn(dj, ds, at + Needed(fn[..], name) - 1) && dj.fs.winsect == dj.sect
              && EntriesOf(dj, ds)[at + Needed(fn[..], name) - 1][12] == fn[11] / 8 % 4 * 8
              && if fn[11] % 2 == 1 then Chosen(t, fn[..11], old(fn[..])[..11], name, lfn[..], up)
                   else fn[..11] == old(fn[..])[..11]
            else Continues(t, EntriesOf(dj, ds))
    ensures IsRegistration(dj.fs.g, old(dj.fs.fat), cs, old(EntriesOf(dj, cs)), old(fn[..]), name, lfn[..], up, res)
    ensures old(dj.fs.disk.log) <= dj.fs.disk.log && old(dj.fs.steps) <= dj.fs.steps
    ensures old(dj.fs.meta) <= dj.fs.meta
    ensures dj.fs.winsect == old(dj.fs.winsect) || dj.fs.g.InFat(dj.fs.winsect) || dj.fs.winsect in dj.fs.meta
  {
    hide *;
    TableReadyFacts(dj, cs);
    NothingGrew(dj, cs);
    ghost var o := BaselineOf(dj, cs);
    BaselineFacts(dj, cs);
    ghost var t, sn := EntriesOf(dj, cs), fn[..];
    ContinuesRefl(t);
    at, ds := 0, cs;
    res := Ok;
    if fn[11] % 2 == 1 {
      res := ChooseName(dj, fn, lfn, up, name, cs);
      assert fn[..][..11] == fn[..11];
    }
    StillReady(dj, cs, old(dj.fs.fat), old(dj.fs.meta), |old(dj.fs.view)|);
    WindowOnTable(dj, cs);
    GrewFacts(dj, o, ds);
    if res != Ok {
      IsRegistered(dj.fs.g, o.fat, cs, t, sn, name, lfn[..], up, res);
      return;
    }
    res := ToFirst(dj, cs);
    if res != Ok { return; }
    ghost var u;
    ghost var f12 := fn[..];
    SameNeed(sn, f12, name);
    res, at, ds, u := WriteEntries(dj, fn, lfn, name, cs, t);
    IsRegistered(dj.fs.g, o.fat, cs, t, sn, name, lfn[..], up, res);
    GrewFacts(dj, o, ds);
    assert fn[..][..11] == fn[..11];
    if res == Ok {
      AtLeastOne(f12, name);
      WorkingFacts(dj, ds, u, at + Needed(f12, name) - 1);
      OnFacts(dj, ds, u, at + Needed(f12, name) - 1);
    }
  }

  lemma BaselineFacts(dj: Dir, cs: seq<dword>)
    ensures var o := BaselineOf(dj, cs);
            && o.cs == cs && o.fat == dj.fs.fat && o.sectors == dj.fs.view && o.meta == dj.fs.meta
            && (o.inOrder <==> InOrder(dj.fs.g, dj.fs.steps))
  {
  }

  lemma IsRegistered(g: Layout, f: seq<nat>, cs: seq<dword>, t: seq<Slot>, fn: seq<byte>, name: seq<word>,
                     buffer: seq<word>, up: word -> word, res: FResult)
    requires |fn| == 12 && |buffer| == MAX_LFN + 1
    requires if fn[11] % 2 == 1 && AllTaken(t, fn[..11], name, buffer, up) then res == Denied
             else IsReservation(g, f, cs, t, Needed(fn, name), res)
    ensures IsRegistration(g, f, cs, t, fn, name, buffer, up, res)
  {
  }

  lemma SameNeed(fn: seq<byte>, sn: seq<byte>, name: seq<word>)
    requires |fn| == |sn| == 12 && fn[11] == sn[11]
    ensures Needed(fn, name) == Needed(sn, name)
  {
  }

  lemma AtLeastOne(fn: seq<byte>, name: seq<word>)
    requires |fn| == 12
    ensures Needed(fn, name) >= 1
  {
  }

  lemma GrewFacts(dj: Dir, o: Baseline, ds: seq<dword>)
    requires HasGrown(dj, o, ds)
    ensures InOrder(dj.fs.g, dj.fs.steps) <==> o.inOrder && StretchSafe(dj.fs.g, o.fat, o.sectors, o.cs, ds)
    ensures o.meta <= dj.fs.meta && MetaOnly(dj.fs.g, dj.fs.meta, o.sectors, dj.fs.view)
  {
  }

  // Start a registration at the first entry.
  method ToFirst(dj: Dir, ghost cs: seq<dword>) returns (res: FResult)
    requires TableReady(dj, cs)
    modifies dj`index, dj`clust, dj`sect, dj`off, dj.fs`winsect, dj.fs`wflag, dj.fs.win, dj.fs.disk
    ensures res == Ok && Working(dj, cs, old(EntriesOf(dj, cs)), 0)
    ensures old(dj.fs.Valid() && Listing(dj, cs))
    ensures old(dj.fs.disk.log) <= dj.fs.disk.log
    ensures old(dj.fs.meta) <= dj.fs.meta
    ensures dj.fs.winsect == old(dj.fs.winsect) || dj.fs.g.InFat(dj.fs.winsect) || dj.fs.winsect in dj.fs.meta
  {
    hide Reserved, On, Volume.Valid;
    TableReadyFacts(dj, cs);
    res := Rewind(dj, 0, cs);
  }

  // The key whose short form was looked up in vain before an object was registered: that of the short name chosen in
  // place of a lossy one, else the name's own.
  function KeyUsed(fn: seq<byte>, sn: seq<byte>, b: seq<word>): Key
    requires |fn| == |sn| == 12
  {
    if sn[11] % 2 == 1 then Key(fn[..11], false, false, b) else KeyOf(sn, true, b)
  }

  // What creating an object under a name that was not found comes to: the directory stays orderly, and the name is
  // found.
  lemma CreatedIsFound(t: seq<Slot>, u: seq<Slot>, at: nat, fn: seq<byte>, sn: seq<byte>, name: seq<word>,
                       b: seq<word>, up: word -> word)
    requires |fn| == |sn| == 12 && fn[11] == sn[11] && Holds(b, name) && 0 < |name| <= 254 && UpperCases(up)
    requires sn[11] % 2 == 1 ==> sn[11] / 2 % 2 == 1
    requires Orderly(t) && Registered(t, u, at, Needed(fn, name), name, fn[..11])
    requires !Find(t, 0, START, KeyOf(sn, true, b), up).Found?
    requires if sn[11] % 2 == 1 then Chosen(t, fn[..11], sn[..11], name, b, up) else fn[..11] == sn[..11]
    ensures Orderly(u) && Attempts(t, u, Created(at, Needed(fn, name), name, KeyUsed(fn, sn, b)), up)
    ensures KeyUsed(fn, sn, b).short == fn[..11]
    ensures var r := Find(u, 0, START, KeyOf(sn, true, b), up);
            r.Found? && r.index == at + Needed(fn, name) - 1 && (Needed(fn, name) > 1 ==> r.first == at)
  {
    hide Find, Registered, Orderly, Parts;
    RegistrationKeepsOrder(t, u, at, Needed(fn, name), name, fn[..11], KeyUsed(fn, sn, b), up);
    OrderlyIsClean(t);
    NeedsOne(fn, name);
    LookupAfterRegister(t, u, at, Needed(fn, name), name, fn[..11], name, KeyOf(sn, true, b), up);
  }

  lemma OrderlyIsClean(t: seq<Slot>)
    requires Orderly(t)
    ensures Clean(t)
  {
  }

  lemma NeedsOne(fn: seq<byte>, name: seq<word>)
    requires |fn| == 12 && name != []
    ensures Needed(fn, name) == 1 <==> fn[11] / 2 % 2 == 0
  {
  }

  // What creating an object comes to, told from the state before: an existing name is refused, any other one
  // registered.
  ghost predicate IsCreation(g: Layout, f: seq<nat>, cs: seq<dword>, t: seq<Slot>, fn: seq<byte>, name: seq<word>,
                             buffer: seq<word>, up: word -> word, res: FResult)
    requires |fn| == 12 && |buffer| == MAX_LFN + 1
  {
    if Find(t, 0, START, KeyOf(fn, true, buffer), up).Found? then res == Exist
    else IsRegistration(g, f, cs, t, fn, name, buffer, up, res)
  }

  // Create an object under a name that is not there yet. The cursor is left on its short entry.
  method CreateNew(dj: Dir, fn: array<byte>, lfn: array<word>, up: word -> word, ghost name: seq<word>,
                   ghost cs: seq<dword>)
    returns (res: FResult, ghost e: Attempt, ghost ds: seq<dword>)
    requires TableReady(dj, cs) && Orderly(EntriesOf(dj, cs)) && fn.Length == 12 && fn != dj.fs.win
    requires lfn.Length == MAX_LFN + 1
    requires Holds(lfn[..], name) && 0 < |name| <= 254 && UpperCases(up)
    requires fn[0] != 0 && fn[0] != 0xE5 && (fn[11] % 2 == 1 ==> fn[11] / 2 % 2 == 1)
    modifies fn, dj`index, dj`clust, dj`sect, dj`off, dj.fs, dj.fs.win, dj.fs.disk
    ensures TableReady(dj, ds) && Orderly(EntriesOf(dj, ds)) && HasGrown(dj, old(BaselineOf(dj, cs)), ds)
    ensures Attempts(old(EntriesOf(dj, cs)), EntriesOf(dj, ds), e, up) && lfn[..] == old(lfn[..])
    ensures IsCreation(dj.fs.g, old(dj.fs.fat), cs, old(EntriesOf(dj, cs)), old(fn[..]), name, lfn[..], up, res)
    ensures if res != Ok then e.Refused?
            else
              && e.Created? && fn[11] == old(fn[11]) && e.ne == Needed(fn[..], name) && e.name == name
              && e.key.short == fn[..11]
              && (fn[11] % 2 == 0 ==> fn[..11] == old(fn[..])[..11])
              && StandsOn(dj, ds, e.at + e.ne - 1) && dj.fs.winsect == dj.sect
              && var r := Find(EntriesOf(dj, ds), 0, START, KeyOf(old(fn[..]), true, lfn[..]), up);
                 r.Found? && r.index == e.at + e.ne - 1
    ensures InOrder(dj.fs.g, dj.fs.steps) <==>
              InOrder(dj.fs.g, old(dj.fs.steps)) && StretchSafe(dj.fs.g, old(dj.fs.fat), old(dj.fs.view), cs, ds)
    ensures old(dj.fs.disk.log) <= dj.fs.disk.log && old(dj.fs.steps) <= dj.fs.steps
    ensures old(dj.fs.meta) <= dj.fs.meta &&
            (dj.fs.winsect == old(dj.fs.winsect) || dj.fs.g.InFat(dj.fs.winsect) || dj.fs.winsect in dj.fs.meta)
  {
    hide Find, FatOf, FatMap.Entry, Volume.Valid, Numbered, Number, StandsOn, Chosen, Reserved, Working, Registered;
    hide InOrder, MetaOnly, TableReady, Listing, EntriesOf, Parts, Orderly, KeyOf, Needed, KeyUsed, Attempts;
    hide Continues, StretchSafe, HasGrown, UpperCases, Holds, IsHit, OnTable, BaselineOf, IsRegistration, AllTaken;
    TableReadyFacts(dj, cs);
    NothingGrew(dj, cs);
    ghost var o := BaselineOf(dj, cs);
    BaselineFacts(dj, cs);
    GrewFacts(dj, o, cs);
    ds, e := cs, Refused;
    ghost var t, b, m, f, sn := EntriesOf(dj, cs), lfn[..], dj.fs.meta, dj.fs.fat, fn[..];
    RefusedKeeps(t, t, up);
    var idx;
    res, idx := DirFind(dj, fn, lfn, true, up, cs);
    StillReady(dj, cs, f, m, |dj.fs.view|);
    WindowOnTable(dj, cs);
    if res == Ok { return Exist, e, ds; }
    ghost var at;
    res, at, ds := DirRegister(dj, fn, lfn, up, name, cs);
    TableReadyFacts(dj, ds);
    ghost var u := EntriesOf(dj, ds);
    if res != Ok {
      RefusedKeeps(t, u, up);
      return;
    }
    CreatedIsFound(t, u, at, fn[..], sn, name, b, up);
    e := Created(at, Needed(fn[..], name), name, KeyUsed(fn[..], sn, b));
  }

  // ... and look it up afresh.
  method CreateAndFind(dj: Dir, fn: array<byte>, lfn: array<word>, up: word -> word, ghost name: seq<word>,
                       ghost cs: seq<dword>)
    returns (res: FResult, found: FResult, ghost e: Attempt, ghost ds: seq<dword>)
    requires TableReady(dj, cs) && Orderly(EntriesOf(dj, cs)) && fn.Length == 12 && fn != dj.fs.win
    requires lfn.Length == MAX_LFN + 1
    requires Holds(lfn[..], name) && 0 < |name| <= 254 && UpperCases(up)
    requires fn[0] != 0 && fn[0] != 0xE5 && (fn[11] % 2 == 1 ==> fn[11] / 2 % 2 == 1)
    modifies fn, dj`index, dj`clust, dj`sect, dj`off, dj.fs, dj.fs.win, dj.fs.disk
    ensures TableReady(dj, ds) && Orderly(EntriesOf(dj, ds)) && HasGrown(dj, old(BaselineOf(dj, cs)), ds)
    ensures Attempts(old(EntriesOf(dj, cs)), EntriesOf(dj, ds), e, up)
    ensures IsCreation(dj.fs.g, old(dj.fs.fat), cs, old(EntriesOf(dj, cs)), old(fn[..]), name, old(lfn[..]), up, res)
    ensures Find(old(EntriesOf(dj, cs)), 0, START, KeyOf(old(fn[..]), true, old(lfn[..])), up).Found? ==> res == Exist
    ensures if res != Ok then e.Refused?
            else
              && e.Created? && fn[11] == old(fn[11]) && e.ne == Needed(fn[..], name) && e.name == name
              && e.key.short == fn[..11]
              && (fn[11] % 2 == 0 ==> fn[..11] == old(fn[..])[..11])
              && found == Ok && StandsOn(dj, ds, e.at + e.ne - 1)
    ensures InOrder(dj.fs.g, dj.fs.steps) <==>
              InOrder(dj.fs.g, old(dj.fs.steps)) && StretchSafe(dj.fs.g, old(dj.fs.fat), old(dj.fs.view), cs, ds)
    ensures old(dj.fs.disk.log) <= dj.fs.disk.log && old(dj.fs.steps) <= dj.fs.steps
  {
    hide Find, FatOf, FatMap.Entry, Volume.Valid, Numbered, Number, StandsOn, Chosen, Reserved, Working, Registered;
    hide InOrder, MetaOnly, TableReady, Listing, EntriesOf, Parts, Orderly, KeyOf, Needed, KeyUsed, Attempts;
    hide Continues, StretchSafe, HasGrown, UpperCases, Holds, IsHit, OnTable, BaselineOf;
    found := NoFile;
    var sn := fn[..];
    res, e, ds := CreateNew(dj, fn, lfn, up, name, cs);
    if res != Ok { return; }
    var key := new byte[12](k requires 0 <= k < |sn| => sn[k]);
    assert key[..] == sn;
    TableReadyFacts(dj, ds);
    ghost var o, m, f := BaselineOf(dj, ds), dj.fs.meta, dj.fs.fat;
    var idx;
    found, idx := DirFind(dj, key, lfn, true, up, ds);
    StillReady(dj, ds, f, m, |dj.fs.view|);
  }

  lemma RefusedKeeps(t: seq<Slot>, u: seq<Slot>, up: word -> word)
    ensures Continues(t, t) && (Continues(t, u) ==> Attempts(t, u, Refused, up) && (Orderly(t) ==> Orderly(u)))
  {
    if Continues(t, u) && Orderly(t) {
      ExtensionKeepsOrder(t, u);
    }
  }

  // ----- runs

  // A prepared name: its short form with the flags, and its long form.
  datatype Request = Request(fn: seq<byte>, name: seq<word>)

  predicate IsRequest(r: Request) {
    && |r.fn| == 12 && r.fn[0] != 0 && r.fn[0] != 0xE5 && (r.fn[11] % 2 == 1 ==> r.fn[11] / 2 % 2 == 1)
    && 0 < |r.name| <= 254 && IsName(r.name)
  }

  // The name as it stands in the buffer.
  function BufferOf(name: seq<word>): (b: seq<word>)
    ensures |b| == MAX_LFN + 1
  {
    seq(MAX_LFN + 1, (k: nat) => if k < |name| then name[k] else 0)
  }

  // Create one of the objects asked for.
  method CreateOne(dj: Dir, r: Request, up: word -> word, ghost cs: seq<dword>)
    returns (res: FResult, ghost e: Attempt, ghost ds: seq<dword>)
    requires TableReady(dj, cs) && Orderly(EntriesOf(dj, cs)) && IsRequest(r) && UpperCases(up)
    modifies dj`index, dj`clust, dj`sect, dj`off, dj.fs, dj.fs.win, dj.fs.disk
    ensures TableReady(dj, ds) && Orderly(EntriesOf(dj, ds)) && HasGrown(dj, old(BaselineOf(dj, cs)), ds)
    ensures Attempts(old(EntriesOf(dj, cs)), EntriesOf(dj, ds), e, up)
    ensures IsCreation(dj.fs.g, old(dj.fs.fat), cs, old(EntriesOf(dj, cs)), r.fn, r.name, BufferOf(r.name), up, res)
    ensures res == Ok <==> e.Created?
    ensures e.Created? ==>
              && e.name == r.name && (r.fn[11] % 2 == 0 ==> e.key.short == r.fn[..11])
              && e.at + e.ne >= 1 && StandsOn(dj, ds, e.at + e.ne - 1) && dj.fs.winsect == dj.sect
    ensures old(dj.fs.disk.log) <= dj.fs.disk.log && old(dj.fs.steps) <= dj.fs.steps
    ensures old(dj.fs.meta) <= dj.fs.meta
    ensures dj.fs.winsect == old(dj.fs.winsect) || dj.fs.g.InFat(dj.fs.winsect) || dj.fs.winsect in dj.fs.meta
  {
    hide Volume.Valid, TableReady, EntriesOf, Orderly, Attempts, StandsOn, InOrder, StretchSafe, UpperCases;
    hide IsCreation;
    var fn := new byte[12](k requires 0 <= k < |r.fn| => r.fn[k]);
    var lfn := new word[MAX_LFN + 1](k => if 0 <= k < |r.name| then r.name[k] else 0);
    assert fn[..] == r.fn;
    assert lfn[..][..|r.name|] == r.name;
    assert lfn[..] == BufferOf(r.name);
    AtLeastOne(r.fn, r.name);
    res, e, ds := CreateNew(dj, fn, lfn, up, r.name, cs);
  }

  // The answer to a request at a directory with baseline b and entries t.
  ghost predicate Answered(g: Layout, b: Baseline, t: seq<Slot>, r: Request, up: word -> word, res: FResult) {
    IsRequest(r) && IsCreation(g, b.fat, b.cs, t, r.fn, r.name, BufferOf(r.name), up, res)
  }

  lemma IsAnswered(g: Layout, b: Baseline, t: seq<Slot>, r: Request, up: word -> word, res: FResult)
    requires IsRequest(r) && IsCreation(g, b.fat, b.cs, t, r.fn, r.name, BufferOf(r.name), up, res)
    ensures Answered(g, b, t, r, up, res)
  {
  }

  // Any sequence of attempts to create objects is a run: short names stay unique and end marks behind each other,
  // whether the single attempts succeed, fail, or fail after extending the table.
  method CreateAll(dj: Dir, rs: seq<Request>, up: word -> word, ghost cs: seq<dword>)
    returns (results: seq<FResult>, ghost ts: seq<seq<Slot>>, ghost es: seq<Attempt>, ghost ds: seq<dword>,
             ghost bs: seq<Baseline>)
    requires TableReady(dj, cs) && Orderly(EntriesOf(dj, cs)) && UpperCases(up) && forall i ::
        0 <= i < |rs| ==> IsRequest(rs[i])
    modifies dj`index, dj`clust, dj`sect, dj`off, dj.fs, dj.fs.win, dj.fs.disk
    ensures TableReady(dj, ds) && Orderly(EntriesOf(dj, ds)) && old(dj.fs.Valid() && Listing(dj, cs))
    ensures HasGrown(dj, old(BaselineOf(dj, cs)), ds)
    ensures InOrder(dj.fs.g, dj.fs.steps) <==>
              InOrder(dj.fs.g, old(dj.fs.steps)) && StretchSafe(dj.fs.g, old(dj.fs.fat), old(dj.fs.view), cs, ds)
    ensures |results| == |es| == |rs| && Attempted(ts, es, up) && ts[0] == old(EntriesOf(dj, cs))
    ensures ts[|rs|] == EntriesOf(dj, ds)
    ensures |bs| == |rs| + 1 && bs[0] == old(BaselineOf(dj, cs)) && bs[|rs|] == BaselineOf(dj, ds)
    ensures forall i :: 0 <= i < |rs| ==> Answered(dj.fs.g, bs[i], ts[i], rs[i], up, results[i])
    ensures forall i :: 0 <= i < |rs| ==>
        (results[i] == Ok <==> es[i].Created?) && (es[i].Created? ==> es[i].name == rs[i].name)
    ensures old(dj.fs.disk.log) <= dj.fs.disk.log && old(dj.fs.steps) <= dj.fs.steps
    ensures old(dj.fs.meta) <= dj.fs.meta
    ensures dj.fs.winsect == old(dj.fs.winsect) || dj.fs.g.InFat(dj.fs.winsect) || dj.fs.winsect in dj.fs.meta
  {
    hide Volume.Valid, TableReady, EntriesOf, Orderly, Attempts, UpperCases, Listing, HasGrown, InOrder, StretchSafe;
    hide BaselineOf, Grew, IsRequest, Answered, IsCreation;
    TableReadyFacts(dj, cs);
    ghost var o := BaselineOf(dj, cs);
    BaselineFacts(dj, cs);
    NothingGrew(dj, cs);
    results, ts, es, ds, bs := [], [EntriesOf(dj, cs)], [], cs, [o];
    for i := 0 to |rs|
      invariant TableReady(dj, ds) && dj.fs.Valid() && Listing(dj, ds) && Orderly(EntriesOf(dj, ds))
      invariant |results| == |es| == i && Attempted(ts, es, up) && ts[0] == old(EntriesOf(dj, cs))
      invariant |ts| == i + 1 && ts[i] == EntriesOf(dj, ds) && HasGrown(dj, o, ds)
      invariant |bs| == i + 1 && bs[0] == o && bs[i] == BaselineOf(dj, ds)
      invariant forall k :: 0 <= k < i ==> Answered(dj.fs.g, bs[k], ts[k], rs[k], up, results[k])
      invariant forall k :: 0 <= k < i ==>
          (results[k] == Ok <==> es[k].Created?) && (es[k].Created? ==> es[k].name == rs[k].name)
      invariant old(dj.fs.disk.log) <= dj.fs.disk.log && old(dj.fs.steps) <= dj.fs.steps
      invariant old(dj.fs.meta) <= dj.fs.meta
      invariant dj.fs.winsect == old(dj.fs.winsect) || dj.fs.g.InFat(dj.fs.winsect) || dj.fs.winsect in dj.fs.meta
    {
      var res;
      ghost var e;
      ghost var p, es' := BaselineOf(dj, ds), ds;
      BaselineGrew(dj, o, ds);
      BaselineFacts(dj, ds);
      res, e, ds := CreateOne(dj, rs[i], up, ds);
      IsAnswered(dj.fs.g, p, ts[i], rs[i], up, res);
      GrewOn(dj, o, es', p, ds);
      TableReadyFacts(dj, ds);
      RunGoesOn(ts, es, up, EntriesOf(dj, ds), e);
      results, ts, es, bs := results + [res], ts + [EntriesOf(dj, ds)], es + [e], bs + [BaselineOf(dj, ds)];
    }
    GrewFacts(dj, o, ds);
  }
}
