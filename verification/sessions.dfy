/**
 A mounted volume with a directory in which objects are created, and with open files: every operation keeps
 the others' state in order, so that creating, overwriting, reading, writing, seeking and synchronizing mix.
*/
module Sessions {
  import opened Bytes
  import opened Geometry
  import opened DiskIO
  import opened FatMap
  import opened WriteBehind
  import opened Volumes
  import opened Entries
  import opened Allocator
  import opened FileMap
  import opened FileGrowth
  import opened Cursor
  import opened Directory
  import opened Ordering
  import opened Tables
  import opened DirTables
  import opened Lookup
  import opened LongNames
  import opened Registration
  import opened Files
  import opened Seeking
  import opened OpenFiles
  import opened Opening
  import Chains

  // All sectors of the table's clusters hold metadata.
  ghost predicate TableWhole(g: Layout, m: set<nat>, cs: seq<dword>)
    requires g.nFatent >= 2
  {
    forall i :: 0 <= i < |cs| ==> ClusterIn(g, cs[i], m)
  }

  // The files open on volume fs, and the directory of cursor dj with chain cs.
  ghost predicate Session(fs: Volume, dj: Dir, cs: seq<dword>, files: seq<File>)
    reads dj, dj.fs, dj.fs.win, dj.fs.disk, fs, fs.win, fs.disk
    reads set i | 0 <= i < |files| :: files[i], set i | 0 <= i < |files| :: files[i].buf
  {
    && Together(fs, files) && dj.fs == fs && TableReady(dj, cs) && Orderly(EntriesOf(dj, cs))
    && fs.g.nFatent >= 2 && TableWhole(fs.g, fs.meta, cs)
  }

  // ----- mounting

  // On a safe disk whose directories are in use, no free cluster holds metadata.
  lemma MountIsReady(g: Layout, v: seq<Sector>, dirs: set<nat>)
    requires g.Sound(|v|) && ImageSafe(g, v, dirs)
    requires forall d :: d in dirs ==> g.IsCluster(d) && FatOf(g, v)[d] != 0
    ensures FreeIsUnused(g, FatOf(g, v), DirMeta(g, v, dirs))
  {
    hide FatOf, Layout.Clust2Sect, SectorLive;
    var f := FatOf(g, v);
    g.FatsInside(|v|);
    forall c: dword, s | g.IsCluster(c) && s in DirMeta(g, v, dirs) && g.InCluster(c, s)
      ensures f[c] != 0
    {
      DirClusterInUse(g, f, dirs, c, s, |v|);
    }
  }

  // A path from a cluster in use ends in one.
  lemma PathInUse(f: seq<nat>, p: seq<nat>)
    requires LinksLive(f) && Path(f, p) && f[p[0]] != 0
    ensures f[p[|p| - 1]] != 0
  {
    if |p| > 1 {
      assert f[p[|p| - 2]] == p[|p| - 2 + 1];
    }
  }

  lemma DirClusterInUse(g: Layout, f: seq<nat>, dirs: set<nat>, c: dword, s: nat, limit: nat)
    requires g.Checked(limit) && |f| == g.nFatent && LinksLive(f) && g.InCluster(c, s)
    requires forall d :: d in dirs ==> g.IsCluster(d) && f[d] != 0
    requires g.InFat(s) || IsDirSector(g, f, dirs, s)
    ensures f[c] != 0
  {
    g.ClusterBlock(c, limit);
    g.FatsInside(limit);
    var p: seq<nat> :| Path(f, p) && p[0] in dirs && OfCluster(g, p[|p| - 1], s);
    g.ClustersDisjoint(p[|p| - 1], c, s, s, limit);
    PathInUse(f, p);
  }

  // ----- what keeps a file in order

  // The sectors of the file's clusters and its links stay, and the window and the metadata lie elsewhere.
  lemma FitElsewhere(g: Layout, f: seq<nat>, h: seq<nat>, v: seq<Sector>, w: seq<Sector>, s: FileState, d: seq<byte>,
                     before: nat, winsect: nat, m: set<nat>, n: set<nat>, seeking: bool)
    requires Fit(g, f, v, s, d, before, m, seeking) && |w| == |v| && |h| == |f| && m <= n
    requires forall i :: 0 <= i < |s.cs| ==> s.cs[i] < |f| && h[s.cs[i]] == f[s.cs[i]]
    requires Apart(g, winsect, n, s.cs)
    requires forall i, t :: 0 <= i < |s.cs| && 0 <= t < |v| && g.InCluster(s.cs[i], t) ==> w[t] == v[t]
    ensures Fit(g, h, w, s, d, winsect, n, seeking)
  {
    UntouchedKeeps(g, f, v, w, s, d, before, winsect, m, seeking);
    if s.cs != [] {
      Chains.ChainFrame(f, h, s.cs);
    }
    hide Content, Capacity, SectorAt, Ordinal;
  }

  // A cluster that holds metadata belongs to no file.
  lemma NotInFile(g: Layout, winsect: nat, m: set<nat>, es: seq<dword>, c: dword, limit: nat)
    requires g.Checked(limit) && Apart(g, winsect, m, es) && g.IsCluster(c) && ClusterIn(g, c, m)
    ensures c !in es
  {
    g.ClusterBlock(c, limit);
    assert OfCluster(g, c, g.Clust2Sect(c));
  }

  // Files are beside the clusters of a table, old and new.
  lemma NotInTable(g: Layout, f: seq<nat>, before: nat, m: set<nat>, es: seq<dword>, start: dword, cs: seq<dword>,
                   ds: seq<dword>, limit: nat)
    requires g.Checked(limit) && Apart(g, before, m, es) && ChainFrom(g, f, start, es)
    requires TableWhole(g, m, cs) && Proper(g, cs) && cs <= ds
    requires forall i :: |cs| <= i < |ds| ==> g.IsCluster(ds[i]) && f[ds[i]] == 0
    ensures Separate(es, ds)
  {
    hide ClusterIn, Apart, Chains.IsChain;
    forall i, j | 0 <= i < |es| && 0 <= j < |ds|
      ensures es[i] != ds[j]
    {
      Chains.ChainEntries(f, es, i);
      if j < |cs| {
        assert ds[j] == cs[j];
        NotInFile(g, before, m, es, cs[j], limit);
      }
    }
  }

  // Neither the window nor the metadata after a registration lie in the file.
  lemma StillApart(g: Layout, before: nat, winsect: nat, m: set<nat>, n: set<nat>, es: seq<dword>, cs: seq<dword>,
                   ds: seq<dword>, limit: nat)
    requires g.Checked(limit) && Apart(g, before, m, es) && MetaAdded(g, m, n, cs, ds) && Separate(es, ds)
    requires winsect == before || g.InFat(winsect) || winsect in n
    ensures Apart(g, winsect, n, es)
  {
    hide ClusterIn, Layout.Clust2Sect;
    FatApart(g, limit, if g.InFat(winsect) then winsect else g.fatbase);
    forall i, s | 0 <= i < |es| && s in n
      ensures !g.InCluster(es[i], s)
    {
      if s !in m && g.InCluster(es[i], s) {
        var k :| |cs| <= k < |ds| && g.InCluster(ds[k], s);
        g.ClustersDisjoint(es[i], ds[k], s, s, limit);
      }
    }
  }

  // A registration in the table cs, which it extends to ds, leaves a file in order.
  lemma CreationSpares(g: Layout, f: seq<nat>, h: seq<nat>, v: seq<Sector>, w: seq<Sector>, s: FileState, d: seq<byte>,
                       before: nat, winsect: nat, m: set<nat>, n: set<nat>, seeking: bool, cs: seq<dword>,
                       ds: seq<dword>)
    requires Fit(g, f, v, s, d, before, m, seeking) && g.Checked(|v|) && TableWhole(g, m, cs) && Proper(g, cs)
    requires Lengthened(g, f, h, cs, ds) && MetaAdded(g, m, n, cs, ds) && MetaOnly(g, n, v, w)
    requires winsect == before || g.InFat(winsect) || winsect in n
    ensures Fit(g, h, w, s, d, winsect, n, seeking)
  {
    hide Content, Capacity, ClusterIn, Layout.Clust2Sect, MetaAdded;
    NotInTable(g, f, before, m, s.cs, s.sclust, cs, ds, |v|);
    StillApart(g, before, winsect, m, n, s.cs, cs, ds, |v|);
    ClustersOfFile(g, s.cs, |v|);
    AddedMeta(g, m, n, cs, ds);
    FitElsewhere(g, f, h, v, w, s, d, before, winsect, m, n, seeking);
  }

  lemma AddedMeta(g: Layout, m: set<nat>, n: set<nat>, cs: seq<dword>, ds: seq<dword>)
    requires MetaAdded(g, m, n, cs, ds)
    ensures m <= n
  {
  }

  // The clusters of a file lie behind the FAT.
  lemma ClustersOfFile(g: Layout, es: seq<dword>, limit: nat)
    requires g.Checked(limit) && Proper(g, es)
    ensures forall i, t :: 0 <= i < |es| && g.InCluster(es[i], t) ==> !g.InFats(t)
  {
    g.FatsInside(limit);
    forall i, t | 0 <= i < |es| && g.InCluster(es[i], t)
      ensures !g.InFats(t)
    {
      g.ClusterBlock(es[i], limit);
    }
  }

  // No entry equal to 1 comes into being.
  lemma CreationHasNoOne(g: Layout, f: seq<nat>, h: seq<nat>, cs: seq<dword>, ds: seq<dword>)
    requires Lengthened(g, f, h, cs, ds) && !HasOne(f) && (ds != [] ==> Chains.IsChain(h, ds))
    ensures !HasOne(h)
  {
    hide Chains.IsChain;
    forall c | 2 <= c < |h|
      ensures h[c] != 1
    {
      if c in ds {
        var i :| 0 <= i < |ds| && ds[i] == c;
        Chains.ChainEntries(h, ds, i);
      }
    }
  }

  // ----- the files of a session

  // All files, on a volume with FAT f, sectors v, window sector and metadata.
  ghost predicate AllAside(fs: Volume, files: seq<File>, f: seq<nat>, v: seq<Sector>, winsect: nat, m: set<nat>)
    reads set i | 0 <= i < |files| :: files[i], set i | 0 <= i < |files| :: files[i].buf
  {
    && (forall j :: 0 <= j < |files| ==>
          && files[j].fs == fs && files[j].dirSlot < 16 && files[j].dirSect in m && !fs.g.InFats(files[j].dirSect)
          && files[j].Stands(f, v, winsect, m))
    && forall i, j :: 0 <= i < |files| && 0 <= j < |files| && i != j ==> Unshared(files[i], files[j])
  }

  lemma AllSetAside(fs: Volume, files: seq<File>)
    requires Together(fs, files)
    ensures AllAside(fs, files, fs.fat, fs.view, fs.winsect, fs.meta)
    ensures fs.Valid() && FreeIsUnused(fs.g, fs.fat, fs.meta) && !HasOne(fs.fat)
    ensures forall j :: 0 <= j < |files| ==> files[j].fs == fs && files[j].buf != fs.win
  {
    forall j | 0 <= j < |files|
      ensures files[j].Stands(fs.fat, fs.view, fs.winsect, fs.meta)
    {
      files[j].ValidStands();
    }
    hide File.Stands, File.Valid, Volume.Valid, FreeIsUnused, HasOne;
  }

  lemma AllTogether(fs: Volume, files: seq<File>)
    requires fs.Valid() && FreeIsUnused(fs.g, fs.fat, fs.meta) && !HasOne(fs.fat)
    requires AllAside(fs, files, fs.fat, fs.view, fs.winsect, fs.meta)
    ensures Together(fs, files)
  {
    hide File.Stands, File.Valid, File.Listed, Volume.Valid, FreeIsUnused, HasOne;
    forall j | 0 <= j < |files|
      ensures files[j].Valid() && files[j].Listed()
    {
      files[j].ValidStands();
      files[j].StillListed();
    }
  }

  lemma SessionFacts(fs: Volume, dj: Dir, cs: seq<dword>, files: seq<File>)
    requires Session(fs, dj, cs, files)
    ensures Together(fs, files) && dj.fs == fs && TableReady(dj, cs) && Orderly(EntriesOf(dj, cs))
    ensures fs.g.nFatent >= 2 && TableWhole(fs.g, fs.meta, cs)
  {
  }

  lemma IsSession(fs: Volume, dj: Dir, cs: seq<dword>, files: seq<File>)
    requires Together(fs, files) && dj.fs == fs && TableReady(dj, cs) && Orderly(EntriesOf(dj, cs))
    requires fs.g.nFatent >= 2 && TableWhole(fs.g, fs.meta, cs)
    ensures Session(fs, dj, cs, files)
  {
  }

  // ----- what is saved

  // On the sectors v, the directory entry of the file is live.
  predicate EnteredOn(f: File, v: seq<Sector>) {
    f.dirSlot < 16 && f.dirSect < |v| && Live(SlotAt(v[f.dirSect], f.dirSlot))
  }

  // All files have directory entries of their own, and those with nothing left to be written are recorded there.
  ghost predicate SavedOn(files: seq<File>, v: seq<Sector>)
    reads set i | 0 <= i < |files| :: files[i]
  {
    && OwnEntries(files)
    && forall j :: 0 <= j < |files| ==> EnteredOn(files[j], v) && (!files[j].written ==> RecordedOn(files[j], v))
  }

  // None of the files has the directory entry in slot o of sector s.
  predicate NotEntered(files: seq<File>, s: nat, o: nat) {
    forall j :: 0 <= j < |files| ==> files[j].dirSect != s || files[j].dirSlot != o
  }

  lemma AllEntered(files: seq<File>, v: seq<Sector>)
    requires SavedOn(files, v)
    ensures OwnEntries(files) && forall j :: 0 <= j < |files| ==> EnteredOn(files[j], v)
  {
  }

  lemma SavedIsTidy(fs: Volume, files: seq<File>)
    requires Together(fs, files)
    ensures SavedOn(files, fs.view) ==> OwnEntries(files) && forall j :: 0 <= j < |files| ==> Tidy(files[j])
  {
    hide File.Valid, File.Listed, Volume.Valid, FreeIsUnused, HasOne, Unshared, RecordedOn, EnteredOn;
  }

  // An operation kept the names of entries, and left all files tidy.
  lemma SavedAfterUse(fs: Volume, files: seq<File>, v: seq<Sector>)
    requires Together(fs, files) && OwnEntries(files) && NamesKept(fs.g, fs.meta, v, fs.view)
    requires forall j :: 0 <= j < |files| ==> Tidy(files[j]) && EnteredOn(files[j], v)
    ensures SavedOn(files, fs.view)
  {
    hide File.Valid, Volume.Valid, FreeIsUnused, HasOne, Unshared, RecordedOn, SlotAt, Live;
    forall j | 0 <= j < |files|
      ensures EnteredOn(files[j], fs.view)
    {
      assert KeepsName(SlotAt(v[files[j].dirSect], files[j].dirSlot),
                       SlotAt(fs.view[files[j].dirSect], files[j].dirSlot));
    }
  }

  // The entries of all files stayed what they were.
  lemma SavedStays(files: seq<File>, v: seq<Sector>, w: seq<Sector>)
    requires SavedOn(files, v) && |v| == |w|
    requires forall j :: 0 <= j < |files| && EnteredOn(files[j], v) ==>
               SlotAt(w[files[j].dirSect], files[j].dirSlot) == SlotAt(v[files[j].dirSect], files[j].dirSlot)
    ensures SavedOn(files, w)
  {
    hide SlotAt, Live, StartCluster, FileSize;
  }

  lemma SavedAfterCreation(fs: Volume, files: seq<File>, m: set<nat>, v: seq<Sector>)
    requires SavedOn(files, v) && LiveKept(fs.g, m, v, fs.view)
    requires forall j :: 0 <= j < |files| ==> files[j].dirSect in m && !fs.g.InFats(files[j].dirSect)
    ensures SavedOn(files, fs.view)
  {
    hide SlotAt, Live;
    SavedStays(files, v, fs.view);
  }

  // The slot of a new entry held no live one before.
  lemma NewSlotWasFree(g: Layout, f: seq<nat>, h: seq<nat>, v: seq<Sector>, m: set<nat>, cs: seq<dword>, ds: seq<dword>,
                       i: nat)
    requires Reserved(g, f, |v|, m, cs) && Lengthened(g, f, h, cs, ds) && Proper(g, ds) && (cs == [] ==> ds == [])
    requires g.Checked(|v|) && Proper(g, cs) && (g.fsType == Fat32 ==> cs != []) && i < Size(g, ds)
    requires i < Size(g, cs) ==> Blank(DirTables.Table(g, v, cs)[i])
    ensures g.csize > 0 && g.nFatent >= 2 && (ds != [] ==> Ordinal(g, i / 16) < |ds|)
    ensures var s := DirSector(g, ds, i); s in m ==> s < |v| && !Live(SlotAt(v[s], i % 16))
  {
    hide SlotAt, Layout.Clust2Sect, Capacity;
    ClusterSizeIsPositive(g, |v|);
    DirSectorPlace(g, ds, i, |v|);
    if cs != [] {
      InTable(g, cs, i);
      var k := Ordinal(g, i / 16);
      if k < |cs| {
        assert ds[k] == cs[k];
      }
    }
  }

  // ----- creating objects

  // What a registration says of the volume.
  lemma GrewParts(dj: Dir, o: Baseline, ds: seq<dword>)
    requires HasGrown(dj, o, ds)
    ensures dj.fs.g.Checked(|o.sectors|) && MetaOnly(dj.fs.g, dj.fs.meta, o.sectors, dj.fs.view)
    ensures Lengthened(dj.fs.g, o.fat, dj.fs.fat, o.cs, ds) && MetaAdded(dj.fs.g, o.meta, dj.fs.meta, o.cs, ds)
    ensures FreeIsUnused(dj.fs.g, dj.fs.fat, dj.fs.meta) && o.cs <= ds
    ensures LiveKept(dj.fs.g, o.meta, o.sectors, dj.fs.view)
  {
  }

  lemma TableParts(dj: Dir, cs: seq<dword>)
    requires TableReady(dj, cs)
    ensures dj.fs.Valid() && Proper(dj.fs.g, cs) && (cs != [] ==> Chains.IsChain(dj.fs.fat, cs))
    ensures |dj.fs.fat| == dj.fs.g.nFatent && dj.fs.g.Checked(|dj.fs.view|)
  {
    ListingFacts(dj, cs);
    Bounds(dj.fs.g, |dj.fs.view|);
  }

  lemma FileAfterCreation(a: File, f: seq<nat>, v: seq<Sector>, before: nat, m: set<nat>, cs: seq<dword>,
                          ds: seq<dword>)
    requires a.Stands(f, v, before, m) && a.fs.g.Checked(|v|) && a.fs.g.nFatent >= 2
    requires TableWhole(a.fs.g, m, cs) && Proper(a.fs.g, cs)
    requires Lengthened(a.fs.g, f, a.fs.fat, cs, ds) && MetaAdded(a.fs.g, m, a.fs.meta, cs, ds)
    requires MetaOnly(a.fs.g, a.fs.meta, v, a.fs.view)
    requires a.fs.winsect == before || a.fs.g.InFat(a.fs.winsect) || a.fs.winsect in a.fs.meta
    ensures a.Stands(a.fs.fat, a.fs.view, a.fs.winsect, a.fs.meta)
  {
    hide Fit, TableWhole, Proper, Lengthened, MetaAdded, MetaOnly, Layout.Checked;
    CreationSpares(a.fs.g, f, a.fs.fat, v, a.fs.view, a.State(), a.contents, before, a.fs.winsect, m, a.fs.meta,
                   a.seeking, cs, ds);
  }

  lemma WholeAfterCreation(g: Layout, m: set<nat>, n: set<nat>, cs: seq<dword>, ds: seq<dword>)
    requires g.nFatent >= 2 && TableWhole(g, m, cs) && MetaAdded(g, m, n, cs, ds)
    ensures TableWhole(g, n, ds)
  {
    hide ClusterIn;
    forall i | 0 <= i < |ds|
      ensures ClusterIn(g, ds[i], n)
    {
      if i < |cs| {
        assert ds[i] == cs[i];
        StillClusterIn(g, cs[i], m, n);
      }
    }
  }

  // Create an object while files are open. They stay as they are.
  method CreateInSession(fs: Volume, dj: Dir, files: seq<File>, r: Request, up: word -> word, ghost cs: seq<dword>)
    returns (res: FResult, ghost e: Attempt, ghost ds: seq<dword>)
    requires Session(fs, dj, cs, files) && IsRequest(r) && UpperCases(up)
    modifies dj`index, dj`clust, dj`sect, dj`off, fs, fs.win, fs.disk
    ensures Session(fs, dj, ds, files) && cs <= ds
    ensures old(dj.fs.Valid() && Listing(dj, cs)) && Attempts(old(EntriesOf(dj, cs)), EntriesOf(dj, ds), e, up)
    ensures res == Ok <==> e.Created?
    ensures e.Created? ==>
              && e.name == r.name && (r.fn[11] % 2 == 0 ==> e.key.short == r.fn[..11])
              && e.at + e.ne >= 1 && StandsOn(dj, ds, e.at + e.ne - 1) && fs.winsect == dj.sect
    ensures IsCreation(fs.g, old(fs.fat), cs, old(EntriesOf(dj, cs)), r.fn, r.name, BufferOf(r.name), up, res)
    ensures !HasOne(old(fs.fat))
    ensures old(SavedOn(files, fs.view)) ==>
              SavedOn(files, fs.view) && (res == Ok ==> NotEntered(files, dj.sect, dj.off / 32))
    ensures InOrder(fs.g, fs.steps) <==>
              InOrder(fs.g, old(fs.steps)) && StretchSafe(fs.g, old(fs.fat), old(fs.view), cs, ds)
    ensures old(fs.disk.log) <= fs.disk.log && old(fs.steps) <= fs.steps
  {
    hide *;
    SessionFacts(fs, dj, cs, files);
    AllSetAside(fs, files);
    EntriesInMeta(fs, files);
    TableValues(dj, cs);
    TableReadyFacts(dj, cs);
    TableParts(dj, cs);
    ghost var o, f, v, m, before := BaselineOf(dj, cs), fs.fat, fs.view, fs.meta, fs.winsect;
    ghost var t := EntriesOf(dj, cs);
    BaselineFacts(dj, cs);
    res, e, ds := CreateOne(dj, r, up, cs);
    GrewFacts(dj, o, ds);
    GrewParts(dj, o, ds);
    TableParts(dj, ds);
    CreationHasNoOne(fs.g, f, fs.fat, cs, ds);
    WholeAfterCreation(fs.g, m, fs.meta, cs, ds);
    FilesAfterCreation(fs, files, f, v, before, m, cs, ds);
    AllTogether(fs, files);
    IsSession(fs, dj, ds, files);
    if SavedOn(files, v) {
      SavedAfterCreation(fs, files, m, v);
      if res == Ok {
        AllEntered(files, v);
        SameLength(fs.g, fs.meta, v, fs.view);
        TableReadyFacts(dj, ds);
        NewIsNotEntered(dj, files, f, v, m, cs, ds, t, e, up);
      }
    }
  }

  lemma EntriesInMeta(fs: Volume, files: seq<File>)
    requires Together(fs, files)
    ensures forall j :: 0 <= j < |files| ==>
              files[j].dirSlot < 16 && files[j].dirSect in fs.meta && !fs.g.InFats(files[j].dirSect)
  {
    hide File.Valid, Volume.Valid, FreeIsUnused, HasOne, Unshared;
  }

  // The entry of a new object is none of the files'.
  lemma NewIsNotEntered(dj: Dir, files: seq<File>, f: seq<nat>, v: seq<Sector>, m: set<nat>, cs: seq<dword>,
                        ds: seq<dword>, t: seq<Slot>, e: Attempt, up: word -> word)
    requires TableReady(dj, ds) && dj.fs.Valid() && Listing(dj, ds) && e.Created?
    requires Attempts(t, EntriesOf(dj, ds), e, up)
    requires e.at + e.ne >= 1 && StandsOn(dj, ds, e.at + e.ne - 1) && dj.fs.g.dirbase < 0x1_0000_0000
    requires TableChain(dj.fs.g, f, dj.sclust, cs) && Reserved(dj.fs.g, f, |v|, m, cs)
    requires Lengthened(dj.fs.g, f, dj.fs.fat, cs, ds) && |v| == |dj.fs.view|
    requires dj.fs.g.Checked(|v|) && Proper(dj.fs.g, cs) && (dj.fs.g.fsType == Fat32 ==> cs != [])
    requires t == DirTables.Table(dj.fs.g, v, cs)
    requires forall j :: 0 <= j < |files| ==> EnteredOn(files[j], v) && files[j].dirSect in m
    ensures NotEntered(files, dj.sect, dj.off / 32)
  {
    hide Reserved, Lengthened, Layout.Checked, FatOf, FatMap.Entry, Chronicle, Agrees, Store, Proper, StandsOn, SlotAt;
    hide Find, Registered, DirTables.Table, Size, Seek, Chains.IsChain, Live;
    var i := e.at + e.ne - 1;
    RegisteredOnBlank(t, EntriesOf(dj, ds), e, up);
    TableValues(dj, ds);
    StandsFacts(dj, ds, i);
    EntryPlace(dj, ds, i);
    NewSlotWasFree(dj.fs.g, f, dj.fs.fat, v, m, cs, ds, i);
    assert dj.off / 32 == i % 16;
  }

  lemma RegisteredOnBlank(t: seq<Slot>, u: seq<Slot>, e: Attempt, up: word -> word)
    requires Attempts(t, u, e, up) && e.Created?
    ensures 1 <= e.at + e.ne <= |u| && (e.at + e.ne - 1 < |t| ==> Blank(t[e.at + e.ne - 1]))
  {
    hide Find, IsPart, Parts;
  }

  lemma EntryPlace(dj: Dir, ds: seq<dword>, i: nat)
    requires TableReady(dj, ds) && StandsOn(dj, ds, i)
    ensures dj.fs.g.csize > 0 && dj.fs.g.nFatent >= 2 && (ds != [] ==> Ordinal(dj.fs.g, i / 16) < |ds|)
    ensures dj.sect == DirSector(dj.fs.g, ds, i)
  {
    hide FatOf, FatMap.Entry, Chronicle, Agrees, Store, DirTables.Table, TableChain, Reserved;
    ListingFacts(dj, ds);
    Bounds(dj.fs.g, |dj.fs.view|);
    SeekInTable(dj.fs.g, dj.fs.fat, dj.sclust, ds, i, |dj.fs.view|);
  }

  lemma FilesAfterCreation(fs: Volume, files: seq<File>, f: seq<nat>, v: seq<Sector>, before: nat, m: set<nat>,
                           cs: seq<dword>, ds: seq<dword>)
    requires AllAside(fs, files, f, v, before, m) && fs.g.Checked(|v|) && fs.g.nFatent >= 2 && m <= fs.meta
    requires TableWhole(fs.g, m, cs) && Proper(fs.g, cs)
    requires Lengthened(fs.g, f, fs.fat, cs, ds) && MetaAdded(fs.g, m, fs.meta, cs, ds)
    requires MetaOnly(fs.g, fs.meta, v, fs.view)
    requires fs.winsect == before || fs.g.InFat(fs.winsect) || fs.winsect in fs.meta
    ensures AllAside(fs, files, fs.fat, fs.view, fs.winsect, fs.meta)
  {
    hide File.Stands, TableWhole, Proper, Lengthened, MetaAdded, MetaOnly, Layout.Checked;
    forall j | 0 <= j < |files|
      ensures files[j].Stands(fs.fat, fs.view, fs.winsect, fs.meta)
    {
      FileAfterCreation(files[j], f, v, before, m, cs, ds);
    }
  }

  // ----- using files

  // The same entries are in use, under the same short names.
  predicate SameNames(t: seq<Slot>, u: seq<Slot>) {
    |t| == |u| && forall i :: 0 <= i < |t| ==> u[i][..11] == t[i][..11] && (Live(u[i]) <==> Live(t[i]))
  }

  lemma SameNamesKeepOrder(t: seq<Slot>, u: seq<Slot>)
    requires SameNames(t, u) && Orderly(t)
    ensures Orderly(u)
  {
    forall i | 0 <= i < |t|
      ensures u[i][0] == t[i][0]
    {
      assert u[i][..11][0] == t[i][..11][0];
    }
    forall i, j | 0 <= i < j < |u| && Live(u[i]) && Live(u[j])
      ensures u[i][..11] != u[j][..11]
    {
    }
  }

  // The entries in the metadata m keep their names and stay in use or free.
  ghost predicate NamesKept(g: Layout, m: set<nat>, v: seq<Sector>, w: seq<Sector>) {
    && |w| == |v|
    && forall s, p :: s in m && s < |v| && !g.InFats(s) && 0 <= p < 16 ==> KeepsName(SlotAt(v[s], p), SlotAt(w[s], p))
  }

  predicate KeepsName(e: Slot, r: Slot) {
    r[..11] == e[..11] && (Live(r) <==> Live(e))
  }

  lemma TouchedKeepsNames(g: Layout, m: set<nat>, v: seq<Sector>, w: seq<Sector>, t: nat, o: nat)
    requires EntryTouched(g, m, v, w, t, o)
    ensures NamesKept(g, m, v, w)
  {
    hide Synced, WithSlot, SlotAt, Live;
    forall s, p | s in m && s < |v| && !g.InFats(s) && 0 <= p < 16
      ensures KeepsName(SlotAt(v[s], p), SlotAt(w[s], p))
    {
      if s == t && w[t] != v[t] {
        var size, c, time :| w[t] == WithSlot(v[t], o, Synced(SlotAt(v[t], o), size, c, time));
        WithSlotAt(v[t], o, Synced(SlotAt(v[t], o), size, c, time), p);
        SyncedReadsBack(SlotAt(v[t], o), size, c, time);
      }
    }
  }

  lemma TableKeepsNames(g: Layout, f: seq<nat>, v: seq<Sector>, w: seq<Sector>, m: set<nat>, cs: seq<dword>)
    requires Reserved(g, f, |v|, m, cs) && NamesKept(g, m, v, w)
    ensures g.Checked(|v|) && |w| == |v| && Proper(g, cs) && (g.fsType == Fat32 ==> cs != [])
    ensures SameNames(DirTables.Table(g, v, cs), DirTables.Table(g, w, cs))
  {
    hide Layout.Checked, Proper, FreeIsUnused, SlotAt, Live;
    ClusterSizeIsPositive(g, |v|);
    forall i | 0 <= i < Size(g, cs)
      ensures KeepsName(SlotOf(g, v, cs, i), SlotOf(g, w, cs, i))
    {
      DirSectorPlace(g, cs, i, |v|);
      assert SectorIn(g, |v|, cs, i, m);
      assert KeepsName(SlotAt(v[DirSector(g, cs, i)], i % 16), SlotAt(w[DirSector(g, cs, i)], i % 16));
    }
  }

  lemma ClusterSizeIsPositive(g: Layout, limit: nat)
    requires g.Checked(limit)
    ensures g.csize > 0 && g.nFatent >= 2
  {
  }

  // A table whose links stay is still one, and reserved as long as no free cluster holds metadata.
  lemma TableLinksStay(g: Layout, f: seq<nat>, h: seq<nat>, limit: nat, m: set<nat>, sclust: dword, cs: seq<dword>)
    requires g.dirbase < 0x1_0000_0000 && TableChain(g, f, sclust, cs) && Reserved(g, f, limit, m, cs)
    requires |h| == |f| && forall i :: 0 <= i < |cs| ==> cs[i] < |f| && h[cs[i]] == f[cs[i]]
    requires g.nFatent >= 2 && FreeIsUnused(g, h, m)
    ensures TableChain(g, h, sclust, cs) && Reserved(g, h, limit, m, cs)
  {
    hide FreeIsUnused;
    if cs != [] {
      Chains.ChainFrame(f, h, cs);
    }
  }

  // The clusters of a table are none of a file's.
  lemma TableBesideFile(a: File, cs: seq<dword>)
    requires a.Valid() && a.fs.g.nFatent >= 2 && TableWhole(a.fs.g, a.fs.meta, cs) && Proper(a.fs.g, cs)
    ensures Separate(cs, a.chain)
  {
    hide ClusterIn, Backed, Content, Chronicle, FatOf, FatMap.Entry, Agrees, Store;
    forall i | 0 <= i < |cs|
      ensures cs[i] !in a.chain
    {
      NotInFile(a.fs.g, a.fs.winsect, a.fs.meta, a.chain, cs[i], |a.fs.view|);
    }
  }

  // The links of the clusters cs stay.
  predicate LinksStay(f: seq<nat>, h: seq<nat>, cs: seq<dword>) {
    |h| == |f| && forall i :: 0 <= i < |cs| ==> cs[i] < |f| && h[cs[i]] == f[cs[i]]
  }

  lemma GrowthSparesTable(g: Layout, f: seq<nat>, h: seq<nat>, es: seq<dword>, ds: seq<dword>, cs: seq<dword>)
    requires Grown(f, h, es, ds) && Separate(cs, ds) && Proper(g, cs) && |f| == g.nFatent
    ensures LinksStay(f, h, cs)
  {
  }

  // A table after an operation that kept its links and names.
  lemma TableAfter(dj: Dir, cs: seq<dword>, f: seq<nat>, v: seq<Sector>)
    requires dj.fs.Valid() && dj.fs.g.dirbase < 0x1_0000_0000 && TableChain(dj.fs.g, f, dj.sclust, cs)
    requires Reserved(dj.fs.g, f, |v|, dj.fs.meta, cs) && dj.fs.g.nFatent >= 2
    requires |dj.fs.fat| == dj.fs.g.nFatent && FreeIsUnused(dj.fs.g, dj.fs.fat, dj.fs.meta)
    requires LinksStay(f, dj.fs.fat, cs) && NamesKept(dj.fs.g, dj.fs.meta, v, dj.fs.view)
    ensures TableReady(dj, cs) && dj.fs.g.Checked(|v|) && Proper(dj.fs.g, cs) && (dj.fs.g.fsType == Fat32 ==> cs != [])
    ensures SameNames(DirTables.Table(dj.fs.g, v, cs), EntriesOf(dj, cs))
  {
    hide FreeIsUnused, NamesKept, SameNames, SectorIn, Chains.IsChain;
    SameNumber(dj.fs.g, dj.fs.meta, v, dj.fs.view);
    TableKeepsNames(dj.fs.g, f, v, dj.fs.view, dj.fs.meta, cs);
    TableLinksStay(dj.fs.g, f, dj.fs.fat, |v|, dj.fs.meta, dj.sclust, cs);
  }

  lemma SameNumber(g: Layout, m: set<nat>, v: seq<Sector>, w: seq<Sector>)
    requires NamesKept(g, m, v, w)
    ensures |w| == |v|
  {
  }

  // The parts of a directory's state that depend on the volume only through FAT and sectors.
  lemma TableValues(dj: Dir, cs: seq<dword>)
    requires TableReady(dj, cs)
    ensures dj.fs.g.dirbase < 0x1_0000_0000 && TableChain(dj.fs.g, dj.fs.fat, dj.sclust, cs)
    ensures Reserved(dj.fs.g, dj.fs.fat, |dj.fs.view|, dj.fs.meta, cs)
    ensures dj.fs.g.Checked(|dj.fs.view|) && Proper(dj.fs.g, cs) && (dj.fs.g.fsType == Fat32 ==> cs != [])
    ensures EntriesOf(dj, cs) == DirTables.Table(dj.fs.g, dj.fs.view, cs) && |dj.fs.fat| == dj.fs.g.nFatent
  {
    ListingFacts(dj, cs);
    Bounds(dj.fs.g, |dj.fs.view|);
  }

  // After an operation that kept links and names of the table.
  lemma StillSession(fs: Volume, dj: Dir, cs: seq<dword>, files: seq<File>, f: seq<nat>, v: seq<Sector>)
    requires Together(fs, files) && dj.fs == fs && fs.g.nFatent >= 2 && fs.g.dirbase < 0x1_0000_0000
    requires TableChain(fs.g, f, dj.sclust, cs) && Reserved(fs.g, f, |v|, fs.meta, cs) && TableWhole(fs.g, fs.meta, cs)
    requires fs.g.Checked(|v|) && Proper(fs.g, cs) && (fs.g.fsType == Fat32 ==> cs != [])
    requires Orderly(DirTables.Table(fs.g, v, cs))
    requires LinksStay(f, fs.fat, cs) && NamesKept(fs.g, fs.meta, v, fs.view)
    ensures Session(fs, dj, cs, files) && fs.Valid() && Listing(dj, cs)
    ensures SameNames(DirTables.Table(fs.g, v, cs), EntriesOf(dj, cs))
  {
    hide *;
    VolumeInTogether(fs, files);
    TableAfter(dj, cs, f, v);
    TableReadyFacts(dj, cs);
    SameNamesKeepOrder(DirTables.Table(fs.g, v, cs), EntriesOf(dj, cs));
    IsSession(fs, dj, cs, files);
  }

  lemma VolumeInTogether(fs: Volume, files: seq<File>)
    requires Together(fs, files)
    ensures fs.Valid() && FreeIsUnused(fs.g, fs.fat, fs.meta) && |fs.fat| == fs.g.nFatent
  {
    hide File.Valid, FreeIsUnused, HasOne, FatMap.Entry, Chronicle, Agrees, Store;
  }

  // After the i-th file was used.
  lemma SessionAfterUse(fs: Volume, dj: Dir, cs: seq<dword>, files: seq<File>, i: nat, f: seq<nat>, v: seq<Sector>,
                        es: seq<dword>)
    requires Together(fs, files) && dj.fs == fs && i < |files| && fs.g.nFatent >= 2 && fs.g.dirbase < 0x1_0000_0000
    requires TableChain(fs.g, f, dj.sclust, cs) && Reserved(fs.g, f, |v|, fs.meta, cs) && TableWhole(fs.g, fs.meta, cs)
    requires fs.g.Checked(|v|) && Proper(fs.g, cs) && (fs.g.fsType == Fat32 ==> cs != [])
    requires Orderly(DirTables.Table(fs.g, v, cs)) && Grown(f, fs.fat, es, files[i].chain) && |f| == fs.g.nFatent
    requires EntryTouched(fs.g, fs.meta, v, fs.view, files[i].dirSect, files[i].dirSlot)
    ensures Session(fs, dj, cs, files) && fs.Valid() && Listing(dj, cs)
    ensures SameNames(DirTables.Table(fs.g, v, cs), EntriesOf(dj, cs))
  {
    hide *;
    InTogether(fs, files, i);
    TableBesideFile(files[i], cs);
    GrowthSparesTable(fs.g, f, fs.fat, es, files[i].chain, cs);
    TouchedKeepsNames(fs.g, fs.meta, v, fs.view, files[i].dirSect, files[i].dirSlot);
    StillSession(fs, dj, cs, files, f, v);
  }

  lemma InTogether(fs: Volume, files: seq<File>, i: nat)
    requires Together(fs, files) && i < |files|
    ensures fs.Valid() && files[i].fs == fs && files[i].Valid() && |fs.fat| == fs.g.nFatent >= 2
    ensures FreeIsUnused(fs.g, fs.fat, fs.meta)
  {
    hide File.Valid, FreeIsUnused, HasOne, FatMap.Entry, Chronicle, Agrees, Store;
  }

  // Read, write or synchronize a file.
  method UseInSession(fs: Volume, dj: Dir, files: seq<File>, op: FileOp, ghost cs: seq<dword>) returns (r: Reply)
    requires Session(fs, dj, cs, files) && op.file < |files| && (op.Write? ==> |op.data| < 0x1_0000_0000)
    modifies files[op.file], files[op.file].buf, fs, fs.win, fs.disk
    ensures Session(fs, dj, cs, files)
    ensures PlayStep(fs.g, old(StreamsOf(files)), op, r, fs.disk.sectors, StreamsOf(files), HasRoom(fs))
    ensures old(dj.fs.Valid() && Listing(dj, cs)) && SameNames(old(EntriesOf(dj, cs)), EntriesOf(dj, cs))
    ensures old(SavedOn(files, fs.view)) ==> SavedOn(files, fs.view)
    ensures InOrder(fs.g, old(fs.steps)) ==> InOrder(fs.g, fs.steps)
    ensures old(fs.disk.log) <= fs.disk.log && old(fs.steps) <= fs.steps
  {
    hide *;
    SessionFacts(fs, dj, cs, files);
    TableReadyFacts(dj, cs);
    TableValues(dj, cs);
    ghost var f, v, es := fs.fat, fs.view, files[op.file].chain;
    SavedIsTidy(fs, files);
    ghost var saved := SavedOn(files, v);
    if saved { AllEntered(files, v); }
    r := Perform(fs, files, op);
    SessionAfterUse(fs, dj, cs, files, op.file, f, v, es);
    if saved {
      TouchedKeepsNames(fs.g, fs.meta, v, fs.view, files[op.file].dirSect, files[op.file].dirSlot);
      SavedAfterUse(fs, files, v);
    }
  }

  // What moving the pointer of a stream to an offset may come to: the offset is cut to the size unless the file may be
  // written; then the pointer stops short of it only if no cluster is free.
  ghost predicate Moves(s: Stream, ofs: dword, res: FResult, t: Stream, room: bool) {
    var o := if ofs > |s.contents| && !s.canWrite then |s.contents| else ofs;
    if s.error then res == IntErr && t == s
    else
      && res == Ok && t.pos <= o && (room ==> t.pos == o)
      && |t.contents| == Max(|s.contents|, t.pos) && s.contents <= t.contents
      && t == s.(contents := t.contents, pos := t.pos, unsaved := s.unsaved || |t.contents| > |s.contents|)
  }

  lemma SeekMoves(s: Stream, ofs: dword, res: FResult, t: Stream, room: bool)
    requires t.canRead == s.canRead && t.canWrite == s.canWrite && t.sect == s.sect && t.slot == s.slot
    requires s.error ==> res == IntErr && t == s
    requires !s.error ==>
      var o := if ofs > |s.contents| && !s.canWrite then |s.contents| else ofs;
      && res == Ok && !t.error && t.pos <= o && (t.pos < o ==> !room)
      && |t.contents| == Max(|s.contents|, t.pos) && t.contents[..|s.contents|] == s.contents
      && t.unsaved == (s.unsaved || |t.contents| > |s.contents|)
    ensures Moves(s, ofs, res, t, room)
  {
  }

  // Move the pointer of one file.
  method SeekOne(f: File, ofs: dword) returns (res: FResult)
    requires f.Valid() && f.seeking && FreeIsUnused(f.fs.g, f.fs.fat, f.fs.meta) && !HasOne(f.fs.fat)
    requires f.dirSlot < 16 && f.dirSect in f.fs.meta && !f.fs.g.InFats(f.dirSect)
    modifies f`fptr, f`clust, f`sclust, f`chain, f`dirty, f`dsect, f`dk, f`fsize, f`written, f`contents, f`error
    modifies f.buf, f.fs, f.fs.win, f.fs.disk
    ensures f.Valid() && FreeIsUnused(f.fs.g, f.fs.fat, f.fs.meta) && f.fs.g.nFatent >= 2
    ensures Moves(old(StreamOf(f)), ofs, res, StreamOf(f), HasRoom(f.fs)) && f.fs.meta == old(f.fs.meta)
    ensures Grown(old(f.fs.fat), f.fs.fat, old(f.chain), f.chain) && OnlyIn(f.fs.g, f.chain, old(f.fs.view), f.fs.view)
    ensures EntryTouched(f.fs.g, f.fs.meta, old(f.fs.view), f.fs.view, f.dirSect, f.dirSlot)
    ensures (old(RecordedOn(f, f.fs.view)) && !f.written ==> RecordedOn(f, f.fs.view)) && (old(f.written) ==> f.written)
    ensures f.fs.winsect == old(f.fs.winsect) || f.fs.g.InFat(f.fs.winsect)
    ensures InOrder(f.fs.g, old(f.fs.steps)) ==> InOrder(f.fs.g, f.fs.steps)
    ensures old(f.fs.disk.log) <= f.fs.disk.log && old(f.fs.steps) <= f.fs.steps
  {
    hide File.Valid, FreeIsUnused, HasOne, Grown, OnlyIn, InOrder, EntryTouched, Moves, NoneFree, Capacity, EntryNames;
    hide Layout.InFat, Layout.InFats;
    f.ValidFacts();
    ghost var v, s := f.fs.view, StreamOf(f);
    NothingGrown(f.fs.fat, f.chain);
    NothingChanged(f.fs.g, f.chain, v);
    res := LSeek(f, ofs);
    f.ValidFacts();
    SeekMoves(s, ofs, res, StreamOf(f), HasRoom(f.fs));
    EntriesKept(f, v);
    if RecordedOn(f, v) { StillRecorded(f, v); }
  }

  // Move the pointer of a file.
  method SeekInSession(fs: Volume, dj: Dir, files: seq<File>, i: nat, ofs: dword, ghost cs: seq<dword>)
    returns (res: FResult)
    requires Session(fs, dj, cs, files) && i < |files| && files[i].seeking
    modifies files[i], files[i].buf, fs, fs.win, fs.disk
    ensures Session(fs, dj, cs, files)
    ensures Moves(old(StreamOf(files[i])), ofs, res, StreamOf(files[i]), HasRoom(fs))
    ensures forall j :: 0 <= j < |files| && j != i ==> StreamOf(files[j]) == old(StreamOf(files[j]))
    ensures old(dj.fs.Valid() && Listing(dj, cs)) && SameNames(old(EntriesOf(dj, cs)), EntriesOf(dj, cs))
    ensures old(SavedOn(files, fs.view)) ==> SavedOn(files, fs.view)
    ensures InOrder(fs.g, old(fs.steps)) ==> InOrder(fs.g, fs.steps)
    ensures old(fs.disk.log) <= fs.disk.log && old(fs.steps) <= fs.steps
  {
    hide File.Valid, File.Stands, File.Listed, Volume.Valid, FreeIsUnused, HasOne, Grown, OnlyIn, Together, Aside;
    hide InOrder, EntryTouched, Session, TableReady, Listing, EntriesOf, Reserved, TableWhole, TableChain, Orderly;
    hide SameNames, Proper, Moves, DirTables.Table, Layout.Checked, RecordedOn, SavedOn, HasRoom, EnteredOn;
    SessionFacts(fs, dj, cs, files);
    TableReadyFacts(dj, cs);
    TableValues(dj, cs);
    SetAside(fs, files, i);
    EntriesInMeta(fs, files);
    ghost var f, v, before, es := fs.fat, fs.view, fs.winsect, files[i].chain;
    ghost var saved := SavedOn(files, v);
    if saved { AllSaved(files, v); }
    res := SeekOne(files[i], ofs);
    Rejoin(fs, files, i, f, v, before, es);
    SessionAfterUse(fs, dj, cs, files, i, f, v, es);
    if saved {
      forall j | 0 <= j < |files| && j != i && !files[j].written
        ensures RecordedOn(files[j], v)
      {
        assert files[j] != files[i] && old(RecordedOn(files[j], v));
      }
      SavedAfterSeek(fs, files, i, v);
    }
  }

  lemma AllSaved(files: seq<File>, v: seq<Sector>)
    requires SavedOn(files, v)
    ensures OwnEntries(files)
    ensures forall j :: 0 <= j < |files| ==> EnteredOn(files[j], v) && (!files[j].written ==> RecordedOn(files[j], v))
  {
  }

  lemma SavedAfterSeek(fs: Volume, files: seq<File>, i: nat, v: seq<Sector>)
    requires Together(fs, files) && i < |files| && OwnEntries(files)
    requires EntryTouched(fs.g, fs.meta, v, fs.view, files[i].dirSect, files[i].dirSlot)
    requires forall j :: 0 <= j < |files| ==> EnteredOn(files[j], v)
    requires forall j :: 0 <= j < |files| && j != i && !files[j].written ==> RecordedOn(files[j], v)
    requires !files[i].written ==> RecordedOn(files[i], fs.view)
    ensures SavedOn(files, fs.view)
  {
    hide File.Valid, Volume.Valid, FreeIsUnused, HasOne, Unshared, RecordedOn, EntryTouched, EnteredOn, NamesKept;
    hide SavedOn;
    EntriesInMeta(fs, files);
    TouchedKeepsNames(fs.g, fs.meta, v, fs.view, files[i].dirSect, files[i].dirSlot);
    forall j | 0 <= j < |files|
      ensures Tidy(files[j])
    {
      if j != i && !files[j].written {
        StaysRecorded(files[j], fs.meta, v, fs.view, files[i].dirSect, files[i].dirSlot);
      }
    }
    SavedAfterUse(fs, files, v);
  }
}
