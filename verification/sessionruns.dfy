/**
 Runs from a mount on: files are created, opened, overwritten, read, written and synchronized, and their pointers moved.
*/
module SessionRuns {
  import opened Bytes
  import opened Geometry
  import opened DiskIO
  import opened FatMap
  import opened WriteBehind
  import opened Volumes
  import opened Entries
  import opened Allocator
  import opened FileMap
  import opened FileGrowth
  import opened Cursor
  import opened Directory
  import opened Ordering
  import opened Tables
  import opened DirTables
  import opened Lookup
  import opened LongNames
  import opened Registration
  import opened Files
  import opened OpenFiles
  import opened Opening
  import opened Mount
  import opened Sessions
  import Chains

  // ----- overwriting

  // No open file has a cluster of es.
  ghost predicate NoneUses(files: seq<File>, es: seq<dword>)
    reads set i | 0 <= i < |files| :: files[i]
  {
    forall j :: 0 <= j < |files| ==> Separate(files[j].chain, es)
  }

  lemma NoneUsesNone(files: seq<File>)
    ensures NoneUses(files, [])
  {
  }

  // Clusters that hold no metadata are none of a table's.
  lemma TableBesideChain(g: Layout, m: set<nat>, cs: seq<dword>, es: seq<dword>, limit: nat)
    requires g.Checked(limit) && TableWhole(g, m, cs) && Proper(g, cs) && NoMetaIn(g, m, es)
    ensures Separate(cs, es)
  {
    forall i, j | 0 <= i < |cs| && 0 <= j < |es|
      ensures cs[i] != es[j]
    {
      g.ClusterBlock(cs[i], limit);
      assert OfCluster(g, cs[i], g.Clust2Sect(cs[i]));
    }
  }

  lemma ZeroedKeepsLinks(f: seq<nat>, es: seq<dword>, cs: seq<dword>)
    requires Separate(cs, es) && forall i :: 0 <= i < |cs| ==> cs[i] < |f|
    ensures LinksStay(f, Chains.Zeroed(f, es), cs)
  {
  }

  lemma ZeroedHasNoOne(f: seq<nat>, es: seq<nat>)
    requires !HasOne(f)
    ensures !HasOne(Chains.Zeroed(f, es))
  {
  }

  // w differs from v in sector s and the FAT copies only.
  ghost predicate OnlyAt(g: Layout, s: nat, v: seq<Sector>, w: seq<Sector>) {
    |w| == |v| && forall t :: 0 <= t < |v| && t != s && !g.InFats(t) ==> w[t] == v[t]
  }

  // Releasing the clusters es and changing the sector in the window leaves a file of other clusters in order.
  lemma OverwriteSpares(g: Layout, f: seq<nat>, v: seq<Sector>, w: seq<Sector>, s: FileState, d: seq<byte>,
                        winsect: nat, m: set<nat>, seeking: bool, es: seq<dword>)
    requires Fit(g, f, v, s, d, winsect, m, seeking) && g.Checked(|v|) && Separate(s.cs, es) && |f| == g.nFatent
    requires OnlyAt(g, winsect, v, w)
    ensures Fit(g, Chains.Zeroed(f, es), w, s, d, winsect, m, seeking)
  {
    hide Content, Capacity, Layout.Clust2Sect;
    ClustersOfFile(g, s.cs, |v|);
    ZeroedKeepsLinks(f, es, s.cs);
    FitElsewhere(g, f, Chains.Zeroed(f, es), v, w, s, d, winsect, winsect, m, m, seeking);
  }

  lemma FilesAfterOverwrite(fs: Volume, files: seq<File>, f: seq<nat>, v: seq<Sector>, es: seq<dword>)
    requires AllAside(fs, files, f, v, fs.winsect, fs.meta) && NoneUses(files, es) && fs.g.Checked(|v|)
    requires |f| == fs.g.nFatent && fs.fat == Chains.Zeroed(f, es) && OnlyAt(fs.g, fs.winsect, v, fs.view)
    ensures AllAside(fs, files, fs.fat, fs.view, fs.winsect, fs.meta)
  {
    hide Fit, Tracking, Layout.Checked, Separate, OnlyAt, Chains.Zeroed;
    forall j | 0 <= j < |files|
      ensures files[j].Stands(fs.fat, fs.view, fs.winsect, fs.meta)
    {
      OverwriteSpares(fs.g, f, v, fs.view, files[j].State(), files[j].contents, fs.winsect, fs.meta, files[j].seeking,
                      es);
    }
  }

  lemma EmptiedKeepsNames(g: Layout, m: set<nat>, v: seq<Sector>, w: seq<Sector>, s: nat, o: nat, time: dword)
    requires s < |v| && o < 16 && Live(SlotAt(v[s], o)) && OnlyAt(g, s, v, w)
    requires w[s] == WithSlot(v[s], o, Emptied(SlotAt(v[s], o), time))
    ensures NamesKept(g, m, v, w) && SlotAt(w[s], o) == Emptied(SlotAt(v[s], o), time)
  {
    hide Emptied, WithSlot, SlotAt;
    var e := SlotAt(v[s], o);
    EmptiedReadsBack(e, time);
    assert Emptied(e, time)[..11][0] == e[..11][0];
    forall p | 0 <= p < 16
      ensures SlotAt(w[s], p) == if p == o then Emptied(e, time) else SlotAt(v[s], p)
    {
      WithSlotAt(v[s], o, Emptied(e, time), p);
    }
  }

  // The live entry in slot o of the window's sector names the chain es, to which nothing else leads.
  ghost predicate Overwritable(fs: Volume, o: nat, es: seq<dword>)
    reads fs, fs.win, fs.disk
  {
    && fs.Valid() && fs.g.nFatent >= 2 && IsEntry(fs.g, fs.view, fs.meta, fs.winsect, o)
    && Live(SlotAt(fs.view[fs.winsect], o)) && OwnChain(fs, o, es) && NoMetaIn(fs.g, fs.meta, es)
  }

  lemma OverwriteParts(fs: Volume, o: nat, es: seq<dword>)
    requires Overwritable(fs, o, es)
    ensures fs.Valid() && fs.g.nFatent >= 2 && IsEntry(fs.g, fs.view, fs.meta, fs.winsect, o) && OwnChain(fs, o, es)
    ensures NoMetaIn(fs.g, fs.meta, es) && o < 16 && fs.winsect < |fs.view| && Live(SlotAt(fs.view[fs.winsect], o))
  {
  }

  // Overwrite a file that is not open. The open ones stay as they are.
  method OverwriteInSession(fs: Volume, dj: Dir, files: seq<File>, o: nat, time: dword, ghost cs: seq<dword>,
                            ghost es: seq<dword>)
    returns (res: FResult)
    requires Session(fs, dj, cs, files) && Overwritable(fs, o, es) && NoneUses(files, es)
    modifies fs, fs.win, fs.disk
    ensures res == Ok && Session(fs, dj, cs, files) && fs.meta == old(fs.meta) && fs.winsect == old(fs.winsect)
    ensures fs.fat == Chains.Zeroed(old(fs.fat), es) && o < 16 && fs.winsect < |fs.view| == |old(fs.view)|
    ensures IsEntry(fs.g, fs.view, fs.meta, fs.winsect, o)
    ensures SlotAt(fs.view[fs.winsect], o) == Emptied(SlotAt(old(fs.view)[fs.winsect], o), time)
    ensures old(dj.fs.Valid() && Listing(dj, cs)) && SameNames(old(EntriesOf(dj, cs)), EntriesOf(dj, cs))
    ensures old(SavedOn(files, fs.view)) && NotEntered(files, fs.winsect, o) ==> SavedOn(files, fs.view)
    ensures InOrder(fs.g, old(fs.steps)) ==> InOrder(fs.g, fs.steps)
    ensures old(fs.disk.log) <= fs.disk.log && old(fs.steps) <= fs.steps
  {
    hide *;
    SessionFacts(fs, dj, cs, files);
    TableReadyFacts(dj, cs);
    TableValues(dj, cs);
    AllSetAside(fs, files);
    EntriesInMeta(fs, files);
    OverwriteParts(fs, o, es);
    ghost var f, v := fs.fat, fs.view;
    TableBesideChain(fs.g, fs.meta, cs, es, |v|);
    ProperInFat(fs.g, f, cs);
    ZeroedKeepsLinks(f, es, cs);
    ZeroedHasNoOne(f, es);
    res := OverwriteFile(fs, o, time, es);
    OnlyThere(fs.g, fs.winsect, v, fs.view);
    EmptiedKeepsNames(fs.g, fs.meta, v, fs.view, fs.winsect, o, time);
    FilesAfterOverwrite(fs, files, f, v, es);
    AllTogether(fs, files);
    StillSession(fs, dj, cs, files, f, v);
    StillEntry(fs.g, v, fs.view, fs.meta, fs.winsect, o);
    if SavedOn(files, v) && NotEntered(files, fs.winsect, o) {
      SavedBeside(fs, files, v, o, time);
    }
  }

  // The entry that was emptied is none of the files'.
  lemma SavedBeside(fs: Volume, files: seq<File>, v: seq<Sector>, o: nat, time: dword)
    requires SavedOn(files, v) && NotEntered(files, fs.winsect, o) && OnlyAt(fs.g, fs.winsect, v, fs.view)
    requires o < 16 && fs.winsect < |v|
    requires fs.view[fs.winsect] == WithSlot(v[fs.winsect], o, Emptied(SlotAt(v[fs.winsect], o), time))
    requires forall j :: 0 <= j < |files| ==> files[j].dirSlot < 16 && !fs.g.InFats(files[j].dirSect)
    ensures SavedOn(files, fs.view)
  {
    hide SlotAt, WithSlot, Emptied, SavedOn, Live, RecordedOn;
    var s := fs.winsect;
    var e := Emptied(SlotAt(v[s], o), time);
    forall j | 0 <= j < |files| && EnteredOn(files[j], v)
      ensures SlotAt(fs.view[files[j].dirSect], files[j].dirSlot) == SlotAt(v[files[j].dirSect], files[j].dirSlot)
    {
      WithSlotAt(v[s], o, e, files[j].dirSlot);
    }
    SavedStays(files, v, fs.view);
  }

  lemma ProperInFat(g: Layout, f: seq<nat>, cs: seq<dword>)
    requires Proper(g, cs) && |f| == g.nFatent
    ensures forall i :: 0 <= i < |cs| ==> cs[i] < |f|
  {
  }

  lemma OnlyThere(g: Layout, s: nat, v: seq<Sector>, w: seq<Sector>)
    requires |w| == |v| && forall t :: 0 <= t < |w| && t != s && !g.InFats(t) ==> w[t] == v[t]
    ensures OnlyAt(g, s, v, w)
  {
  }

  lemma StillEntry(g: Layout, v: seq<Sector>, w: seq<Sector>, m: set<nat>, s: nat, o: nat)
    requires IsEntry(g, v, m, s, o) && |w| == |v|
    ensures IsEntry(g, w, m, s, o)
  {
  }

  // ----- opening

  // The entry in slot o of the window's sector describes a file with chain es, which holds no metadata.
  ghost predicate Openable(fs: Volume, o: nat, es: seq<dword>)
    reads fs, fs.win, fs.disk
  {
    && fs.Valid() && fs.g.nFatent >= 2 && IsEntry(fs.g, fs.view, fs.meta, fs.winsect, o) && NoMetaIn(fs.g, fs.meta, es)
    && var e := SlotAt(fs.view[fs.winsect], o);
       ChainFrom(fs.g, fs.fat, StartCluster(e), es) && FileSize(e) <= 512 * Capacity(fs.g, es)
  }

  lemma OpenParts(fs: Volume, o: nat, es: seq<dword>)
    requires Openable(fs, o, es)
    ensures fs.Valid() && fs.g.nFatent >= 2 && fs.win.Length == 512 && o < 16 && fs.winsect < |fs.view|
    ensures fs.winsect in fs.meta && !fs.g.InFats(fs.winsect) && fs.g.Cacheable(fs.winsect)
    ensures var e := SlotAt(fs.win[..], o);
            && e == SlotAt(fs.view[fs.winsect], o)
            && ChainFrom(fs.g, fs.fat, StartCluster(e), es) && FileSize(e) <= 512 * Capacity(fs.g, es)
    ensures Apart(fs.g, fs.winsect, fs.meta, es)
  {
    hide FatOf, FatMap.Entry, Chronicle, Agrees, Store, Capacity, SlotAt, StartCluster, FileSize;
    EntryInWindow(fs, o);
    forall i, s | 0 <= i < |es| && s in fs.meta
      ensures !fs.g.InCluster(es[i], s)
    {
      assert !OfCluster(fs.g, es[i], s);
    }
  }

  // One more file.
  lemma OneMore(fs: Volume, files: seq<File>, h: File)
    requires Together(fs, files) && h.fs == fs && h.Valid() && h.Listed() && NoneUses(files, h.chain)
    requires forall j :: 0 <= j < |files| ==> files[j] != h && files[j].buf != h.buf
    ensures Together(fs, files + [h])
  {
    hide File.Valid, File.Listed, Volume.Valid, FreeIsUnused, HasOne, Separate;
    forall j | 0 <= j < |files|
      ensures Unshared(files[j], h) && Unshared(h, files[j])
    {
      SeparateBoth(files[j].chain, h.chain);
    }
  }

  // Make a file object for the entry in the window.
  method MakeFile(fs: Volume, o: nat, withSeek: bool, r: bool, w: bool, created: bool, ghost es: seq<dword>)
    returns (h: File)
    requires Openable(fs, o, es)
    ensures fresh(h) && fresh(h.buf) && h.fs == fs && h.Valid() && h.Listed() && h.chain == es && h.seeking == withSeek
    ensures o < 16 && fs.winsect < |fs.view| && fs.g.Checked(|fs.view|) && Proper(fs.g, es)
    ensures h.dirSect == fs.winsect && h.dirSlot == o && (!created ==> RecordedOn(h, fs.view))
    ensures var size := FileSize(SlotAt(fs.view[fs.winsect], o));
            && size <= 512 * Capacity(fs.g, es)
            && StreamOf(h) == Stream(Data(fs.g, fs.view, es, size), 0, false, r, w, created, fs.winsect, o)
  {
    hide FatOf, FatMap.Entry, Chronicle, Store, Agrees, Capacity, Fit, Tracking, Data, SlotAt, StartCluster, FileSize;
    hide Volume.Valid, Layout.Checked, Openable, ChainFrom, Apart, Proper, EntryNames;
    OpenParts(fs, o, es);
    var e := SlotAt(fs.win[..], o);
    h := new File(fs, withSeek, r, w, fs.winsect, o, StartCluster(e), FileSize(e), es);
    h.written := created;
    EntryIsNamed(fs.view, fs.winsect, o);
  }

  lemma EntryIsNamed(v: seq<Sector>, s: nat, o: nat)
    requires s < |v| && o < 16
    ensures EntryNames(v, s, o, StartCluster(SlotAt(v[s], o)), FileSize(SlotAt(v[s], o)))
  {
  }

  // Open the file of the entry in the window.
  method OpenInSession(fs: Volume, dj: Dir, files: seq<File>, o: nat, withSeek: bool, r: bool, w: bool, created: bool,
                       ghost cs: seq<dword>, ghost es: seq<dword>)
    returns (h: File)
    requires Session(fs, dj, cs, files) && Openable(fs, o, es) && NoneUses(files, es)
    ensures fresh(h) && fresh(h.buf) && Session(fs, dj, cs, files + [h]) && h.seeking == withSeek && h.chain == es
    ensures o < 16 && fs.winsect < |fs.view| && fs.g.Checked(|fs.view|) && Proper(fs.g, es)
    ensures h.dirSect == fs.winsect && h.dirSlot == o
    ensures var size := FileSize(SlotAt(fs.view[fs.winsect], o));
            && size <= 512 * Capacity(fs.g, es)
            && StreamOf(h) == Stream(Data(fs.g, fs.view, es, size), 0, false, r, w, created, fs.winsect, o)
    ensures SavedOn(files, fs.view) && NotEntered(files, fs.winsect, o) && Live(SlotAt(fs.view[fs.winsect], o)) ==>
              SavedOn(files + [h], fs.view)
  {
    hide *;
    SessionFacts(fs, dj, cs, files);
    h := MakeFile(fs, o, withSeek, r, w, created, es);
    OneMore(fs, files, h);
    IsSession(fs, dj, cs, files + [h]);
    WrittenAs(h, created);
    if SavedOn(files, fs.view) && NotEntered(files, fs.winsect, o) && Live(SlotAt(fs.view[fs.winsect], o)) {
      OneMoreSaved(files, h, fs.view);
    }
  }

  lemma WrittenAs(h: File, created: bool)
    requires StreamOf(h).unsaved == created
    ensures h.written == created
  {
  }

  lemma OneMoreSaved(files: seq<File>, h: File, v: seq<Sector>)
    requires SavedOn(files, v) && NotEntered(files, h.dirSect, h.dirSlot) && (!h.written ==> RecordedOn(h, v))
    requires h.dirSlot < 16 && h.dirSect < |v| && Live(SlotAt(v[h.dirSect], h.dirSlot))
    ensures SavedOn(files + [h], v)
  {
    hide SlotAt, Live, EntryNames;
  }

  // ----- creating

  // What creating a file in the directory t comes to: a new entry under its name, or an extended table at most.
  // Which of the two, FAT f, chain cs and table tell.
  ghost predicate Creates(g: Layout, f: seq<nat>, cs: seq<dword>, t: seq<Slot>, r: Request, res: FResult, u: seq<Slot>,
                          up: word -> word)
    requires IsRequest(r)
  {
    && !HasOne(f) && IsCreation(g, f, cs, t, r.fn, r.name, BufferOf(r.name), up, res)
    && exists e: Attempt, mid: seq<Slot> :: CreatesBy(t, r, res, mid, u, e, up)
  }

  ghost predicate CreatesBy(t: seq<Slot>, r: Request, res: FResult, mid: seq<Slot>, u: seq<Slot>, e: Attempt,
                            up: word -> word)
    requires IsRequest(r)
  {
    && Attempts(t, mid, e, up) && SameNames(mid, u) && (res == Ok <==> e.Created?)
    && (e.Created? ==> e.name == r.name && (r.fn[11] % 2 == 0 ==> e.key.short == r.fn[..11]))
  }

  lemma CreatedSo(g: Layout, f: seq<nat>, cs: seq<dword>, t: seq<Slot>, r: Request, res: FResult, mid: seq<Slot>,
                  u: seq<Slot>, e: Attempt, up: word -> word)
    requires IsRequest(r) && Attempts(t, mid, e, up) && SameNames(mid, u) && (res == Ok <==> e.Created?)
    requires e.Created? ==> e.name == r.name && (r.fn[11] % 2 == 0 ==> e.key.short == r.fn[..11])
    requires !HasOne(f) && IsCreation(g, f, cs, t, r.fn, r.name, BufferOf(r.name), up, res)
    ensures Creates(g, f, cs, t, r, res, u, up)
  {
    hide Attempts, SameNames, IsCreation, HasOne;
    assert CreatesBy(t, r, res, mid, u, e, up);
  }

  lemma SameNamesAs(t: seq<Slot>)
    ensures SameNames(t, t)
  {
  }

  // A live entry without a cluster may be overwritten.
  lemma NoChainYet(fs: Volume, o: nat)
    requires fs.Valid() && fs.g.nFatent >= 2 && IsEntry(fs.g, fs.view, fs.meta, fs.winsect, o)
    requires Live(SlotAt(fs.view[fs.winsect], o)) && StartCluster(SlotAt(fs.view[fs.winsect], o)) == 0
    ensures Overwritable(fs, o, [])
  {
    hide FatOf, FatMap.Entry, Chronicle, Agrees, Store, SlotAt, Live, StartCluster;
  }

  // The new entry is live, and has no chain.
  lemma NewSlot(t: seq<Slot>, u: seq<Slot>, e: Attempt, up: word -> word)
    requires Attempts(t, u, e, up) && e.Created?
    ensures 1 <= e.at + e.ne <= |u| && Live(u[e.at + e.ne - 1]) && StartCluster(u[e.at + e.ne - 1]) == 0
  {
    hide Find, IsPart, Parts, StartCluster, FileSize;
    var s := u[e.at + e.ne - 1];
    assert s[..11][0] == s[0];
  }

  lemma NewEntryIsBare(dj: Dir, ds: seq<dword>, t: seq<Slot>, e: Attempt, up: word -> word)
    requires TableReady(dj, ds) && dj.fs.Valid() && Listing(dj, ds) && Attempts(t, EntriesOf(dj, ds), e, up)
    requires e.Created? && e.at + e.ne >= 1 && StandsOn(dj, ds, e.at + e.ne - 1) && dj.fs.winsect == dj.sect
    ensures dj.off / 32 < 16 && Overwritable(dj.fs, dj.off / 32, [])
  {
    hide *;
    var i := e.at + e.ne - 1;
    NewSlot(t, EntriesOf(dj, ds), e, up);
    ListingFacts(dj, ds);
    StandsFacts(dj, ds, i);
    EntryIsMeta(dj, ds, i);
    SlotNumber(i);
    IsAnEntry(dj.fs.g, dj.fs.view, dj.fs.meta, dj.sect, i % 16);
    NoChainYet(dj.fs, i % 16);
  }

  lemma SlotNumber(i: nat)
    ensures i % 16 * 32 / 32 == i % 16 < 16
  {
  }

  lemma IsAnEntry(g: Layout, v: seq<Sector>, m: set<nat>, s: nat, o: nat)
    requires s in m && s < |v| && !g.InFats(s) && o < 16
    ensures IsEntry(g, v, m, s, o)
  {
  }

  // The sector of an entry of the directory is metadata.
  lemma EntryIsMeta(dj: Dir, ds: seq<dword>, i: nat)
    requires TableReady(dj, ds) && StandsOn(dj, ds, i)
    ensures dj.sect in dj.fs.meta
  {
    var t := EntriesOf(dj, ds);
    hide TableReady, StandsOn, Working;
    TableReadyFacts(dj, ds);
    IsWorking(dj, ds, i);
    WorkingFacts(dj, ds, t, i);
  }

  lemma IsWorking(dj: Dir, ds: seq<dword>, i: nat)
    requires TableReady(dj, ds) && StandsOn(dj, ds, i) && dj.fs.Valid() && Listing(dj, ds)
    ensures Working(dj, ds, EntriesOf(dj, ds), i)
  {
  }

  lemma EmptiedIsLive(e: Slot, time: dword)
    requires Live(e)
    ensures Live(Emptied(e, time))
  {
    hide Emptied;
    EmptiedReadsBack(e, time);
    assert Emptied(e, time)[..11][0] == e[..11][0];
  }

  // An emptied entry describes an empty file.
  lemma EmptiedIsOpenable(fs: Volume, o: nat, e: Slot, time: dword)
    requires fs.Valid() && IsEntry(fs.g, fs.view, fs.meta, fs.winsect, o)
    requires SlotAt(fs.view[fs.winsect], o) == Emptied(e, time)
    ensures Openable(fs, o, []) && FileSize(Emptied(e, time)) == 0
  {
    hide FatOf, FatMap.Entry, Chronicle, Agrees, Store, SlotAt, Emptied;
    EmptiedReadsBack(e, time);
  }

  // A file that was just created.
  predicate IsNew(x: Stream, forReading: bool, forWriting: bool) {
    x == Stream([], 0, false, forReading, forWriting, true, x.sect, x.slot)
  }

  // Create a file and open it. Other files stay as they are.
  method CreateFile(fs: Volume, dj: Dir, files: seq<File>, r: Request, up: word -> word, time: dword, withSeek: bool,
                    forReading: bool, forWriting: bool, ghost cs: seq<dword>)
    returns (res: FResult, more: seq<File>, ghost ds: seq<dword>)
    requires Session(fs, dj, cs, files) && IsRequest(r) && UpperCases(up)
    modifies dj`index, dj`clust, dj`sect, dj`off, fs, fs.win, fs.disk
    ensures Session(fs, dj, ds, more) && cs <= ds
    ensures if res == Ok then
              && |more| == |files| + 1 && more[..|files|] == files
              && fresh(more[|files|]) && fresh(more[|files|].buf) && more[|files|].seeking == withSeek
              && IsNew(StreamOf(more[|files|]), forReading, forWriting)
            else more == files
    ensures old(dj.fs.Valid() && Listing(dj, cs)) && dj.fs.Valid() && Listing(dj, ds)
    ensures Creates(fs.g, old(fs.fat), cs, old(EntriesOf(dj, cs)), r, res, EntriesOf(dj, ds), up)
    ensures old(SavedOn(files, fs.view)) ==> SavedOn(more, fs.view)
    ensures InOrder(fs.g, fs.steps) <==>
              InOrder(fs.g, old(fs.steps)) && StretchSafe(fs.g, old(fs.fat), old(fs.view), cs, ds)
    ensures old(fs.disk.log) <= fs.disk.log && old(fs.steps) <= fs.steps
  {
    hide *;
    SessionFacts(fs, dj, cs, files);
    TableReadyFacts(dj, cs);
    ghost var t, e, f := EntriesOf(dj, cs), Attempt.Refused, fs.fat;
    res, e, ds := CreateInSession(fs, dj, files, r, up, cs);
    more := files;
    SessionFacts(fs, dj, ds, files);
    TableReadyFacts(dj, ds);
    ghost var mid := EntriesOf(dj, ds);
    if res != Ok {
      SameNamesAs(mid);
      CreatedSo(fs.g, f, cs, t, r, res, mid, mid, e, up);
      return;
    }
    NewEntryIsBare(dj, ds, t, e, up);
    OverwriteParts(fs, dj.off / 32, []);
    NoneUsesNone(files);
    ghost var steps, s := fs.steps, SlotAt(fs.view[fs.winsect], dj.off / 32);
    res := OverwriteInSession(fs, dj, files, dj.off / 32, time, ds, []);
    if InOrder(fs.g, fs.steps) { PrefixIsSafe(fs.g, steps, fs.steps); }
    SessionFacts(fs, dj, ds, files);
    TableReadyFacts(dj, ds);
    CreatedSo(fs.g, f, cs, t, r, res, mid, EntriesOf(dj, ds), e, up);
    EmptiedIsOpenable(fs, dj.off / 32, s, time);
    EmptiedIsLive(s, time);
    var h := OpenInSession(fs, dj, files, dj.off / 32, withSeek, forReading, forWriting, true, ds, []);
    more := files + [h];
    OpenedEmpty(StreamOf(h), forReading, forWriting, fs.winsect, dj.off / 32);
  }

  lemma OpenedEmpty(x: Stream, forReading: bool, forWriting: bool, s: nat, o: nat)
    requires x == Stream(x.contents, 0, false, forReading, forWriting, true, s, o) && |x.contents| == 0
    ensures IsNew(x, forReading, forWriting)
  {
  }

  // ----- mounting

  // A sound volume without dangling entries or links. Its directories start in the clusters dirs, which are in use; the
  // one with start cluster sclust has the chain cs, and its short names are unique.
  ghost predicate Mountable(g: Layout, v: seq<Sector>, dirs: set<nat>, sclust: dword, cs: seq<dword>) {
    && g.Sound(|v|) && g.dirbase < 0x1_0000_0000 && ImageSafe(g, v, dirs) && !HasOne(FatOf(g, v))
    && (forall d :: d in dirs ==> g.IsCluster(d) && FatOf(g, v)[d] != 0)
    && TableChain(g, FatOf(g, v), sclust, cs) && (cs != [] ==> cs[0] as nat in dirs)
    && ListsDirectory(g, FatOf(g, v), sclust, cs, |v|) && Orderly(DirTables.Table(g, v, cs))
  }

  ghost predicate ListsDirectory(g: Layout, f: seq<nat>, sclust: dword, cs: seq<dword>, limit: nat)
    requires g.Sound(limit) && g.dirbase < 0x1_0000_0000 && TableChain(g, f, sclust, cs)
    ensures ListsDirectory(g, f, sclust, cs, limit)
    ensures g.Checked(limit) && Proper(g, cs) && (g.fsType == Fat32 ==> cs != [])
  {
    Bounds(g, limit);
    ChainIsProper(g, f, cs);
    true
  }

  // Following a chain from its start is following links.
  lemma ChainIsPath(f: seq<nat>, cs: seq<dword>, k: nat)
    requires Chains.IsChain(f, cs) && k < |cs|
    ensures Path(f, cs[..k + 1])
  {
  }

  // All sectors of such a table are metadata.
  lemma TableIsDirMeta(g: Layout, v: seq<Sector>, dirs: set<nat>, sclust: dword, cs: seq<dword>)
    requires Mountable(g, v, dirs, sclust, cs)
    ensures g.Checked(|v|) && g.nFatent >= 2 && TableWhole(g, DirMeta(g, v, dirs), cs)
    ensures Proper(g, cs) && (g.fsType == Fat32 ==> cs != [])
    ensures forall i :: 0 <= i < Size(g, cs) ==> SectorIn(g, |v|, cs, i, DirMeta(g, v, dirs))
  {
    hide FatOf, ImageSafe, HasOne, Orderly, Layout.Clust2Sect, DirMeta, ClusterIn, Chains.IsChain, IsDirSector;
    Bounds(g, |v|);
    var f, m := FatOf(g, v), DirMeta(g, v, dirs);
    forall k | 0 <= k < |cs|
      ensures ClusterIn(g, cs[k], m)
    {
      ChainIsPath(f, cs, k);
      DirsIn(g, v, dirs, cs[..k + 1]);
    }
    RootIn(g, v, dirs);
    forall i | 0 <= i < Size(g, cs)
      ensures SectorIn(g, |v|, cs, i, m)
    {
      DirSectorPlace(g, cs, i, |v|);
      if cs != [] {
        InClusterIn(g, cs[Ordinal(g, i / 16)], m, DirSector(g, cs, i));
      }
    }
  }

  lemma InClusterIn(g: Layout, c: dword, m: set<nat>, s: nat)
    requires g.nFatent >= 2 && ClusterIn(g, c, m) && g.InCluster(c, s)
    ensures s in m
  {
    assert OfCluster(g, c, s);
  }

  lemma MountedIsReserved(g: Layout, v: seq<Sector>, dirs: set<nat>, sclust: dword, cs: seq<dword>)
    requires Mountable(g, v, dirs, sclust, cs)
    ensures g.Sound(|v|) && g.Checked(|v|) && g.nFatent >= 2 && !HasOne(FatOf(g, v)) && Proper(g, cs)
    ensures g.fsType == Fat32 ==> cs != []
    ensures var m := DirMeta(g, v, dirs);
            && Reserved(g, FatOf(g, v), |v|, m, cs) && TableWhole(g, m, cs) && FreeIsUnused(g, FatOf(g, v), m)
            && InOrder(g, [Snapshot(v, m)]) && Named(g, m, dirs)
            && (forall s :: s in m ==> s < |v| && g.Cacheable(s)) && (forall s: nat :: g.InFat(s) ==> s in m)
    ensures g.dirbase < 0x1_0000_0000 && TableChain(g, FatOf(g, v), sclust, cs) && Orderly(DirTables.Table(g, v, cs))
  {
    hide FatOf, ImageSafe, HasOne, Orderly, DirMeta, TableWhole, FreeIsUnused, InOrder, Named, SectorIn, TableChain;
    hide Layout.Cacheable, Layout.InFat, DirTables.Table;
    TableIsDirMeta(g, v, dirs, sclust, cs);
    MountIsReady(g, v, dirs);
    MountIsInOrder(g, v, dirs);
  }

  lemma StartsReady(fs: Volume, dj: Dir, cs: seq<dword>, v: seq<Sector>, m: set<nat>)
    requires fs.Valid() && dj.fs == fs && fs.view == v && fs.meta == m && fs.g.dirbase < 0x1_0000_0000
    requires fs.g.Checked(|v|) && Proper(fs.g, cs) && (fs.g.fsType == Fat32 ==> cs != []) && fs.g.nFatent >= 2
    requires Reserved(fs.g, FatOf(fs.g, v), |v|, m, cs) && TableWhole(fs.g, m, cs)
    requires FreeIsUnused(fs.g, FatOf(fs.g, v), m) && !HasOne(FatOf(fs.g, v))
    requires TableChain(fs.g, FatOf(fs.g, v), dj.sclust, cs) && Orderly(DirTables.Table(fs.g, v, cs))
    ensures Session(fs, dj, cs, []) && Listing(dj, cs) && EntriesOf(dj, cs) == DirTables.Table(fs.g, v, cs)
  {
    hide FatOf, FatMap.Entry, HasOne, Orderly, TableWhole, FreeIsUnused, SectorIn, TableChain, Chronicle, Agrees, Store;
    hide DirTables.Table, Proper, Layout.Checked;
    fs.LastStep();
  }

  // Mount such a volume, with no file open.
  method StartSession(d: Disk, sclust: dword, ghost dirs: set<nat>, ghost cs: seq<dword>) returns (fs: Volume, dj: Dir)
    requires var r := MountOutcome(d.sectors); r.Mounted? && Mountable(r.layout, d.sectors, dirs, sclust, cs)
    modifies d
    ensures fresh(fs) && fresh(fs.win) && fresh(dj) && fs.disk == d && fs.g == MountOutcome(old(d.sectors)).layout
    ensures Session(fs, dj, cs, []) && fs.view == old(d.sectors) && d.log == [old(d.sectors)]
    ensures fs.Valid() && dj.fs == fs && dj.sclust == sclust && Listing(dj, cs)
    ensures var g := fs.g;
            && g.Checked(|old(d.sectors)|) && Proper(g, cs) && (g.fsType == Fat32 ==> cs != [])
            && EntriesOf(dj, cs) == DirTables.Table(g, old(d.sectors), cs)
    ensures InOrder(fs.g, fs.steps) && fs.g.nFatent >= 2 && Named(fs.g, fs.first, dirs)
  {
    hide *;
    var win := new byte[512](_ => 0);
    var r := ChkMounted(d, win);
    ghost var v := d.sectors;
    MountedIsReserved(r.layout, v, dirs, sclust, cs);
    fs := new Volume(d, r.layout, r.last, r.free, DirMeta(r.layout, v, dirs));
    dj := new Dir(fs, sclust);
    StartsReady(fs, dj, cs, v, DirMeta(r.layout, v, dirs));
  }

  // ----- runs

  // Calls a program makes: create and open a file, use an open one, or move its pointer.
  datatype Call =
    | Create(request: Request, time: dword, forReading: bool, forWriting: bool)
    | Use(op: FileOp)
    | Reposition(file: nat, ofs: dword)

  predicate IsCall(c: Call) {
    match c
    case Create(r, _, _, _) => IsRequest(r)
    case Use(op) => op.Write? ==> |op.data| < 0x1_0000_0000
    case Reposition(_, _) => true
  }

  predicate AreCalls(calls: seq<Call>) {
    forall k :: 0 <= k < |calls| ==> IsCall(calls[k])
  }

  lemma FirstCall(calls: seq<Call>)
    requires AreCalls(calls) && calls != []
    ensures IsCall(calls[0]) && AreCalls(calls[1..]) && [calls[0]] + calls[1..] == calls
  {
    hide IsCall;
  }

  // A moment of a session: the open files, the entries of the directory, whether some cluster is free, the volume under
  // them (FAT, sectors, and chain of the directory), and the disk.
  datatype Moment = Moment(streams: seq<Stream>, table: seq<Slot>, room: bool, fat: seq<nat>, sectors: seq<Sector>,
                           chain: seq<dword>, disk: seq<Sector>)

  ghost function MomentOf(fs: Volume, dj: Dir, cs: seq<dword>, files: seq<File>): Moment
    requires dj.fs.Valid() && Listing(dj, cs)
    reads dj, dj.fs, dj.fs.win, dj.fs.disk, fs, fs.disk, set i | 0 <= i < |files| :: files[i]
  {
    Moment(StreamsOf(files), EntriesOf(dj, cs), HasRoom(fs), fs.fat, fs.view, cs, fs.disk.sectors)
  }

  // What a call, answered by r, makes of moment s. A file that was never opened is an invalid object.
  ghost predicate Follows(g: Layout, s: Moment, c: Call, r: Reply, t: Moment, up: word -> word) {
    match c
    case Create(q, _, forReading, forWriting) =>
      && IsRequest(q) && Creates(g, s.fat, s.chain, s.table, q, r.res, t.table, up) && s.chain <= t.chain
      && if r.res == Ok then
           && |t.streams| == |s.streams| + 1 && t.streams[..|s.streams|] == s.streams
           && IsNew(t.streams[|s.streams|], forReading, forWriting)
         else t.streams == s.streams
    case Use(op) =>
      if op.file >= |s.streams| then r == Reply(InvalidObject, 0, []) && t == s
      else
        && SameNames(s.table, t.table) && t.chain == s.chain
        && PlayStep(g, s.streams, op, r, t.disk, t.streams, t.room)
    case Reposition(i, ofs) =>
      if i >= |s.streams| then r == Reply(InvalidObject, 0, []) && t == s
      else
        && SameNames(s.table, t.table) && t.chain == s.chain && |t.streams| == |s.streams|
        && Moves(s.streams[i], ofs, r.res, t.streams[i], t.room)
        && t.streams == s.streams[i := t.streams[i]]
  }

  // The old contents of the clusters by which the directory was extended lead to no free cluster.
  ghost predicate SafeCall(g: Layout, s: Moment, t: Moment) {
    StretchSafe(g, s.fat, s.sectors, s.chain, t.chain)
  }

  // The new file objects of a run are fresh ones.
  twostate predicate Opened(files: seq<File>, new more: seq<File>) {
    && |files| <= |more| && more[..|files|] == files
    && forall j :: |files| <= j < |more| ==> fresh(more[j]) && fresh(more[j].buf)
  }

  predicate AllSeeking(files: seq<File>) {
    forall j :: 0 <= j < |files| ==> files[j].seeking
  }

  lemma SessionIsListing(fs: Volume, dj: Dir, cs: seq<dword>, files: seq<File>)
    requires Session(fs, dj, cs, files)
    ensures dj.fs == fs && fs.Valid() && Listing(dj, cs) && |fs.fat| == fs.g.nFatent >= 2
  {
    hide *;
    SessionFacts(fs, dj, cs, files);
    TableReadyFacts(dj, cs);
    TableValues(dj, cs);
  }

  // Carry out one call.
  method Act(fs: Volume, dj: Dir, files: seq<File>, c: Call, up: word -> word, ghost cs: seq<dword>)
    returns (r: Reply, more: seq<File>, ghost ds: seq<dword>)
    requires Session(fs, dj, cs, files) && AllSeeking(files) && IsCall(c) && UpperCases(up)
    modifies dj`index, dj`clust, dj`sect, dj`off, fs, fs.win, fs.disk
    modifies set i | 0 <= i < |files| :: files[i]
    modifies set i | 0 <= i < |files| :: files[i].buf
    ensures Session(fs, dj, ds, more) && AllSeeking(more) && Opened(files, more)
    ensures old(dj.fs.Valid() && Listing(dj, cs)) && dj.fs.Valid() && Listing(dj, ds)
    ensures Follows(fs.g, old(MomentOf(fs, dj, cs, files)), c, r, MomentOf(fs, dj, ds, more), up)
    ensures old(SavedOn(files, fs.view)) ==> SavedOn(more, fs.view)
    ensures InOrder(fs.g, fs.steps) <==>
              InOrder(fs.g, old(fs.steps))
                && SafeCall(fs.g, old(MomentOf(fs, dj, cs, files)), MomentOf(fs, dj, ds, more))
    ensures old(fs.disk.log) <= fs.disk.log && old(fs.steps) <= fs.steps
  {
    hide Session, InOrder, Listing, EntriesOf, Volume.Valid, Creates, SameNames, Moves, HasRoom, StretchSafe;
    hide IsRequest, UpperCases, Sensible, PlayStep, IsNew, SavedOn;
    SessionIsListing(fs, dj, cs, files);
    NotLengthened(fs.g, fs.fat, fs.view, cs);
    more, ds := files, cs;
    ghost var steps := fs.steps;
    match c {
      case Create(q, time, forReading, forWriting) =>
        var res;
        res, more, ds := CreateFile(fs, dj, files, q, up, time, true, forReading, forWriting, cs);
        r := Reply(res, 0, []);
      case Use(op) =>
        if op.file >= |files| { return Reply(InvalidObject, 0, []), more, ds; }
        r := UseInSession(fs, dj, files, op, cs);
        SessionIsListing(fs, dj, cs, files);
      case Reposition(i, ofs) =>
        if i >= |files| { return Reply(InvalidObject, 0, []), more, ds; }
        var res := SeekInSession(fs, dj, files, i, ofs, cs);
        SessionIsListing(fs, dj, cs, files);
        r := Reply(res, 0, []);
    }
    if InOrder(fs.g, fs.steps) { PrefixIsSafe(fs.g, steps, fs.steps); }
  }

  // The moments of a run, from before the first call to behind the last.
  ghost predicate History(g: Layout, ms: seq<Moment>, calls: seq<Call>, rs: seq<Reply>, up: word -> word) {
    && |ms| == |calls| + 1 && |rs| == |calls|
    && forall k :: 0 <= k < |calls| ==> Follows(g, ms[k], calls[k], rs[k], ms[k + 1], up)
  }

  // The volume holds all files, as they are, that have nothing left to be written.
  ghost predicate AllStored(g: Layout, m: Moment) {
    forall j :: 0 <= j < |m.streams| && !m.streams[j].unsaved ==> Stored(g, m.sectors, m.streams[j])
  }

  ghost predicate StoredThroughout(g: Layout, ms: seq<Moment>) {
    forall k :: 0 <= k < |ms| ==> AllStored(g, ms[k])
  }

  lemma SavedIsStored(fs: Volume, dj: Dir, cs: seq<dword>, files: seq<File>)
    requires Session(fs, dj, cs, files) && SavedOn(files, fs.view)
    ensures dj.fs.Valid() && Listing(dj, cs)
    ensures AllStored(fs.g, MomentOf(fs, dj, cs, files))
  {
    hide Session, Together, SavedOn, Stored, RecordedOn, EntriesOf, Listing, Volume.Valid, HasRoom;
    SessionFacts(fs, dj, cs, files);
    SessionIsListing(fs, dj, cs, files);
    AllSaved(files, fs.view);
    SameVolume(fs, files);
    SavedAreStored(fs, files);
  }

  lemma SameVolume(fs: Volume, files: seq<File>)
    requires Together(fs, files)
    ensures forall j :: 0 <= j < |files| ==> files[j].fs == fs
  {
    hide File.Valid, File.Listed, Volume.Valid, FreeIsUnused, HasOne, Unshared;
  }

  ghost predicate SafeRun(g: Layout, ms: seq<Moment>) {
    forall k :: 0 <= k < |ms| - 1 ==> SafeCall(g, ms[k], ms[k + 1])
  }

  lemma RunContinues(g: Layout, m: Moment, c: Call, r: Reply, ms: seq<Moment>, calls: seq<Call>, rs: seq<Reply>,
                     up: word -> word)
    requires History(g, ms, calls, rs, up) && Follows(g, m, c, r, ms[0], up)
    ensures History(g, [m] + ms, [c] + calls, [r] + rs, up)
    ensures SafeRun(g, [m] + ms) <==> SafeCall(g, m, ms[0]) && SafeRun(g, ms)
    ensures AllStored(g, m) && StoredThroughout(g, ms) ==> StoredThroughout(g, [m] + ms)
    ensures |ms| == |calls| + 1
  {
    hide Follows, SafeCall, AllStored;
    assert ([m] + ms)[0] == m;
    forall k | 0 <= k < |ms|
      ensures ([m] + ms)[k + 1] == ms[k] && (k < |calls| ==> ([c] + calls)[k + 1] == calls[k])
      ensures k < |rs| ==> ([r] + rs)[k + 1] == rs[k]
    {
    }
    if SafeRun(g, [m] + ms) {
      assert SafeCall(g, ([m] + ms)[0], ([m] + ms)[0 + 1]);
      forall k | 0 <= k < |ms| - 1
        ensures SafeCall(g, ms[k], ms[k + 1])
      {
        assert SafeCall(g, ([m] + ms)[k + 1], ([m] + ms)[k + 1 + 1]);
      }
    }
  }

  lemma NothingCalled(g: Layout, m: Moment, up: word -> word)
    ensures History(g, [m], [], [], up) && SafeRun(g, [m])
    ensures AllStored(g, m) ==> StoredThroughout(g, [m])
  {
  }

  // Every run of calls in a session answers like independent byte streams and a table of unique names, with one file
  // more for each that is created. The steps are safe exactly if the extensions of the directory are.
  method RunCalls(fs: Volume, dj: Dir, files: seq<File>, calls: seq<Call>, up: word -> word, ghost cs: seq<dword>)
    returns (rs: seq<Reply>, more: seq<File>, ghost ms: seq<Moment>, ghost ds: seq<dword>)
    requires Session(fs, dj, cs, files) && AllSeeking(files) && UpperCases(up)
    requires AreCalls(calls)
    modifies dj`index, dj`clust, dj`sect, dj`off, fs, fs.win, fs.disk
    modifies set i | 0 <= i < |files| :: files[i]
    modifies set i | 0 <= i < |files| :: files[i].buf
    ensures Session(fs, dj, ds, more) && AllSeeking(more) && Opened(files, more)
    ensures old(dj.fs.Valid() && Listing(dj, cs)) && dj.fs.Valid() && Listing(dj, ds)
    ensures History(fs.g, ms, calls, rs, up)
    ensures ms[0] == old(MomentOf(fs, dj, cs, files)) && ms[|calls|] == MomentOf(fs, dj, ds, more)
    ensures old(SavedOn(files, fs.view)) ==> SavedOn(more, fs.view) && StoredThroughout(fs.g, ms)
    ensures InOrder(fs.g, fs.steps) <==> InOrder(fs.g, old(fs.steps)) && SafeRun(fs.g, ms)
    ensures old(fs.disk.log) <= fs.disk.log && old(fs.steps) <= fs.steps
    decreases |calls|
  {
    hide Session, InOrder, Listing, Volume.Valid, Follows, IsCall, UpperCases, SafeCall, MomentOf, AllSeeking;
    hide SavedOn, AllStored, StoredThroughout, SafeRun, History, AreCalls;
    SessionIsListing(fs, dj, cs, files);
    if SavedOn(files, fs.view) { SavedIsStored(fs, dj, cs, files); }
    if calls == [] {
      rs, more, ms, ds := [], files, [MomentOf(fs, dj, cs, files)], cs;
      NothingCalled(fs.g, ms[0], up);
    } else {
      ghost var m := MomentOf(fs, dj, cs, files);
      var r, now;
      ghost var es;
      FirstCall(calls);
      r, now, es := Act(fs, dj, files, calls[0], up, cs);
      rs, more, ms, ds := RunCalls(fs, dj, now, calls[1..], up, es);
      RunContinues(fs.g, m, calls[0], r, ms, calls[1..], rs, up);
      rs, ms := [r] + rs, [m] + ms;
    }
  }

  lemma NoFileOpen(fs: Volume, dj: Dir, cs: seq<dword>)
    requires dj.fs.Valid() && Listing(dj, cs)
    ensures AllSeeking([]) && SavedOn([], fs.view) && MomentOf(fs, dj, cs, []).streams == []
    ensures MomentOf(fs, dj, cs, []).sectors == fs.view
    ensures MomentOf(fs, dj, cs, []).table == EntriesOf(dj, cs)
  {
  }

  // From a mount on. Every image that reaches the disk is safe if the extensions of the directory are.
  method MountAndRun(d: Disk, sclust: dword, calls: seq<Call>, up: word -> word, ghost dirs: set<nat>,
                     ghost cs: seq<dword>)
    returns (fs: Volume, dj: Dir, files: seq<File>, rs: seq<Reply>, ghost ms: seq<Moment>, ghost ds: seq<dword>)
    requires var r := MountOutcome(d.sectors); r.Mounted? && Mountable(r.layout, d.sectors, dirs, sclust, cs)
    requires UpperCases(up) && AreCalls(calls)
    modifies d
    ensures fresh(fs) && fs.disk == d && fs.g == MountOutcome(old(d.sectors)).layout && Session(fs, dj, ds, files)
    ensures History(fs.g, ms, calls, rs, up) && ms[0].streams == [] && ms[0].sectors == old(d.sectors)
    ensures dj.sclust == sclust && dj.fs == fs && fs.Valid()
    ensures var g := fs.g;
            && g.Checked(|old(d.sectors)|) && Proper(g, cs) && (g.fsType == Fat32 ==> cs != [])
            && ms[0].table == DirTables.Table(g, old(d.sectors), cs)
    ensures dj.fs.Valid() && Listing(dj, ds) && ms[|calls|] == MomentOf(fs, dj, ds, files)
    ensures SavedOn(files, fs.view) && StoredThroughout(fs.g, ms)
    ensures InOrder(fs.g, fs.steps) <==> SafeRun(fs.g, ms)
    ensures SafeRun(fs.g, ms) ==> ImagesSafe(fs.g, d.log, 0, dirs)
  {
    hide *;
    fs, dj := StartSession(d, sclust, dirs, cs);
    NoFileOpen(fs, dj, cs);
    rs, files, ms, ds := RunCalls(fs, dj, [], calls, up, cs);
    SessionIsListing(fs, dj, ds, files);
    if SafeRun(fs.g, ms) {
      LoggedAreSafe(fs, 0, dirs);
    }
  }
}
