/**
 Any number of files open on one volume: whatever is done to one of them, the others keep
 their contents, and every run of operations behaves like one on independent byte streams.
*/
module OpenFiles {
  import opened Bytes
  import opened Geometry
  import opened DiskIO
  import opened FatMap
  import opened WriteBehind
  import opened Volumes
  import opened Entries
  import opened FileMap
  import opened FileGrowth
  import opened Files
  import opened Ordering
  import Chains

  // Two file objects share nothing but the volume.
  ghost predicate Unshared(a: File, b: File)
    reads a, b
  {
    a != b && a.fs == b.fs && a.buf != b.buf && Separate(a.chain, b.chain)
  }

  // The open files of a volume whose FAT has no invalid entries.
  ghost predicate Together(fs: Volume, files: seq<File>)
    reads fs, fs.win, fs.disk, set i | 0 <= i < |files| :: files[i], set i | 0 <= i < |files| :: files[i].buf
  {
    && fs.Valid() && FreeIsUnused(fs.g, fs.fat, fs.meta) && !HasOne(fs.fat)
    && (forall i :: 0 <= i < |files| ==> files[i].fs == fs && files[i].Valid() && files[i].Listed())
    && (forall i, j :: 0 <= i < |files| && 0 <= j < |files| && i != j ==> Unshared(files[i], files[j]))
  }

  // What a file is to its user: contents, pointer and flags, whether something is left to be written, and sector and
  // slot of its directory entry.
  datatype Stream = Stream(contents: seq<byte>, pos: nat, error: bool, canRead: bool, canWrite: bool, unsaved: bool,
                           sect: nat, slot: nat)

  // The image holds the stream: its directory entry names a chain of the image's FAT that holds the contents.
  ghost predicate StoredAs(g: Layout, img: seq<Sector>, s: Stream, cs: seq<dword>) {
    && g.Checked(|img|) && s.sect < |img| && s.slot < 16 && Proper(g, cs) && |s.contents| <= 512 * Capacity(g, cs)
    && var e := SlotAt(img[s.sect], s.slot);
       && FileSize(e) == |s.contents| && ChainFrom(g, FatOf(g, img), StartCluster(e), cs)
       && Data(g, img, cs, |s.contents|) == s.contents
  }

  ghost predicate Stored(g: Layout, img: seq<Sector>, s: Stream) {
    exists cs :: StoredAs(g, img, s, cs)
  }

  datatype FileOp =
    | Read(file: nat, count: dword)
    | Write(file: nat, data: seq<byte>)
    | Synchronize(file: nat, time: dword)

  datatype Reply = Reply(res: FResult, n: nat, data: seq<byte>)

  ghost predicate Sensible(s: Stream) {
    s.pos <= |s.contents|
  }

  // What an operation on one stream may answer, if `room` says that some cluster is free afterwards, and img is the
  // disk then.
  ghost predicate Answers(g: Layout, s: Stream, op: FileOp, r: Reply, room: bool, img: seq<Sector>)
    requires Sensible(s)
  {
    match op
    case Read(_, count) =>
      && r.res == (if s.error then IntErr else if !s.canRead then Denied else Ok)
      && r.n == (if r.res != Ok then 0 else if count > |s.contents| - s.pos then |s.contents| - s.pos else count)
      && r.data == s.contents[s.pos..s.pos + r.n]
    case Write(_, data) =>
      && r.res == (if s.error then IntErr else if !s.canWrite then Denied else Ok)
      && r.n <= |data| && (r.res != Ok ==> r.n == 0)
      && (|s.contents| + |data| >= 0x1_0000_0000 ==> r.n == 0)
      && (room && r.res == Ok && |s.contents| + |data| < 0x1_0000_0000 ==> r.n == |data|)
    case Synchronize(_, _) =>
      r.res == Ok && r.n == 0 && (s.unsaved ==> Stored(g, img, s))
  }

  // The stream after an operation that transferred n bytes.
  function After(s: Stream, op: FileOp, n: nat): (t: Stream)
    requires s.pos <= |s.contents| && (op.Write? ==> n <= |op.data|) && (op.Read? ==> s.pos + n <= |s.contents|)
    ensures t.pos <= |t.contents|
  {
    match op
    case Read(_, _) => s.(pos := s.pos + n)
    case Write(_, data) =>
      if s.error || !s.canWrite then s
      else s.(contents := Patch(s.contents, s.pos, data[..n]), pos := s.pos + n, unsaved := true)
    case Synchronize(_, _) => s.(unsaved := false)
  }

  ghost function StreamOf(f: File): Stream
    reads f
  {
    Stream(f.contents, f.fptr, f.error, f.canRead, f.canWrite, f.written, f.dirSect, f.dirSlot)
  }

  // All files but the i-th, on a volume with FAT f, sectors v, window sector and metadata, and apart from chain cs.
  ghost predicate Aside(fs: Volume, files: seq<File>, i: nat, f: seq<nat>, v: seq<Sector>, winsect: nat,
                        meta: set<nat>, cs: seq<dword>)
    reads set j | 0 <= j < |files| && j != i :: files[j], set j | 0 <= j < |files| && j != i :: files[j].buf
  {
    && (forall j :: 0 <= j < |files| && j != i ==>
          && files[j].fs == fs && files[j].dirSlot < 16 && files[j].dirSect in meta && !fs.g.InFats(files[j].dirSect)
          && files[j].Stands(f, v, winsect, meta) && Separate(files[j].chain, cs) && Separate(cs, files[j].chain))
    && (forall j, k :: 0 <= j < |files| && 0 <= k < |files| && j != k && j != i && k != i ==>
         Separate(files[j].chain, files[k].chain))
  }

  // All of them are different objects.
  predicate Distinct(files: seq<File>) {
    forall j, k :: 0 <= j < |files| && 0 <= k < |files| && j != k ==>
      files[j] != files[k] && files[j].buf != files[k].buf
  }

  lemma SetAside(fs: Volume, files: seq<File>, i: nat)
    requires Together(fs, files) && i < |files|
    ensures Aside(fs, files, i, fs.fat, fs.view, fs.winsect, fs.meta, files[i].chain) && Distinct(files)
    ensures files[i].Valid() && files[i].Listed() && files[i].fs == fs && FreeIsUnused(fs.g, fs.fat, fs.meta)
    ensures !HasOne(fs.fat)
    ensures files[i].dirSlot < 16 && files[i].dirSect in fs.meta && !fs.g.InFats(files[i].dirSect)
    ensures files[i].buf.Length == 512 && forall j :: 0 <= j < |files| ==> files[j].fs == fs && files[j].buf != fs.win
  {
    forall j | 0 <= j < |files|
      ensures files[j].Stands(fs.fat, fs.view, fs.winsect, fs.meta)
    {
      files[j].ValidStands();
    }
    hide File.Stands, File.Valid;
  }

  // Separation is symmetric.
  lemma SeparateBoth(cs: seq<dword>, ds: seq<dword>)
    ensures Separate(cs, ds) <==> Separate(ds, cs)
  {
  }

  // File i after a transfer, with all others as they were.
  lemma Rejoin(fs: Volume, files: seq<File>, i: nat, f: seq<nat>, v: seq<Sector>, before: nat, cs: seq<dword>)
    requires i < |files| && files[i].fs == fs && files[i].Valid() && Distinct(files)
    requires files[i].dirSlot < 16 && files[i].dirSect in fs.meta && !fs.g.InFats(files[i].dirSect)
    requires FreeIsUnused(fs.g, fs.fat, fs.meta) && !HasOne(f) && fs.g.nFatent >= 2
    requires Grown(f, fs.fat, cs, files[i].chain) && OnlyIn(fs.g, files[i].chain, v, fs.view)
    requires fs.winsect == before || fs.g.InFat(fs.winsect)
    requires Aside(fs, files, i, f, v, before, fs.meta, cs)
    ensures Together(fs, files)
  {
    hide File.Valid, File.Stands, Volume.Valid, FreeIsUnused, HasOne, Grown, OnlyIn, File.Listed;
    files[i].ValidStands();
    files[i].StillListed();
    if HasOne(fs.fat) {
      files[i].NoNewOne(f, cs);
    }
    forall j | 0 <= j < |files| && j != i
      ensures files[j].Valid() && files[j].Listed() && Separate(files[j].chain, files[i].chain)
      ensures Separate(files[i].chain, files[j].chain)
    {
      files[j].OtherTransferred(f, v, before, cs, files[i].chain);
      SeparateBoth(files[j].chain, files[i].chain);
      files[j].StillListed();
    }
  }

  // Some cluster is free.
  ghost predicate HasRoom(fs: Volume)
    reads fs`fat
  {
    !NoneFree(fs.fat)
  }

  // Growing files leaves no more room than before.
  lemma RoomShrinks(f: File, h: seq<nat>, cs: seq<dword>)
    requires f.Valid() && Grown(h, f.fs.fat, cs, f.chain)
    ensures HasRoom(f.fs) ==> !NoneFree(h)
  {
    ChainInUse(f);
    hide File.Valid;
    forall c | 2 <= c < |f.fs.fat| && NoneFree(h)
      ensures f.fs.fat[c] != 0
    {
      if forall i :: 0 <= i < |f.chain| ==> f.chain[i] != c {
        assert f.fs.fat[c] == h[c];
      }
    }
  }

  lemma ChainInUse(f: File)
    requires f.Valid()
    ensures forall i :: 0 <= i < |f.chain| ==> f.chain[i] < |f.fs.fat| && f.fs.fat[f.chain[i]] != 0
  {
    forall i | 0 <= i < |f.chain|
      ensures f.chain[i] < |f.fs.fat| && f.fs.fat[f.chain[i]] != 0
    {
      Chains.ChainEntries(f.fs.fat, f.chain, i);
    }
  }

  // Of the metadata outside the FAT, only the directory entry in slot o of sector t may have been changed, to record
  // another size, start cluster and time.
  ghost predicate EntryTouched(g: Layout, m: set<nat>, v: seq<Sector>, w: seq<Sector>, t: nat, o: nat) {
    && |w| == |v| && t < |v| && o < 16
    && (forall s :: s in m && s < |v| && !g.InFats(s) && s != t ==> w[s] == v[s])
    && (w[t] == v[t] || exists size, c, time :: w[t] == WithSlot(v[t], o, Synced(SlotAt(v[t], o), size, c, time)))
  }

  // A transfer touches no directory entry.
  lemma EntriesKept(f: File, v: seq<Sector>)
    requires f.Valid() && OnlyIn(f.fs.g, f.chain, v, f.fs.view)
    requires f.dirSlot < 16 && f.dirSect in f.fs.meta && !f.fs.g.InFats(f.dirSect)
    ensures f.fs.g.nFatent >= 2 && EntryTouched(f.fs.g, f.fs.meta, v, f.fs.view, f.dirSect, f.dirSlot)
  {
    hide FatOf, FatMap.Entry, Chronicle, Agrees, Store, Backed, Content;
  }

  // A sync touches the file's own.
  lemma EntrySynced(f: File, v: seq<Sector>, synced: bool, time: dword)
    requires f.Valid() && f.fs.g.nFatent >= 2 && SyncOnly(f.fs.g, f.chain, f.dirSect, v, f.fs.view)
    requires f.dirSlot < 16 && f.dirSect in f.fs.meta && !f.fs.g.InFats(f.dirSect) && f.dirSect < |v| == |f.fs.view|
    requires if synced then f.fs.view[f.dirSect] == WithSlot(v[f.dirSect], f.dirSlot,
               Synced(SlotAt(v[f.dirSect], f.dirSlot), f.fsize, f.sclust, time))
             else f.fs.view == v
    ensures EntryTouched(f.fs.g, f.fs.meta, v, f.fs.view, f.dirSect, f.dirSlot)
  {
    hide FatOf, FatMap.Entry, Chronicle, Agrees, Store, Backed, Content, Synced, WithSlot;
  }

  // ----- what is recorded stays recorded

  // On the sectors v, the directory entry names chain and size of the file, and nothing is left to be written.
  ghost predicate RecordedOn(f: File, v: seq<Sector>)
    reads f
  {
    !f.written && !f.dirty && EntryNames(v, f.dirSect, f.dirSlot, f.sclust, f.fsize)
  }

  // Slot o of sector s names the start cluster c and the size.
  ghost predicate EntryNames(v: seq<Sector>, s: nat, o: nat, c: dword, size: dword) {
    o < 16 && s < |v| && StartCluster(SlotAt(v[s], o)) == c && FileSize(SlotAt(v[s], o)) == size
  }

  ghost predicate Recorded(f: File)
    reads f, f.fs`view
  {
    RecordedOn(f, f.fs.view)
  }

  // With a clean window, such a file is on the disk.
  lemma RecordedIsDurable(f: File)
    requires f.Valid() && f.Listed() && Recorded(f) && !f.fs.wflag
    ensures f.Durable()
  {
    hide FatMap.Entry, Chronicle, Agrees, Store;
  }

  lemma DurableIsRecorded(f: File)
    requires f.Durable() && !f.written && !f.dirty && f.fs.disk.sectors == f.fs.view
    ensures Recorded(f)
  {
    hide FatOf, Data, Proper, ChainFrom;
  }

  lemma DurableIsStored(f: File, s: Stream)
    requires f.Valid() && f.Durable() && s.contents == f.contents && s.sect == f.dirSect && s.slot == f.dirSlot
    ensures Stored(f.fs.g, f.fs.disk.sectors, s)
  {
    hide FatOf, Data, Proper, ChainFrom, FatMap.Entry, Chronicle, Agrees, Store, Fit, Tracking;
    assert StoredAs(f.fs.g, f.fs.disk.sectors, s, f.chain);
  }

  // If nothing is left to be written then the directory entry records the file.
  ghost predicate Tidy(f: File)
    reads f, f.fs`view
  {
    !f.written ==> Recorded(f)
  }

  // Then the volume, as the file system sees it, holds the file.
  lemma TidyIsStored(f: File)
    requires f.Valid() && f.Listed() && Tidy(f) && !f.written
    ensures Stored(f.fs.g, f.fs.view, StreamOf(f))
  {
    hide FatMap.Entry, Chronicle, Agrees, Store, Data, SlotAt;
    assert StoredAs(f.fs.g, f.fs.view, StreamOf(f), f.chain);
  }

  // The entry of a file does not lie in its own clusters.
  lemma EntryStays(f: File, v: seq<Sector>)
    requires f.Valid() && OnlyIn(f.fs.g, f.chain, v, f.fs.view)
    requires f.dirSect in f.fs.meta && !f.fs.g.InFats(f.dirSect)
    ensures |v| == |f.fs.view| && (f.dirSect < |v| ==> f.fs.view[f.dirSect] == v[f.dirSect])
  {
    hide FatOf, FatMap.Entry, Chronicle, Agrees, Store, Backed, Content;
  }

  // A transfer does not touch what the entry records.
  lemma StillRecorded(f: File, v: seq<Sector>)
    requires f.Valid() && OnlyIn(f.fs.g, f.chain, v, f.fs.view) && RecordedOn(f, v)
    requires f.dirSect in f.fs.meta && !f.fs.g.InFats(f.dirSect)
    ensures Recorded(f)
  {
    hide OnlyIn, File.Valid;
    EntryStays(f, v);
  }

  // Different files have different directory entries.
  predicate OwnEntries(files: seq<File>) {
    forall i, j :: 0 <= i < |files| && 0 <= j < |files| && i != j ==>
      files[i].dirSect != files[j].dirSect || files[i].dirSlot != files[j].dirSlot
  }

  lemma OtherEntryKept(g: Layout, m: set<nat>, v: seq<Sector>, w: seq<Sector>, t: nat, o: nat, s: nat, p: nat)
    requires EntryTouched(g, m, v, w, t, o) && s in m && !g.InFats(s) && s < |v| && p < 16 && (s != t || p != o)
    ensures SlotAt(w[s], p) == SlotAt(v[s], p)
  {
    hide Synced, WithSlot, SlotAt;
    if s == t && w[t] != v[t] {
      var size, c, time :| w[t] == WithSlot(v[t], o, Synced(SlotAt(v[t], o), size, c, time));
      WithSlotAt(v[t], o, Synced(SlotAt(v[t], o), size, c, time), p);
    }
  }

  lemma StaysRecorded(f: File, m: set<nat>, v: seq<Sector>, w: seq<Sector>, t: nat, o: nat)
    requires RecordedOn(f, v) && f.dirSect in m && !f.fs.g.InFats(f.dirSect)
    requires EntryTouched(f.fs.g, m, v, w, t, o) && (f.dirSect != t || f.dirSlot != o)
    ensures RecordedOn(f, w)
  {
    hide EntryTouched;
    TouchedSize(f.fs.g, m, v, w, t, o);
    OtherEntryKept(f.fs.g, m, v, w, t, o, f.dirSect, f.dirSlot);
  }

  lemma TouchedSize(g: Layout, m: set<nat>, v: seq<Sector>, w: seq<Sector>, t: nat, o: nat)
    requires EntryTouched(g, m, v, w, t, o)
    ensures |w| == |v|
  {
  }

  lemma SlotsListed(fs: Volume, files: seq<File>)
    requires Together(fs, files)
    ensures forall j :: 0 <= j < |files| ==>
              files[j].fs == fs && files[j].dirSect in fs.meta && !fs.g.InFats(files[j].dirSect)
  {
    hide File.Valid, Volume.Valid, FreeIsUnused, HasOne;
  }

  lemma ReadAnswer(g: Layout, s: Stream, t: Stream, i: nat, count: dword, res: FResult, data: seq<byte>, room: bool,
                   img: seq<Sector>)
    requires s.pos <= |s.contents| && t == s.(pos := s.pos + |data|)
    requires res == if s.error then IntErr else if !s.canRead then Denied else Ok
    requires |data| == if res != Ok then 0 else if count > |s.contents| - s.pos then |s.contents| - s.pos else count
    requires data == s.contents[s.pos..s.pos + |data|]
    ensures Sensible(s) && Answers(g, s, Read(i, count), Reply(res, |data|, data), room, img)
    ensures t == After(s, Read(i, count), |data|)
  {
  }

  // Read from a file, which is left tidy if it was.
  method ReadOne(f: File, i: nat, count: dword) returns (r: Reply)
    requires f.Valid() && f.dirSlot < 16 && f.dirSect in f.fs.meta && !f.fs.g.InFats(f.dirSect)
    modifies f`fptr, f`clust, f`dirty, f`dsect, f`dk, f`error, f.buf, f.fs`view, f.fs`winsect, f.fs`wflag, f.fs.win
    modifies f.fs.disk
    ensures f.Valid() && Sensible(old(StreamOf(f))) && (old(Tidy(f)) ==> Tidy(f))
    ensures Answers(f.fs.g, old(StreamOf(f)), Read(i, count), r, HasRoom(f.fs), f.fs.disk.sectors)
    ensures old(StreamOf(f)).pos + r.n <= |old(StreamOf(f)).contents|
    ensures StreamOf(f) == After(old(StreamOf(f)), Read(i, count), r.n)
    ensures f.fs.g.nFatent >= 2 && EntryTouched(f.fs.g, f.fs.meta, old(f.fs.view), f.fs.view, f.dirSect, f.dirSlot)
    ensures OnlyIn(f.fs.g, f.chain, old(f.fs.view), f.fs.view)
    ensures f.fs.winsect == old(f.fs.winsect) || f.fs.g.InFat(f.fs.winsect)
    ensures old(f.fs.disk.log) <= f.fs.disk.log
  {
    hide File.Valid, OnlyIn, EntryTouched, EntryNames, Answers, After, Sensible, HasRoom, Layout.InFat, Layout.InFats;
    f.ValidFacts();
    ghost var v, s := f.fs.view, StreamOf(f);
    var res, data := f.FRead(count);
    EntriesKept(f, v);
    if RecordedOn(f, v) { StillRecorded(f, v); }
    ReadAnswer(f.fs.g, s, StreamOf(f), i, count, res, data, HasRoom(f.fs), f.fs.disk.sectors);
    r := Reply(res, |data|, data);
  }

  // Read from the i-th file.
  method ReadFrom(fs: Volume, files: seq<File>, i: nat, count: dword) returns (r: Reply)
    requires Together(fs, files) && i < |files|
    modifies files[i], files[i].buf, fs, fs.win, fs.disk
    ensures Together(fs, files) && Sensible(old(StreamOf(files[i])))
    ensures Answers(fs.g, old(StreamOf(files[i])), Read(i, count), r, HasRoom(fs), fs.disk.sectors)
    ensures old(Tidy(files[i])) ==> Tidy(files[i])
    ensures old(StreamOf(files[i])).pos + r.n <= |old(StreamOf(files[i])).contents|
    ensures StreamOf(files[i]) == After(old(StreamOf(files[i])), Read(i, count), r.n)
    ensures forall j :: 0 <= j < |files| && j != i ==> StreamOf(files[j]) == old(StreamOf(files[j]))
    ensures HasRoom(fs) ==> old(HasRoom(fs))
    ensures InOrder(fs.g, old(fs.steps)) ==> InOrder(fs.g, fs.steps)
    ensures fs.meta == old(fs.meta) && Grown(old(fs.fat), fs.fat, old(files[i].chain), files[i].chain)
    ensures fs.g.nFatent >= 2 && EntryTouched(fs.g, fs.meta, old(fs.view), fs.view, files[i].dirSect, files[i].dirSlot)
    ensures old(fs.disk.log) <= fs.disk.log && old(fs.steps) <= fs.steps
  {
    hide File.Valid, File.Stands, Volume.Valid, FreeIsUnused, HasOne, Grown, OnlyIn, Together, Aside, InOrder;
    hide File.Listed, EntryTouched, NoneFree, RecordedOn, Recorded, Tidy, Answers, After, Sensible, HasRoom;
    hide Layout.InFat, Layout.InFats;
    SetAside(fs, files, i);
    files[i].ValidFacts();
    ghost var f, v, before, cs := fs.fat, fs.view, fs.winsect, files[i].chain;
    NothingGrown(f, cs);
    r := ReadOne(files[i], i, count);
    Rejoin(fs, files, i, f, v, before, cs);
  }

  lemma WriteAnswer(g: Layout, s: Stream, t: Stream, i: nat, data: seq<byte>, res: FResult, bw: nat, room: bool,
                    img: seq<Sector>)
    requires s.pos <= |s.contents| && bw <= |data| && |data| < 0x1_0000_0000
    requires res == if s.error then IntErr else if !s.canWrite then Denied else Ok
    requires |s.contents| + |data| >= 0x1_0000_0000 ==> bw == 0
    requires room && res == Ok && |s.contents| + |data| < 0x1_0000_0000 ==> bw == |data|
    requires if res == Ok
             then t == s.(contents := Patch(s.contents, s.pos, data[..bw]), pos := s.pos + bw, unsaved := true)
             else bw == 0 && t == s
    ensures Sensible(s) && Answers(g, s, Write(i, data), Reply(res, bw, []), room, img)
    ensures t == After(s, Write(i, data), bw)
  {
  }

  lemma FullHasNoRoom(f: File)
    ensures f.Full() ==> !HasRoom(f.fs)
  {
  }

  // Write to the i-th file.
  method WriteTo(fs: Volume, files: seq<File>, i: nat, data: seq<byte>) returns (r: Reply)
    requires Together(fs, files) && i < |files| && |data| < 0x1_0000_0000
    modifies files[i], files[i].buf, fs, fs.win, fs.disk
    ensures Together(fs, files) && Sensible(old(StreamOf(files[i])))
    ensures Answers(fs.g, old(StreamOf(files[i])), Write(i, data), r, HasRoom(fs), fs.disk.sectors)
    ensures old(Tidy(files[i])) ==> Tidy(files[i])
    ensures StreamOf(files[i]) == After(old(StreamOf(files[i])), Write(i, data), r.n)
    ensures forall j :: 0 <= j < |files| && j != i ==> StreamOf(files[j]) == old(StreamOf(files[j]))
    ensures HasRoom(fs) ==> old(HasRoom(fs))
    ensures InOrder(fs.g, old(fs.steps)) ==> InOrder(fs.g, fs.steps)
    ensures fs.meta == old(fs.meta) && Grown(old(fs.fat), fs.fat, old(files[i].chain), files[i].chain)
    ensures fs.g.nFatent >= 2 && EntryTouched(fs.g, fs.meta, old(fs.view), fs.view, files[i].dirSect, files[i].dirSlot)
    ensures old(fs.disk.log) <= fs.disk.log && old(fs.steps) <= fs.steps
  {
    hide File.Valid, File.Stands, Volume.Valid, FreeIsUnused, HasOne, Grown, OnlyIn, Together, Aside, InOrder;
    hide File.Listed, NoneFree, Patch;
    hide Answers, After, Sensible, Max, File.Full, EntryNames;
    SetAside(fs, files, i);
    files[i].ValidFacts();
    ghost var f, v, before, cs := fs.fat, fs.view, fs.winsect, files[i].chain;
    NothingGrown(f, cs);
    NothingChanged(fs.g, cs, v);
    ghost var s := StreamOf(files[i]);
    var res, bw := files[i].FWrite(data);
    RoomShrinks(files[i], f, cs);
    EntriesKept(files[i], v);
    Rejoin(fs, files, i, f, v, before, cs);
    FullHasNoRoom(files[i]);
    WriteAnswer(fs.g, s, StreamOf(files[i]), i, data, res, bw, HasRoom(fs), fs.disk.sectors);
    if RecordedOn(files[i], v) { StillRecorded(files[i], v); }
    r := Reply(res, bw, []);
  }

  // Synchronize the i-th file.
  method SynchronizeIt(fs: Volume, files: seq<File>, i: nat, time: dword) returns (r: Reply)
    requires Together(fs, files) && i < |files|
    modifies files[i], files[i].buf, fs, fs.win, fs.disk
    ensures Together(fs, files) && Sensible(old(StreamOf(files[i])))
    ensures Answers(fs.g, old(StreamOf(files[i])), Synchronize(i, time), r, HasRoom(fs), fs.disk.sectors)
    ensures old(Tidy(files[i])) ==> Tidy(files[i])
    ensures StreamOf(files[i]) == After(old(StreamOf(files[i])), Synchronize(i, time), r.n)
    ensures forall j :: 0 <= j < |files| && j != i ==> StreamOf(files[j]) == old(StreamOf(files[j]))
    ensures HasRoom(fs) ==> old(HasRoom(fs))
    ensures old(files[i].written) ==> files[i].Durable() && Recorded(files[i])
    ensures InOrder(fs.g, old(fs.steps)) ==> InOrder(fs.g, fs.steps)
    ensures fs.meta == old(fs.meta) && Grown(old(fs.fat), fs.fat, old(files[i].chain), files[i].chain)
    ensures fs.g.nFatent >= 2 && EntryTouched(fs.g, fs.meta, old(fs.view), fs.view, files[i].dirSect, files[i].dirSlot)
    ensures old(fs.disk.log) <= fs.disk.log && old(fs.steps) <= fs.steps
  {
    hide File.Valid, File.Stands, Volume.Valid, FreeIsUnused, HasOne, Together, Aside, InOrder, File.Listed, SyncOnly;
    hide File.Durable, EntryTouched, Grown, EntryNames, Synced, WithSlot, NoneFree, Stored;
    SetAside(fs, files, i);
    files[i].ValidFacts();
    ghost var v, before := fs.view, fs.winsect;
    NothingGrown(fs.fat, files[i].chain);
    ghost var synced, s := files[i].written, StreamOf(files[i]);
    var res := files[i].FSync(time);
    EntrySynced(files[i], v, synced, time);
    if synced {
      DurableIsRecorded(files[i]);
      DurableIsStored(files[i], s);
    }
    RejoinSynced(fs, files, i, v, before);
    r := Reply(res, 0, []);
  }

  lemma RejoinSynced(fs: Volume, files: seq<File>, i: nat, v: seq<Sector>, before: nat)
    requires i < |files| && files[i].fs == fs && files[i].Valid() && Distinct(files)
    requires files[i].dirSlot < 16 && files[i].dirSect in fs.meta && !fs.g.InFats(files[i].dirSect)
    requires FreeIsUnused(fs.g, fs.fat, fs.meta) && !HasOne(fs.fat) && fs.g.nFatent >= 2
    requires SyncOnly(fs.g, files[i].chain, files[i].dirSect, v, fs.view)
    requires fs.winsect == before || fs.winsect == files[i].dirSect || fs.winsect == 0
    requires Aside(fs, files, i, fs.fat, v, before, fs.meta, files[i].chain)
    ensures Together(fs, files)
  {
    hide File.Valid, File.Stands, Volume.Valid, FreeIsUnused, HasOne, SyncOnly, File.Listed;
    files[i].ValidStands();
    files[i].StillListed();
    forall j | 0 <= j < |files| && j != i
      ensures files[j].Valid() && files[j].Listed()
    {
      files[j].OtherSynchronized(v, before, files[i].chain, files[i].dirSect);
      files[j].StillListed();
    }
  }

  // ----- runs

  ghost function StreamsOf(files: seq<File>): (ss: seq<Stream>)
    reads set i | 0 <= i < |files| :: files[i]
    ensures |ss| == |files| && forall i :: 0 <= i < |ss| ==> ss[i] == StreamOf(files[i])
  {
    seq(|files|, (i: nat) requires i < |files| reads set j | 0 <= j < |files| :: files[j] => StreamOf(files[i]))
  }

  // One operation of a run: the streams ss become ts, and the disk is img then.
  ghost predicate PlayStep(g: Layout, ss: seq<Stream>, op: FileOp, r: Reply, img: seq<Sector>, ts: seq<Stream>,
                           room: bool)
  {
    && op.file < |ss|
    && var s := ss[op.file];
       && Sensible(s) && Answers(g, s, op, r, room, img)
       && (op.Write? ==> r.n <= |op.data|) && (op.Read? ==> s.pos + r.n <= |s.contents|)
       && ts == ss[op.file := After(s, op, r.n)]
  }

  // The streams in the course of a run, answered by rs, with the disk as in imgs after the operations; `room` says that
  // some cluster is free in the end. Then every write was complete that kept its file below 4 GB.
  ghost predicate Plays(g: Layout, mss: seq<seq<Stream>>, ops: seq<FileOp>, rs: seq<Reply>, imgs: seq<seq<Sector>>,
                        room: bool)
  {
    && |mss| == |ops| + 1 && |rs| == |imgs| == |ops|
    && forall k :: 0 <= k < |ops| ==> PlayStep(g, mss[k], ops[k], rs[k], imgs[k], mss[k + 1], room)
  }

  // The k-th operation synchronizes file j while something is left to be written, and is the last one on it.
  ghost predicate SavesLast(mss: seq<seq<Stream>>, ops: seq<FileOp>, j: nat, k: nat) {
    && k < |ops| && k < |mss| && j < |mss[k]| && ops[k].Synchronize? && ops[k].file == j && mss[k][j].unsaved
    && Unused(ops[k + 1..], j)
  }

  // The disk was img at some time since the i-th entry of its log.
  ghost predicate InLog(log: seq<seq<Sector>>, i: int, img: seq<Sector>) {
    exists j :: 0 <= j < |log| && i <= j && log[j] == img
  }

  lemma DiskInLog(fs: Volume, i: nat)
    requires fs.Valid() && i <= |fs.disk.log|
    ensures InLog(fs.disk.log, i - 1, fs.disk.sectors)
  {
    assert fs.disk.log[|fs.disk.log| - 1] == fs.disk.sectors;
  }

  lemma StaysInLog(log: seq<seq<Sector>>, more: seq<seq<Sector>>, i: int, j: int, img: seq<Sector>)
    requires InLog(log, i, img) && log <= more && j <= i
    ensures InLog(more, j, img)
  {
    var k :| 0 <= k < |log| && i <= k && log[k] == img;
    assert more[k] == img;
  }

  // No operation uses file j.
  predicate Unused(ops: seq<FileOp>, j: nat) {
    forall k :: 0 <= k < |ops| ==> ops[k].file != j
  }

  method Perform(fs: Volume, files: seq<File>, op: FileOp) returns (r: Reply)
    requires Together(fs, files) && op.file < |files| && (op.Write? ==> |op.data| < 0x1_0000_0000)
    modifies files[op.file], files[op.file].buf, fs, fs.win, fs.disk
    ensures Together(fs, files)
    ensures PlayStep(fs.g, old(StreamsOf(files)), op, r, fs.disk.sectors, StreamsOf(files), HasRoom(fs))
    ensures InLog(fs.disk.log, |old(fs.disk.log)| - 1, fs.disk.sectors)
    ensures HasRoom(fs) ==> old(HasRoom(fs))
    ensures InOrder(fs.g, old(fs.steps)) ==> InOrder(fs.g, fs.steps)
    ensures fs.meta == old(fs.meta) && Grown(old(fs.fat), fs.fat, old(files[op.file].chain), files[op.file].chain)
    ensures fs.g.nFatent >= 2
    ensures EntryTouched(fs.g, fs.meta, old(fs.view), fs.view, files[op.file].dirSect, files[op.file].dirSlot)
    ensures op.Synchronize? && old(files[op.file].written) ==> Recorded(files[op.file])
    ensures OwnEntries(files) ==> forall j :: 0 <= j < |files| && j != op.file && old(Recorded(files[j])) ==>
              Recorded(files[j])
    ensures OwnEntries(files) ==> forall j :: 0 <= j < |files| && old(Tidy(files[j])) ==> Tidy(files[j])
    ensures old(fs.disk.log) <= fs.disk.log && old(fs.steps) <= fs.steps
  {
    hide Together, InOrder, File.Durable, HasRoom, RecordedOn, EntryTouched, Grown, InLog, File.Valid, Volume.Valid;
    hide File.Listed, Answers, After, Sensible, PlayStep;
    AreDistinct(fs, files);
    SlotsListed(fs, files);
    ghost var v, f, n, ss := fs.view, files[op.file], |fs.disk.log|, StreamsOf(files);
    match op {
      case Read(i, count) => r := ReadFrom(fs, files, i, count);
      case Write(i, data) => r := WriteTo(fs, files, i, data);
      case Synchronize(i, time) => r := SynchronizeIt(fs, files, i, time);
    }
    LoggedNow(fs, files, n);
    IsPlayStep(fs.g, ss, op, r, fs.disk.sectors, StreamsOf(files), HasRoom(fs));
    if OwnEntries(files) {
      forall j | 0 <= j < |files| && j != op.file && RecordedOn(files[j], v)
        ensures RecordedOn(files[j], fs.view)
      {
        StaysRecorded(files[j], fs.meta, v, fs.view, f.dirSect, f.dirSlot);
      }
    }
  }

  lemma IsPlayStep(g: Layout, ss: seq<Stream>, op: FileOp, r: Reply, img: seq<Sector>, ts: seq<Stream>, room: bool)
    requires |ts| == |ss| && op.file < |ss| && forall j :: 0 <= j < |ss| && j != op.file ==> ts[j] == ss[j]
    requires Sensible(ss[op.file]) && Answers(g, ss[op.file], op, r, room, img)
    requires op.Read? ==> ss[op.file].pos + r.n <= |ss[op.file].contents|
    requires (op.Write? ==> r.n <= |op.data|) ==> ts[op.file] == After(ss[op.file], op, r.n)
    ensures PlayStep(g, ss, op, r, img, ts, room)
  {
    hide Stored;
  }

  lemma AreDistinct(fs: Volume, files: seq<File>)
    requires Together(fs, files)
    ensures Distinct(files)
  {
    hide File.Valid, File.Listed, Volume.Valid, FreeIsUnused, HasOne, Separate;
  }

  lemma LoggedNow(fs: Volume, files: seq<File>, n: nat)
    requires Together(fs, files) && n <= |fs.disk.log|
    ensures InLog(fs.disk.log, n - 1, fs.disk.sectors)
  {
    hide File.Valid, File.Listed, FreeIsUnused, HasOne, Unshared, InLog, Volume.Valid;
    DiskInLog(fs, n);
  }

  lemma LessRoom(g: Layout, ss: seq<Stream>, op: FileOp, r: Reply, img: seq<Sector>, ts: seq<Stream>, before: bool,
                 after: bool)
    requires PlayStep(g, ss, op, r, img, ts, before) && (after ==> before)
    ensures PlayStep(g, ss, op, r, img, ts, after)
  {
  }

  // The run goes on from its first operation.
  lemma PlaysOn(g: Layout, ss: seq<Stream>, op: FileOp, r: Reply, img: seq<Sector>, mss: seq<seq<Stream>>,
                ops: seq<FileOp>, rs: seq<Reply>, imgs: seq<seq<Sector>>, room: bool)
    requires Plays(g, mss, ops, rs, imgs, room) && PlayStep(g, ss, op, r, img, mss[0], room)
    ensures Plays(g, [ss] + mss, [op] + ops, [r] + rs, [img] + imgs, room)
  {
    hide PlayStep;
    forall k | 0 <= k < |ops| + 1
      ensures PlayStep(g, ([ss] + mss)[k], ([op] + ops)[k], ([r] + rs)[k], ([img] + imgs)[k], ([ss] + mss)[k + 1], room)
    {
      if k > 0 {
        assert PlayStep(g, mss[k - 1], ops[k - 1], rs[k - 1], imgs[k - 1], mss[k - 1 + 1], room);
      }
    }
  }

  lemma SavesLater(ss: seq<Stream>, mss: seq<seq<Stream>>, ops: seq<FileOp>, j: nat, k: nat)
    requires ops != [] && SavesLast([ss] + mss, ops, j, k)
    ensures if k == 0 then Unused(ops[1..], j) && ops[0].Synchronize? && ops[0].file == j < |ss| && ss[j].unsaved
            else SavesLast(mss, ops[1..], j, k - 1)
  {
    if k > 0 {
      assert ops[1..][k..] == ops[k + 1..];
    }
  }

  lemma PlaysLengths(g: Layout, mss: seq<seq<Stream>>, ops: seq<FileOp>, rs: seq<Reply>, imgs: seq<seq<Sector>>,
                     room: bool)
    requires Plays(g, mss, ops, rs, imgs, room)
    ensures |mss| == |ops| + 1 && |rs| == |imgs| == |ops|
  {
  }

  lemma UnusedLater(ops: seq<FileOp>, j: nat)
    requires ops != [] && Unused(ops, j)
    ensures ops[0].file != j && Unused(ops[1..], j)
  {
  }

  lemma OneStep(g: Layout, ss: seq<Stream>, op: FileOp, r: Reply, img: seq<Sector>, ts: seq<Stream>, room: bool)
    requires PlayStep(g, ss, op, r, img, ts, room)
    ensures |ts| == |ss| && op.file < |ss| && (op.Synchronize? ==> !ts[op.file].unsaved)
    ensures forall j :: 0 <= j < |ss| && j != op.file ==> ts[j] == ss[j]
  {
  }

  lemma LaterImages(log: seq<seq<Sector>>, i: int, j: int, imgs: seq<seq<Sector>>)
    requires j <= i && forall k :: 0 <= k < |imgs| ==> InLog(log, i, imgs[k])
    ensures forall k :: 0 <= k < |imgs| ==> InLog(log, j, imgs[k])
  {
    hide InLog;
    forall k | 0 <= k < |imgs|
      ensures InLog(log, j, imgs[k])
    {
      StaysInLog(log, log, i, j, imgs[k]);
    }
  }

  // Every run of operations on files open together answers like independent byte streams would. A file that was
  // synchronized last has nothing left to be written, and its directory entry says so.
  method PerformEach(fs: Volume, files: seq<File>, ops: seq<FileOp>)
    returns (rs: seq<Reply>, ghost mss: seq<seq<Stream>>, ghost imgs: seq<seq<Sector>>)
    requires Together(fs, files)
    requires forall k :: 0 <= k < |ops| ==> ops[k].file < |files| && (ops[k].Write? ==> |ops[k].data| < 0x1_0000_0000)
    modifies set i | 0 <= i < |files| :: files[i]
    modifies set i | 0 <= i < |files| :: files[i].buf
    modifies fs, fs.win, fs.disk
    ensures Together(fs, files) && Plays(fs.g, mss, ops, rs, imgs, HasRoom(fs))
    ensures mss[0] == old(StreamsOf(files)) && mss[|ops|] == StreamsOf(files)
    ensures forall k :: 0 <= k < |ops| ==> InLog(fs.disk.log, |old(fs.disk.log)| - 1, imgs[k])
    ensures forall j, k :: 0 <= j < |files| && 0 <= k && SavesLast(mss, ops, j, k) ==>
              !files[j].written && (OwnEntries(files) ==> Recorded(files[j]))
    ensures forall j :: 0 <= j < |files| && Unused(ops, j) ==> files[j].written == old(files[j].written)
    ensures HasRoom(fs) ==> old(HasRoom(fs))
    ensures InOrder(fs.g, old(fs.steps)) ==> InOrder(fs.g, fs.steps)
    ensures OwnEntries(files) ==>
              forall j :: 0 <= j < |files| && Unused(ops, j) && old(Recorded(files[j])) ==> Recorded(files[j])
    ensures OwnEntries(files) ==> forall j :: 0 <= j < |files| && old(Tidy(files[j])) ==> Tidy(files[j])
    ensures old(fs.disk.log) <= fs.disk.log && old(fs.steps) <= fs.steps
    decreases |ops|
  {
    hide *;
    UnsavedIsWritten(files);
    rs, mss, imgs := [], [StreamsOf(files)], [];
    if ops == [] {
      NothingPlayed(fs.g, StreamsOf(files), HasRoom(fs));
    } else {
      ghost var ss, log := StreamsOf(files), fs.disk.log;
      var r := Perform(fs, files, ops[0]);
      ghost var room, img, now, ts := HasRoom(fs), fs.disk.sectors, fs.disk.log, StreamsOf(files);
      UnsavedIsWritten(files);
      OneStep(fs.g, ss, ops[0], r, img, ts, room);
      rs, mss, imgs := PerformEach(fs, files, ops[1..]);
      LessRoom(fs.g, ss, ops[0], r, img, ts, room, HasRoom(fs));
      PlaysOn(fs.g, ss, ops[0], r, img, mss, ops[1..], rs, imgs, HasRoom(fs));
      assert [ops[0]] + ops[1..] == ops;
      StaysInLog(now, fs.disk.log, |log| - 1, |log| - 1, img);
      PlaysLengths(fs.g, mss, ops[1..], rs, imgs, HasRoom(fs));
      LaterImages(fs.disk.log, |now| - 1, |log| - 1, imgs);
      forall j | 0 <= j < |files| && Unused(ops, j)
        ensures ops[0].file != j && Unused(ops[1..], j)
      {
        UnusedLater(ops, j);
      }
      forall j: nat, k: nat | j < |files| && SavesLast([ss] + mss, ops, j, k)
        ensures !files[j].written && (OwnEntries(files) ==> Recorded(files[j]))
      {
        SavesLater(ss, mss, ops, j, k);
      }
      rs, mss, imgs := [r] + rs, [ss] + mss, [img] + imgs;
    }
  }

  lemma UnsavedIsWritten(files: seq<File>)
    ensures forall j :: 0 <= j < |files| ==> StreamsOf(files)[j].unsaved == files[j].written
  {
  }

  lemma NothingPlayed(g: Layout, ss: seq<Stream>, room: bool)
    ensures Plays(g, [ss], [], [], [], room)
    ensures forall j, k :: 0 <= j && 0 <= k ==> !SavesLast([ss], [], j, k)
  {
  }

  // After such a run, the volume holds the files as they were when synchronized.
  lemma SavedAreStored(fs: Volume, files: seq<File>)
    requires Together(fs, files)
    ensures forall j :: 0 <= j < |files| && !files[j].written && Recorded(files[j]) ==>
              Stored(fs.g, fs.view, StreamOf(files[j]))
  {
    hide File.Valid, File.Listed, Volume.Valid, FreeIsUnused, HasOne, Unshared, Stored, RecordedOn;
    forall j | 0 <= j < |files| && !files[j].written && Recorded(files[j])
      ensures Stored(fs.g, fs.view, StreamOf(files[j]))
    {
      TidyIsStored(files[j]);
    }
  }

  // ... and no image that reaches the disk on the way shows a directory entry or a link that leads to a free cluster.
  method PerformAll(fs: Volume, files: seq<File>, ops: seq<FileOp>, ghost dirs: set<nat>)
    returns (rs: seq<Reply>, ghost mss: seq<seq<Stream>>, ghost imgs: seq<seq<Sector>>)
    requires Together(fs, files)
    requires forall k :: 0 <= k < |ops| ==> ops[k].file < |files| && (ops[k].Write? ==> |ops[k].data| < 0x1_0000_0000)
    modifies set i | 0 <= i < |files| :: files[i]
    modifies set i | 0 <= i < |files| :: files[i].buf
    modifies fs, fs.win, fs.disk
    ensures Together(fs, files) && Plays(fs.g, mss, ops, rs, imgs, HasRoom(fs))
    ensures mss[0] == old(StreamsOf(files)) && mss[|ops|] == StreamsOf(files)
    ensures forall k :: 0 <= k < |ops| ==> InLog(fs.disk.log, |old(fs.disk.log)| - 1, imgs[k])
    ensures forall j, k :: 0 <= j < |files| && 0 <= k && SavesLast(mss, ops, j, k) ==>
              && !files[j].written
              && (OwnEntries(files) ==> Recorded(files[j]) && Stored(fs.g, fs.view, StreamOf(files[j])))
    ensures OwnEntries(files) ==>
              forall j :: 0 <= j < |files| && Unused(ops, j) && old(Recorded(files[j])) ==> Recorded(files[j])
    ensures OwnEntries(files) ==> forall j :: 0 <= j < |files| && old(Tidy(files[j])) ==> Tidy(files[j])
    ensures InOrder(fs.g, old(fs.steps)) ==> InOrder(fs.g, fs.steps)
    ensures old(fs.disk.log) <= fs.disk.log && old(fs.steps) <= fs.steps
    ensures InOrder(fs.g, old(fs.steps)) && Named(fs.g, fs.first, dirs) ==>
              ImagesSafe(fs.g, fs.disk.log, |old(fs.disk.log)|, dirs)
  {
    hide *;
    rs, mss, imgs := PerformEach(fs, files, ops);
    SavedAreStored(fs, files);
    VolumeIsValid(fs, files);
    if InOrder(fs.g, fs.steps) && Named(fs.g, fs.first, dirs) {
      LoggedAreSafe(fs, |old(fs.disk.log)|, dirs);
    }
  }

  lemma VolumeIsValid(fs: Volume, files: seq<File>)
    requires Together(fs, files)
    ensures fs.Valid() && fs.g.nFatent >= 2
  {
    hide File.Valid, File.Listed, FreeIsUnused, HasOne, FatMap.Entry, Chronicle, Agrees, Store;
  }
}
