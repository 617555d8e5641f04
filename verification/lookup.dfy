/**
 Looking a name up in a directory on the volume.
*/
module Lookup {
  import opened Bytes
  import opened Geometry
  import opened DiskIO
  import opened FatMap
  import opened Volumes
  import opened WriteBehind
  import opened Allocator
  import opened Entries
  import opened LongNames
  import opened ShortNames
  import opened FileMap
  import opened Cursor
  import opened Directory
  import opened Tables
  import opened DirTables
  import Chains

  // The next entry of a table is the one behind it; at its end there is none.
  lemma TableNext(g: Layout, f: seq<nat>, sclust: dword, cs: seq<dword>, i: word, limit: nat)
    requires g.Sound(limit) && 2 <= g.nFatent <= 0x1_0000_0000 && g.dirbase < 0x1_0000_0000
    requires TableChain(g, f, sclust, cs)
    requires i < Size(g, cs)
    ensures g.csize > 0 && Seek(g, f, sclust, i).At?
    ensures var p := Seek(g, f, sclust, i).pos;
            if i + 1 < Size(g, cs) then Next(g, f, p) == Seek(g, f, sclust, i + 1) && Seek(g, f, sclust, i + 1).At?
            else Next(g, f, p) == Nowhere(NoFile)
  {
    SeekInTable(g, f, sclust, cs, i, limit);
    SectorNotZero(g, f, sclust, i, limit);
    if i + 1 < 0x1_0000 {
      SeekInTable(g, f, sclust, cs, i + 1, limit);
      NextIsSeek(g, f, sclust, i, limit);
      if cs != [] && i + 1 == Size(g, cs) {
        LastInChain(g, cs, i);
        Chains.ChainEntries(f, cs, |cs| - 1);
      }
    }
  }

  // The last entry of a chain lies in its last cluster.
  lemma LastInChain(g: Layout, cs: seq<dword>, i: nat)
    requires g.csize > 0 && cs != [] && i + 1 == 16 * Capacity(g, cs)
    ensures Ordinal(g, i / 16) == |cs| - 1
  {
    var n := Capacity(g, cs);
    assert i / 16 == n - 1;
    TimesIsProduct(|cs|, g.csize);
    assert n - 1 == (|cs| - 1) * g.csize + (g.csize - 1) by {
      assert |cs| * g.csize == (|cs| - 1) * g.csize + g.csize;
    }
    DivModUnique(n - 1, g.csize, |cs| - 1, g.csize - 1);
  }

  // The directory of cursor dj is the table of chain cs.
  ghost predicate Listing(dj: Dir, cs: seq<dword>)
    requires dj.fs.Valid()
    reads dj, dj.fs, dj.fs.win, dj.fs.disk
  {
    Bounds(dj.fs.g, |dj.fs.view|);
    TableChain(dj.fs.g, dj.fs.fat, dj.sclust, cs)
  }

  lemma ListingFacts(dj: Dir, cs: seq<dword>)
    requires dj.fs.Valid() && Listing(dj, cs)
    ensures dj.fs.g.Checked(|dj.fs.view|) && dj.fs.g.csize > 0 && dj.fs.g.nFatent >= 2 && Proper(dj.fs.g, cs)
    ensures dj.fs.g.fsType == Fat32 ==> cs != []
    ensures 0 < Size(dj.fs.g, cs) <= 0x1_0000
  {
    Bounds(dj.fs.g, |dj.fs.view|);
    ChainIsProper(dj.fs.g, dj.fs.fat, cs);
    if cs != [] {
      TimesAtLeast(|cs|, dj.fs.g.csize);
    }
  }

  // The entries of the directory.
  ghost function EntriesOf(dj: Dir, cs: seq<dword>): seq<Slot>
    requires dj.fs.Valid() && Listing(dj, cs)
    reads dj, dj.fs, dj.fs.win, dj.fs.disk
  {
    ListingFacts(dj, cs);
    Table(dj.fs.g, dj.fs.view, cs)
  }

  // The cursor stands on entry i of the directory.
  ghost predicate StandsOn(dj: Dir, cs: seq<dword>, i: nat)
    reads dj, dj.fs, dj.fs.win, dj.fs.disk
  {
    && dj.fs.Valid() && Listing(dj, cs) && i < Size(dj.fs.g, cs) && dj.index == i && dj.Placed()
  }

  lemma StandsFacts(dj: Dir, cs: seq<dword>, i: nat)
    requires StandsOn(dj, cs, i)
    ensures dj.fs.Valid() && Listing(dj, cs) && i < Size(dj.fs.g, cs) <= 0x1_0000 && dj.index == i && dj.Placed()
    ensures dj.sect < |dj.fs.view| && dj.sect > 0 && dj.fs.g.Cacheable(dj.sect) && !dj.fs.g.InFats(dj.sect)
    ensures dj.off == i % 16 * 32 && |EntriesOf(dj, cs)| == Size(dj.fs.g, cs)
    ensures EntriesOf(dj, cs)[i] == SlotAt(dj.fs.view[dj.sect], i % 16)
  {
    ListingFacts(dj, cs);
    SeekInTable(dj.fs.g, dj.fs.fat, dj.sclust, cs, i, |dj.fs.view|);
    DirSectorPlace(dj.fs.g, cs, i, |dj.fs.view|);
  }

  // ... and the entries are t.
  ghost predicate On(dj: Dir, cs: seq<dword>, t: seq<Slot>, i: nat)
    reads dj, dj.fs, dj.fs.win, dj.fs.disk
  {
    StandsOn(dj, cs, i) && EntriesOf(dj, cs) == t
  }

  lemma OnFacts(dj: Dir, cs: seq<dword>, t: seq<Slot>, i: nat)
    requires On(dj, cs, t, i)
    ensures StandsOn(dj, cs, i) && dj.fs.Valid() && Listing(dj, cs) && EntriesOf(dj, cs) == t && i < |t| <= 0x1_0000
    ensures dj.index == i
  {
    StandsFacts(dj, cs, i);
  }

  lemma OnItsTable(dj: Dir, cs: seq<dword>, t: seq<Slot>, i: nat)
    requires On(dj, cs, t, i)
    ensures dj.fs.g.csize > 0 && dj.fs.g.nFatent >= 2 && OnTable(dj.fs.g, cs, dj.sect)
  {
    hide DirTables.Table, FatOf, FatMap.Entry, Chronicle, Store, OnTable, TableChain;
    StandsFacts(dj, cs, i);
    ListingFacts(dj, cs);
    Bounds(dj.fs.g, |dj.fs.view|);
    SeekInTable(dj.fs.g, dj.fs.fat, dj.sclust, cs, i, |dj.fs.view|);
    IsOnTable(dj.fs.g, cs, i);
  }

  lemma IsOnTable(g: Layout, cs: seq<dword>, i: nat)
    requires g.csize > 0 && g.nFatent >= 2 && i < Size(g, cs) && (cs != [] ==> Ordinal(g, i / 16) < |cs|)
    ensures OnTable(g, cs, DirSector(g, cs, i))
  {
  }

  // Place the cursor on entry i.
  method Rewind(dj: Dir, i: word, ghost cs: seq<dword>) returns (res: FResult)
    requires dj.fs.Valid() && Listing(dj, cs) && i < |EntriesOf(dj, cs)|
    modifies dj`index, dj`clust, dj`sect, dj`off, dj.fs`winsect, dj.fs`wflag, dj.fs.win, dj.fs.disk
    ensures res == Ok && On(dj, cs, old(EntriesOf(dj, cs)), i)
    ensures old(dj.fs.disk.log) <= dj.fs.disk.log
    ensures old(dj.fs.meta) <= dj.fs.meta
    ensures dj.fs.winsect == old(dj.fs.winsect) || dj.fs.g.InFat(dj.fs.winsect) || dj.fs.winsect in dj.fs.meta
  {
    hide FatOf, FatMap.Entry, TableChain, Layout.Checked, Chronicle, Store, Seek;
    Bounds(dj.fs.g, |dj.fs.view|);
    SeekInTable(dj.fs.g, dj.fs.fat, dj.sclust, cs, i, |dj.fs.view|);
    res := dj.Sdi(i);
  }

  // Move the cursor on.
  method Forward(dj: Dir, ghost i: nat, ghost cs: seq<dword>, ghost t: seq<Slot>) returns (res: FResult)
    requires On(dj, cs, t, i)
    modifies dj`index, dj`clust, dj`sect, dj`off, dj.fs, dj.fs.win, dj.fs.disk
    ensures dj.fs.Valid() && Kept(dj.fs) && dj.fs.meta == old(dj.fs.meta) && dj.fs.fat == old(dj.fs.fat)
    ensures Listing(dj, cs) && EntriesOf(dj, cs) == t
    ensures if i + 1 < |t| then res == Ok && On(dj, cs, t, i + 1) else res == NoFile
    ensures old(dj.fs.disk.log) <= dj.fs.disk.log && old(dj.fs.steps) <= dj.fs.steps
    ensures old(dj.fs.meta) <= dj.fs.meta
    ensures dj.fs.winsect == old(dj.fs.winsect) || dj.fs.g.InFat(dj.fs.winsect) || dj.fs.winsect in dj.fs.meta
  {
    hide FatOf, FatMap.Entry, TableChain, Seek, Next, StretchSteps, Stretched, Size, Layout.Checked, Chronicle;
    hide DirTables.Table;
    OnFacts(dj, cs, t, i);
    ListingFacts(dj, cs);
    Bounds(dj.fs.g, |dj.fs.view|);
    TableNext(dj.fs.g, dj.fs.fat, dj.sclust, cs, i, |dj.fs.view|);
    res := dj.DirNext(false);
  }

  // Bring the sector of the entry at the cursor into the window.
  method LoadEntry(dj: Dir, ghost i: nat, ghost cs: seq<dword>, ghost t: seq<Slot>) returns (res: FResult, e: Slot)
    requires On(dj, cs, t, i)
    modifies dj.fs`winsect, dj.fs`wflag, dj.fs.win, dj.fs.disk
    ensures res == Ok && On(dj, cs, t, i) && i < |t| && e == t[i] && dj.fs.winsect == dj.sect
    ensures old(dj.fs.disk.log) <= dj.fs.disk.log
  {
    hide FatOf, FatMap.Entry, TableChain, Seek, Size, Layout.Checked, Chronicle, Store, DirTables.Table;
    StandsFacts(dj, cs, i);
    e := seq(32, _ => 0);
    res := dj.fs.MoveWindow(dj.sect);
    if res == Ok {
      e := dj.fs.win[dj.off..dj.off + 32];
      WindowHolds(dj.fs, dj.sect, i % 16, e);
    }
  }

  lemma WindowHolds(fs: Volume, s: nat, o: nat, e: Slot)
    requires fs.Valid() && fs.winsect == s > 0 && s < |fs.view| && o < 16 && e == fs.win[32 * o..32 * o + 32]
    ensures fs.win[..] == fs.view[s] && SlotAt(fs.view[s], o) == e
  {
  }

  // What is looked for: the 11 characters of a short name with its flags, and perhaps a long name.
  function KeyOf(fn: seq<byte>, long: bool, buffer: seq<word>): Key
    requires |fn| == 12
  {
    Key(fn[..11], fn[11] % 2 == 1, long, buffer)
  }

  // What a scan makes of one entry, kind by kind.
  lemma LooksAtSkipped(t: seq<Slot>, i: nat, s: Progress, k: Key, up: word -> word)
    requires i < |t| && |k.buffer| == MAX_LFN + 1 && t[i][0] != 0 && Skipped(t[i])
    ensures Find(t, i, s, k, up) == Find(t, i + 1, s.(ord := 0xFF), k, up)
  {
    hide LongStep, Sum;
  }

  lemma LooksAtLong(t: seq<Slot>, i: nat, s: Progress, k: Key, up: word -> word)
    requires i < |t| && |k.buffer| == MAX_LFN + 1 && t[i][0] != 0 && !Skipped(t[i]) && IsLong(t[i])
    ensures Find(t, i, s, k, up) == Find(t, i + 1, if k.long then LongStep(t[i], i, s, k, up) else s, k, up)
  {
    hide LongStep, Sum;
  }

  lemma LooksAtShort(t: seq<Slot>, i: nat, s: Progress, k: Key, up: word -> word)
    requires i < |t| && |k.buffer| == MAX_LFN + 1 && t[i][0] != 0 && !Skipped(t[i]) && !IsLong(t[i])
    ensures Find(t, i, s, k, up) ==
            if s.ord == 0 && s.sum == Sum(t[i][..11]) then Found(i, s.first)
            else if !k.lossy && t[i][..11] == k.short then Found(i, 0xFFFF)
            else Find(t, i + 1, Progress(0xFF, s.sum, 0xFFFF), k, up)
  {
    hide LongStep, Sum;
  }

  // Look at an entry that holds part of a long name.
  method LookAtLong(e: Slot, i: word, ord: byte, sum: byte, first: nat, lfn: array<word>, ghost k: Key,
                    up: word -> word)
    returns (ord': byte, sum': byte, first': nat)
    requires lfn.Length == MAX_LFN + 1 && k.buffer == lfn[..] && IsLong(e)
    ensures LongStep(e, i, Progress(ord, sum, first), k, up) == Progress(ord', sum', first')
  {
    hide Compare;
    ord', sum', first' := ord, sum, first;
    var c := e[0];
    if c / LLE % 2 == 1 {
      sum' := e[13];
      c := c - LLE;
      ord' := c;
      first' := i;
    }
    var equal := CmpLfn(lfn, e, up);
    if equal { LongMatches(lfn[..], e, up); }
    ord' := if c == ord' && sum' == e[13] && equal then ord' - 1 else 0xFF;
  }

  // Look at one entry: it is the one looked for, or the scan goes on.
  method LookAt(e: Slot, i: word, ord: byte, sum: byte, first: nat, fn: array<byte>, lfn: array<word>, long: bool,
                up: word -> word, ghost t: seq<Slot>)
    returns (matched: bool, ord': byte, sum': byte, first': nat)
    requires fn.Length == 12 && lfn.Length == MAX_LFN + 1 && i < |t| && t[i] == e && e[0] != 0
    ensures var k := KeyOf(fn[..], long, lfn[..]);
            Find(t, i, Progress(ord, sum, first), k, up)
            == if matched then Found(i, first') else Find(t, i + 1, Progress(ord', sum', first'), k, up)
  {
    hide Find, LongStep, Sum, Compare;
    ghost var k, s := KeyOf(fn[..], long, lfn[..]), Progress(ord, sum, first);
    matched, ord', sum', first' := false, ord, sum, first;
    var c, a := e[0], e[11] % 0x40;
    LongHasVolumeBit(e);
    if c == 0xE5 || (a / 8 % 2 == 1 && a != 0x0F) {
      LooksAtSkipped(t, i, s, k, up);
      ord' := 0xFF;
    } else if a == 0x0F {
      LooksAtLong(t, i, s, k, up);
      if long {
        ord', sum', first' := LookAtLong(e, i, ord, sum, first, lfn, k, up);
      }
    } else {
      LooksAtShort(t, i, s, k, up);
      var n := SumSfn(e);
      if ord == 0 && sum == n { return true, ord', sum', first'; }
      ord' := 0xFF;
      first' := 0xFFFF;
      assert fn[..][..11] == fn[..11];
      if fn[11] % 2 == 0 && e[..11] == fn[..11] { matched := true; }
    }
  }

  lemma KeyFacts(fn: seq<byte>, long: bool, b: seq<word>)
    requires |fn| == 12
    ensures KeyOf(fn, long, b).buffer == b
  {
  }

  lemma EntryCount(dj: Dir, cs: seq<dword>)
    requires dj.fs.Valid() && Listing(dj, cs)
    ensures 0 < |EntriesOf(dj, cs)| <= 0x1_0000
  {
    ListingFacts(dj, cs);
  }

  lemma NothingScanned(t: seq<Slot>, k: Key, up: word -> word)
    requires |k.buffer| == MAX_LFN + 1
    ensures Scanned(t, 0, START, k, up)
  {
  }

  lemma LongHasVolumeBit(e: Slot)
    ensures e[11] / 8 % 2 == e[11] % 0x40 / 8 % 2
  {
  }

  // Look at the entry at the cursor, unless it is the end mark.
  method Inspect(dj: Dir, ord: byte, sum: byte, first: nat, fn: array<byte>, lfn: array<word>, long: bool,
                 up: word -> word, ghost i: nat, ghost cs: seq<dword>, ghost t: seq<Slot>)
    returns (res: FResult, matched: bool, ord': byte, sum': byte, first': nat)
    requires On(dj, cs, t, i) && fn.Length == 12 && lfn.Length == MAX_LFN + 1 && fn != dj.fs.win
    modifies dj.fs`winsect, dj.fs`wflag, dj.fs.win, dj.fs.disk
    ensures On(dj, cs, t, i) && i < |t| && dj.fs.winsect == dj.sect && dj.fs.g.csize > 0 && dj.fs.g.nFatent >= 2
    ensures OnTable(dj.fs.g, cs, dj.fs.winsect) && fn[..] == old(fn[..])
    ensures var r := Find(t, i, Progress(ord, sum, first), KeyOf(fn[..], long, lfn[..]), up);
            if res != Ok then res == NoFile && !r.Found?
            else r == if matched then Found(i, first')
                      else Find(t, i + 1, Progress(ord', sum', first'), KeyOf(fn[..], long, lfn[..]), up)
    ensures old(dj.fs.disk.log) <= dj.fs.disk.log
  {
    hide *;
    OnFacts(dj, cs, t, i);
    KeyFacts(fn[..], long, lfn[..]);
    matched, ord', sum', first' := false, ord, sum, first;
    var e;
    res, e := LoadEntry(dj, i, cs, t);
    OnItsTable(dj, cs, t, i);
    if res != Ok { return; }
    if e[0] == 0 {
      FindEnds(t, i, Progress(ord, sum, first), KeyOf(fn[..], long, lfn[..]), up);
      res := NoFile;
    } else {
      matched, ord', sum', first' := LookAt(e, dj.index, ord, sum, first, fn, lfn, long, up, t);
    }
  }

  // Look up a name; on success the cursor stands on its short entry.
  method DirFind(dj: Dir, fn: array<byte>, lfn: array<word>, long: bool, up: word -> word, ghost cs: seq<dword>)
    returns (res: FResult, lfnIdx: nat)
    requires dj.fs.Valid() && Listing(dj, cs) && fn.Length == 12 && lfn.Length == MAX_LFN + 1 && fn != dj.fs.win
    modifies dj`index, dj`clust, dj`sect, dj`off, dj.fs, dj.fs.win, dj.fs.disk
    ensures dj.fs.Valid() && Kept(dj.fs) && dj.fs.meta == old(dj.fs.meta) && dj.fs.fat == old(dj.fs.fat)
    ensures Listing(dj, cs)
    ensures EntriesOf(dj, cs) == old(EntriesOf(dj, cs))
    ensures fn[..] == old(fn[..]) && lfn[..] == old(lfn[..])
    ensures var r := Find(EntriesOf(dj, cs), 0, START, KeyOf(fn[..], long, lfn[..]), up);
            if r.Found? then
              && res == Ok && StandsOn(dj, cs, r.index) && lfnIdx == r.first && dj.fs.winsect == dj.sect
              && IsHit(EntriesOf(dj, cs), r.index, r.first, KeyOf(fn[..], long, lfn[..]), up)
            else res == NoFile
    ensures old(dj.fs.disk.log) <= dj.fs.disk.log && old(dj.fs.steps) <= dj.fs.steps
    ensures dj.fs.g.csize > 0 && dj.fs.g.nFatent >= 2
    ensures dj.fs.g.InFat(dj.fs.winsect) || dj.fs.winsect in dj.fs.meta || OnTable(dj.fs.g, cs, dj.fs.winsect)
  {
    hide Find, FatOf, FatMap.Entry, TableChain, Seek, Size, Layout.Checked, Chronicle, Store, DirTables.Table;
    hide StandsOn, Listing, Volume.Valid, On, IsHit, Scanned, OnTable, EntriesOf, KeyOf, Layout.InFat, Live, SlotAt;
    ghost var t, k := EntriesOf(dj, cs), KeyOf(fn[..], long, lfn[..]);
    KeyFacts(fn[..], long, lfn[..]);
    NothingScanned(t, k, up);
    FindIsSound(t, 0, START, k, up);
    ListingFacts(dj, cs);
    EntryCount(dj, cs);
    lfnIdx := 0xFFFF;
    res := Rewind(dj, 0, cs);
    if res != Ok { return; }
    var ord: byte, sum: byte := 0xFF, 0xFF;
    ghost var i := 0;
    while true
      invariant res == Ok && On(dj, cs, t, i) && i < |t|
      invariant Kept(dj.fs) && dj.fs.meta == old(dj.fs.meta) && dj.fs.fat == old(dj.fs.fat)
      invariant fn[..] == old(fn[..]) && lfn[..] == old(lfn[..])
      invariant Find(t, 0, START, k, up) == Find(t, i, Progress(ord, sum, lfnIdx), k, up)
      invariant old(dj.fs.disk.log) <= dj.fs.disk.log && old(dj.fs.steps) <= dj.fs.steps
      decreases |t| - i
    {
      OnFacts(dj, cs, t, i);
      var matched;
      res, matched, ord, sum, lfnIdx := Inspect(dj, ord, sum, lfnIdx, fn, lfn, long, up, i, cs, t);
      OnFacts(dj, cs, t, i);
      if res != Ok { break; }
      if matched { break; }
      res := Forward(dj, i, cs, t);
      i := i + 1;
      if res != Ok {
        FindEnds(t, i, Progress(ord, sum, lfnIdx), k, up);
        break;
      }
    }
  }

  lemma FindEnds(t: seq<Slot>, i: nat, s: Progress, k: Key, up: word -> word)
    requires i <= |t| && |k.buffer| == MAX_LFN + 1 && (i < |t| ==> t[i][0] == 0)
    ensures !Find(t, i, s, k, up).Found?
  {
  }
}
