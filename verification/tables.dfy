/**
 Directory tables as sequences of entries: looking an object up, reserving entries for a
 new one, and what registering it does to later lookups.
*/
module Tables {
  import opened Bytes
  import opened Entries
  import opened LongNames
  import opened ShortNames

  /** The name looked for: its short form with the lossy flag, and the buffer with its long form
      unless only short names are compared. */
  datatype Key = Key(short: seq<byte>, lossy: bool, long: bool, buffer: seq<word>)

  // Where a scan of a table stands: the order number expected next, the sum of the long name at hand, and where it
  // started.
  datatype Progress = Progress(ord: byte, sum: byte, first: nat)

  datatype FindResult = Found(index: nat, first: nat) | EndMark(index: nat) | OffEnd

  // An entry that holds part of a long name.
  predicate IsLong(e: Slot) {
    e[11] % 0x40 == 0x0F
  }

  // An entry without valid data for a lookup: deleted, or a volume label.
  predicate Skipped(e: Slot) {
    e[0] == 0xE5 || (e[11] / 8 % 2 == 1 && !IsLong(e))
  }

  // The scan after a long-name entry at index i.
  function LongStep(e: Slot, i: nat, s: Progress, k: Key, up: word -> word): Progress
    requires |k.buffer| == MAX_LFN + 1
  {
    var t := if e[0] / LLE % 2 == 1 then Progress(Order(e), e[13], i) else s;
    if Order(e) == t.ord as int && t.sum == e[13] && Compare(k.buffer, e, up) then LongMatches(k.buffer, e, up);
      t.(ord := t.ord - 1)
    else t.(ord := 0xFF)
  }

  // An entry without an order number never compares equal.
  lemma LongMatches(b: seq<word>, e: Slot, up: word -> word)
    requires |b| == MAX_LFN + 1 && Compare(b, e, up)
    ensures Order(e) > 0
  {
  }

  // Look at entries from index i on.
  function Find(t: seq<Slot>, i: nat, s: Progress, k: Key, up: word -> word): FindResult
    requires i <= |t| && |k.buffer| == MAX_LFN + 1
    decreases |t| - i
  {
    if i == |t| then OffEnd
    else
      var e := t[i];
      if e[0] == 0 then EndMark(i)
      else if Skipped(e) then Find(t, i + 1, s.(ord := 0xFF), k, up)
      else if IsLong(e) then Find(t, i + 1, if k.long then LongStep(e, i, s, k, up) else s, k, up)
      else if s.ord == 0 && s.sum == Sum(e[..11]) then Found(i, s.first)
      else if !k.lossy && e[..11] == k.short then Found(i, 0xFFFF)
      else Find(t, i + 1, Progress(0xFF, s.sum, 0xFFFF), k, up)
  }

  // Behind the first end mark there are only end marks.
  predicate Clean(t: seq<Slot>) {
    forall i, j :: 0 <= i < j < |t| && t[i][0] == 0 ==> t[j][0] == 0
  }

  // No two entries have the same short name.
  predicate DistinctNames(t: seq<Slot>) {
    forall i, j :: 0 <= i < j < |t| && Live(t[i]) && Live(t[j]) ==> t[i][..11] != t[j][..11]
  }

  // A live entry is neither skipped nor part of a long name.
  lemma LiveIsShort(e: Slot)
    ensures Live(e) <==> e[0] != 0 && !Skipped(e) && !IsLong(e)
  {
    assert IsLong(e) ==> e[11] / 8 % 2 == 1 by {
      assert e[11] == 0x40 * (e[11] / 0x40) + e[11] % 0x40;
    }
  }

  // A lookup that fails shows that no entry has the short name.
  lemma {:induction false} NotFoundIsAbsent(t: seq<Slot>, i: nat, s: Progress, k: Key, up: word -> word, j: nat)
    requires i <= j < |t| && |k.buffer| == MAX_LFN + 1 && !k.lossy && Clean(t) && !Find(t, i, s, k, up).Found?
    ensures Live(t[j]) ==> t[j][..11] != k.short
    decreases |t| - i
  {
    var e := t[i];
    LiveIsShort(e);
    if e[0] != 0 && i < j {
      if Skipped(e) {
        NotFoundIsAbsent(t, i + 1, s.(ord := 0xFF), k, up, j);
      } else if IsLong(e) {
        NotFoundIsAbsent(t, i + 1, if k.long then LongStep(e, i, s, k, up) else s, k, up, j);
      } else {
        NotFoundIsAbsent(t, i + 1, Progress(0xFF, s.sum, 0xFFFF), k, up, j);
      }
    }
  }

  // ----- what a lookup finds

  // The entries from `first` on, in front of entry i, belong to one long name: only the first of them has the mark of
  // the last part, the order numbers go down to ord + 1, all have the same sum and pass the comparison.
  predicate InSet(t: seq<Slot>, first: nat, i: nat, ord: nat, sum: byte, k: Key, up: word -> word)
    requires |k.buffer| == MAX_LFN + 1
  {
    && first < i <= |t|
    && forall j :: first <= j < i ==>
         && t[j][0] != 0 && !Skipped(t[j]) && IsLong(t[j]) && (t[j][0] / LLE % 2 == 1 <==> j == first)
         && Order(t[j]) == ord + (i - j) && t[j][13] == sum && Compare(k.buffer, t[j], up)
  }

  // Entry `at` is one to be found: its long name was compared in full and its checksum is that of the short name, or
  // the short name is the one looked for.
  predicate IsHit(t: seq<Slot>, at: nat, first: nat, k: Key, up: word -> word)
    requires |k.buffer| == MAX_LFN + 1
  {
    && at < |t| && Live(t[at])
    && (|| (k.long && InSet(t, first, at, 0, Sum(t[at][..11]), k, up))
        || (!k.lossy && t[at][..11] == k.short && first == 0xFFFF))
  }

  // The scan in front of entry i has seen the beginning of a long name if it expects an order number.
  predicate Scanned(t: seq<Slot>, i: nat, s: Progress, k: Key, up: word -> word)
    requires |k.buffer| == MAX_LFN + 1
  {
    s.ord != 0xFF ==> k.long && InSet(t, s.first, i, s.ord, s.sum, k, up)
  }

  lemma LongStepScanned(t: seq<Slot>, i: nat, s: Progress, k: Key, up: word -> word)
    requires i < |t| && |k.buffer| == MAX_LFN + 1 && k.long && Scanned(t, i, s, k, up)
    requires t[i][0] != 0 && !Skipped(t[i]) && IsLong(t[i])
    ensures Scanned(t, i + 1, LongStep(t[i], i, s, k, up), k, up)
  {
    hide Compare;
  }

  // A lookup finds only hits.
  lemma {:induction false} FindIsSound(t: seq<Slot>, i: nat, s: Progress, k: Key, up: word -> word)
    requires i <= |t| && |k.buffer| == MAX_LFN + 1 && Scanned(t, i, s, k, up)
    ensures var r := Find(t, i, s, k, up);
            r.Found? ==> i <= r.index && IsHit(t, r.index, r.first, k, up) && forall j ::
              i <= j < r.index ==> t[j][0] != 0
    decreases |t| - i
  {
    hide Sum, InSet, LongStep;
    if i < |t| && t[i][0] != 0 {
      LiveIsShort(t[i]);
      if Skipped(t[i]) {
        FindIsSound(t, i + 1, s.(ord := 0xFF), k, up);
      } else if IsLong(t[i]) {
        if k.long { LongStepScanned(t, i, s, k, up); }
        FindIsSound(t, i + 1, if k.long then LongStep(t[i], i, s, k, up) else s, k, up);
      } else {
        FindIsSound(t, i + 1, Progress(0xFF, s.sum, 0xFFFF), k, up);
      }
    }
  }

  // The scan in front of entry i has seen all entries of a long name from `first` on, and expects those up to entry at.
  predicate Underway(s: Progress, i: nat, at: nat, first: nat, sum: byte) {
    first < i <= at && s.ord as int == at - i && s.sum == sum && s.first == first
  }

  // A lookup misses no hit: it finds the first one in front of the end mark.
  lemma {:induction false} FindIsComplete(t: seq<Slot>, i: nat, s: Progress, k: Key, up: word -> word, at: nat,
                                          first: nat)
    requires i <= at < |t| && |k.buffer| == MAX_LFN + 1 && IsHit(t, at, first, k, up)
    requires forall j :: i <= j < at ==> t[j][0] != 0
    requires || (!k.lossy && t[at][..11] == k.short)
             || (k.long && InSet(t, first, at, 0, Sum(t[at][..11]), k, up)
                 && (i <= first || Underway(s, i, at, first, Sum(t[at][..11]))))
    ensures var r := Find(t, i, s, k, up); r.Found? && i <= r.index <= at
    decreases at - i
  {
    hide Sum, Compare;
    LiveIsShort(t[i]);
    LiveIsShort(t[at]);
    if i < at {
      if Skipped(t[i]) {
        FindIsComplete(t, i + 1, s.(ord := 0xFF), k, up, at, first);
      } else if IsLong(t[i]) {
        FindIsComplete(t, i + 1, if k.long then LongStep(t[i], i, s, k, up) else s, k, up, at, first);
      } else {
        FindIsComplete(t, i + 1, Progress(0xFF, s.sum, 0xFFFF), k, up, at, first);
      }
    }
  }

  // A hit in front of which there is no end mark.
  predicate IsReached(t: seq<Slot>, at: nat, first: nat, k: Key, up: word -> word)
    requires |k.buffer| == MAX_LFN + 1
  {
    IsHit(t, at, first, k, up) && forall j :: 0 <= j < at ==> t[j][0] != 0
  }

  // A lookup succeeds exactly if there is such an entry, and finds the first one.
  lemma FindIsExact(t: seq<Slot>, k: Key, up: word -> word)
    requires |k.buffer| == MAX_LFN + 1
    ensures var r := Find(t, 0, START, k, up);
            && (r.Found? <==> exists at: nat, first: nat :: IsReached(t, at, first, k, up))
            && (r.Found? ==> IsReached(t, r.index, r.first, k, up))
            && forall at: nat, first: nat :: IsReached(t, at, first, k, up) ==> r.Found? && r.index <= at
  {
    hide Find, InSet, Sum, Live;
    FindIsSound(t, 0, START, k, up);
    var r := Find(t, 0, START, k, up);
    assert r.Found? ==> IsReached(t, r.index, r.first, k, up);
    forall at: nat, first: nat | IsReached(t, at, first, k, up)
      ensures r.Found? && r.index <= at
    {
      FindIsComplete(t, 0, START, k, up, at, first);
    }
  }

  // An object that is found by its long name, as stored in its entries, has the name looked for up to case.
  lemma HitHasName(t: seq<Slot>, at: nat, first: nat, k: Key, m: seq<word>, name: seq<word>, up: word -> word)
    requires |k.buffer| == MAX_LFN + 1 && Holds(k.buffer, m) && UpperCases(up) && at < |t|
    requires InSet(t, first, at, 0, Sum(t[at][..11]), k, up)
    requires 0 < |name| <= MAX_LFN && IsName(name) && AreParts(t[first..at], name, Sum(t[at][..11]))
    ensures |name| <= 254 && SameName(m, name, up)
  {
    hide Compare, SameName, Sum, AreParts, Order;
    AllMatchIffSame(k.buffer, m, up, t[first..at], name, Sum(t[at][..11]));
    assert forall i :: 0 <= i < |t[first..at]| ==> t[first..at][i] == t[first + i];
  }

  // ----- reserving entries

  predicate Blank(e: Slot) {
    e[0] == 0xE5 || e[0] == 0
  }

  // The scan for blank entries stands in front of index i with a run of n of them, as long as possible.
  ghost predicate RunBefore(t: seq<Slot>, i: nat, n: nat, start: nat) {
    && n <= i <= |t| && (n > 0 ==> start == i - n)
    && (forall j :: i - n <= j < i ==> Blank(t[j]))
    && (n < i ==> !Blank(t[i - n - 1]))
  }

  // The run with entry i looked at.
  lemma RunOn(t: seq<Slot>, i: nat, n: nat, start: nat)
    requires RunBefore(t, i, n, start) && i < |t|
    ensures if Blank(t[i]) then RunBefore(t, i + 1, n + 1, if n == 0 then i else start)
        else RunBefore(t, i + 1, 0, start)
  {
  }

  lemma RunExtended(t: seq<Slot>, u: seq<Slot>, i: nat, n: nat, start: nat)
    requires RunBefore(t, i, n, start) && t <= u
    ensures RunBefore(u, i, n, start)
  {
    assert forall j :: 0 <= j < |t| ==> u[j] == t[j];
  }

  // The table goes on as u behind its entries t, with end marks only.
  predicate Continues(t: seq<Slot>, u: seq<Slot>) {
    t <= u && forall p :: |t| <= p < |u| ==> u[p][0] == 0
  }

  lemma ContinuesRefl(t: seq<Slot>)
    ensures Continues(t, t)
  {
  }

  lemma ContinuesOn(t: seq<Slot>, u: seq<Slot>, w: seq<Slot>)
    requires Continues(t, u) && Continues(u, w)
    ensures Continues(t, w)
  {
  }

  // ----- registering

  // The entries at and behind index `at` of u hold the new object: its long name, if any, and its short entry.
  ghost predicate HoldsObject(u: seq<Slot>, at: nat, ne: nat, name: seq<word>, short: seq<byte>)
    requires |short| == 11
  {
    && at + ne <= |u| && ne >= 1 && (ne > 1 ==> ne == Parts(name) + 1)
    && (forall p :: at <= p < at + ne - 1 ==> IsPart(u[p], name, at + ne - 1 - p, Sum(short)))
    && u[at + ne - 1][..11] == short && u[at + ne - 1][11] == 0
  }

  // Registering turned table t into u: t was extended by end marks, and blank entries were filled.
  ghost predicate Registered(t: seq<Slot>, u: seq<Slot>, at: nat, ne: nat, name: seq<word>, short: seq<byte>)
    requires |short| == 11
  {
    && |t| <= |u| && HoldsObject(u, at, ne, name, short)
    && (forall i :: 0 <= i < |u| && !(at <= i < at + ne) ==> if i < |t| then u[i] == t[i] else u[i][0] == 0)
    && (forall i :: at <= i < at + ne && i < |t| ==> Blank(t[i]))
    && at <= |t| && (0 < at ==> !Blank(t[at - 1]))
    && short[0] != 0 && short[0] != 0xE5
    && StartCluster(u[at + ne - 1]) == 0 && FileSize(u[at + ne - 1]) == 0
    && ClearFrom13(u[at + ne - 1])
  }

  // No new end mark, no duplicate name: both invariants of a directory survive a registration.
  lemma RegisteredKeeps(t: seq<Slot>, u: seq<Slot>, at: nat, ne: nat, name: seq<word>, short: seq<byte>)
    requires |short| == 11 && Registered(t, u, at, ne, name, short) && |name| <= MAX_LFN
    requires Clean(t) && DistinctNames(t)
    requires forall j :: 0 <= j < |t| && Live(t[j]) ==> t[j][..11] != short
    ensures Clean(u) && DistinctNames(u)
  {
    forall q | at <= q < at + ne
      ensures u[q][0] != 0 && (q < at + ne - 1 ==> !Live(u[q]))
    {
      NewEntry(u, at, ne, name, short, q);
    }
    forall i | 0 <= i < at
      ensures u[i] == t[i] && t[i][0] != 0
    {
      NoEndBefore(t, at, i);
    }
  }

  // No end mark lies in front of an entry in use.
  lemma NoEndBefore(t: seq<Slot>, at: nat, i: nat)
    requires i < at <= |t| && Clean(t) && !Blank(t[at - 1])
    ensures t[i][0] != 0
  {
  }

  lemma NewEntry(u: seq<Slot>, at: nat, ne: nat, name: seq<word>, short: seq<byte>, p: nat)
    requires |short| == 11 && HoldsObject(u, at, ne, name, short) && at <= p < at + ne && |name| <= MAX_LFN
    requires short[0] != 0 && short[0] != 0xE5
    ensures u[p][0] != 0 && u[p][0] != 0xE5
    ensures p < at + ne - 1 ==> IsLong(u[p]) && !Skipped(u[p]) && !Live(u[p])
    ensures p == at + ne - 1 ==> Live(u[p])
  {
    if p < at + ne - 1 {
      assert IsPart(u[p], name, at + ne - 1 - p, Sum(short));
    } else {
      assert u[p][0] == u[p][..11][0];
    }
  }

  const START := Progress(0xFF, 0xFF, 0xFFFF)

  // A failing lookup passes all entries in front of the first end mark, in either of two tables that agree there.
  lemma {:induction false} FindPasses(t: seq<Slot>, u: seq<Slot>, at: nat, i: nat, s: Progress, k: Key,
                                      up: word -> word)
    returns (r: Progress)
    requires i <= at <= |t| && at <= |u| && |k.buffer| == MAX_LFN + 1 && !Find(t, i, s, k, up).Found?
    requires forall j :: 0 <= j < at ==> u[j] == t[j] && t[j][0] != 0
    ensures Find(u, i, s, k, up) == Find(u, at, r, k, up)
    decreases at - i
  {
    r := s;
    if i < at {
      var e := t[i];
      assert u[i] == e;
      var q := if Skipped(e) then s.(ord := 0xFF)
               else if IsLong(e) then if k.long then LongStep(e, i, s, k, up) else s
               else Progress(0xFF, s.sum, 0xFFFF);
      r := FindPasses(t, u, at, i + 1, q, k, up);
    }
  }

  // The entries of a long name are passed in order, each with the matching sum, and lead to the short entry.
  lemma {:induction false} FindPassesParts(u: seq<Slot>, at: nat, ne: nat, name: seq<word>, short: seq<byte>,
                                           m: seq<word>, p: nat, s: Progress, k: Key, up: word -> word)
    requires |short| == 11 && HoldsObject(u, at, ne, name, short) && ne > 1 && at <= p < at + ne && short[0] != 0
    requires short[0] != 0xE5
    requires 0 < |name| <= 254 && IsName(name) && UpperCases(up) && Holds(k.buffer, m) && SameName(m, name, up)
    requires k.long
    requires p > at ==> s == Progress(at + ne - 1 - p, Sum(short), at)
    ensures Find(u, p, s, k, up) == Found(at + ne - 1, at)
    decreases at + ne - p
  {
    hide Find, IsPart, SameName, Sum, Live, LongStep;
    if p < at + ne - 1 {
      var ord := at + ne - 1 - p;
      PartPassed(u, at, ne, name, short, m, p, s, k, up);
      FindPassesParts(u, at, ne, name, short, m, p + 1, Progress(ord - 1, Sum(short), at), k, up);
    } else {
      ShortReached(u, at, ne, name, short, p, k, up);
    }
  }

  lemma ShortReached(u: seq<Slot>, at: nat, ne: nat, name: seq<word>, short: seq<byte>, p: nat, k: Key,
                     up: word -> word)
    requires |short| == 11 && HoldsObject(u, at, ne, name, short) && p == at + ne - 1 && short[0] != 0
    requires short[0] != 0xE5
    requires |name| <= MAX_LFN && |k.buffer| == MAX_LFN + 1
    ensures Find(u, p, Progress(0, Sum(short), at), k, up) == Found(p, at)
  {
    hide Sum, IsPart, Live, LongStep;
    NewEntry(u, at, ne, name, short, p);
    LiveIsShort(u[p]);
  }

  lemma PartPassed(u: seq<Slot>, at: nat, ne: nat, name: seq<word>, short: seq<byte>, m: seq<word>,
                   p: nat, s: Progress, k: Key, up: word -> word)
    requires |short| == 11 && HoldsObject(u, at, ne, name, short) && at <= p < at + ne - 1 && short[0] != 0
    requires short[0] != 0xE5
    requires 0 < |name| <= 254 && IsName(name) && UpperCases(up) && Holds(k.buffer, m) && SameName(m, name, up)
    requires k.long
    requires p > at ==> s == Progress(at + ne - 1 - p, Sum(short), at)
    ensures Find(u, p, s, k, up) == Find(u, p + 1, Progress(at + ne - 2 - p, Sum(short), at), k, up)
  {
    hide IsPart, Sum, Live, PartMatches, Compare, SameName, Order, LongStep;
    NewEntry(u, at, ne, name, short, p);
    PartStep(u[p], p, at, at + ne - 1 - p, ne, name, Sum(short), m, s, k, up);
  }

  // A part of the name that is expected, or the last part, which starts a long name.
  lemma PartStep(e: Slot, p: nat, at: nat, ord: byte, ne: nat, name: seq<word>, sum: byte, m: seq<word>, s: Progress,
                 k: Key, up: word -> word)
    requires 0 < |name| <= 254 && IsName(name) && UpperCases(up) && Holds(k.buffer, m) && SameName(m, name, up)
    requires ne == Parts(name) + 1 && 0 < ord < ne && p == at + (ne - 1 - ord) && IsPart(e, name, ord, sum)
    requires p > at ==> s == Progress(ord, sum, at)
    ensures LongStep(e, p, s, k, up) == Progress(ord - 1, sum, at)
  {
    hide PartMatches, Compare, SameName;
    PartOrder(e, name, ord, sum);
    AllAgreeIffSame(k.buffer, m, up, name);
    assert PartMatches(k.buffer, name, ord, up);
    CompareIsMatch(k.buffer, e, up, name, ord, sum);
    hide IsPart;
  }

  // After registering an object under a name that was not found, looking the name up, in whatever case, finds
  // the new short entry.
  lemma LookupAfterRegister(t: seq<Slot>, u: seq<Slot>, at: nat, ne: nat, name: seq<word>, short: seq<byte>,
                            m: seq<word>, k: Key, up: word -> word)
    requires |short| == 11 && Registered(t, u, at, ne, name, short) && Clean(t)
    requires |k.buffer| == MAX_LFN + 1 && !Find(t, 0, START, k, up).Found? && k.long
    requires 0 < |name| <= 254 && IsName(name) && UpperCases(up) && Holds(k.buffer, m) && SameName(m, name, up)
    requires ne == 1 ==> !k.lossy && k.short == short
    ensures Find(u, 0, START, k, up).Found? && Find(u, 0, START, k, up).index == at + ne - 1
    ensures ne > 1 ==> Find(u, 0, START, k, up).first == at
  {
    forall j | 0 <= j < at
      ensures u[j] == t[j] && t[j][0] != 0
    {
      NoEndBefore(t, at, j);
    }
    var s := FindPasses(t, u, at, 0, START, k, up);
    if ne > 1 {
      FindPassesParts(u, at, ne, name, short, m, at, s, k, up);
    } else {
      NewEntry(u, at, ne, name, short, at);
      LiveIsShort(u[at]);
    }
  }

  // ----- runs of registrations

  // A directory in which every name can be found and none twice.
  ghost predicate Orderly(t: seq<Slot>) {
    Clean(t) && DistinctNames(t)
  }

  // Looking a short name up without its long form, not finding it and registering it keeps a directory orderly.
  lemma RegistrationKeepsOrder(t: seq<Slot>, u: seq<Slot>, at: nat, ne: nat, name: seq<word>, short: seq<byte>,
                               k: Key, up: word -> word)
    requires |short| == 11 && |name| <= MAX_LFN && Registered(t, u, at, ne, name, short) && Orderly(t)
    requires |k.buffer| == MAX_LFN + 1 && k.short == short && !k.lossy && !Find(t, 0, START, k, up).Found?
    ensures Orderly(u)
  {
    forall j | 0 <= j < |t|
      ensures Live(t[j]) ==> t[j][..11] != short
    {
      NotFoundIsAbsent(t, 0, START, k, up, j);
    }
    RegisteredKeeps(t, u, at, ne, name, short);
  }

  // Extending the table by end marks does not matter to that.
  lemma ExtensionKeepsOrder(t: seq<Slot>, u: seq<Slot>)
    requires Orderly(t) && Continues(t, u)
    ensures Orderly(u)
  {
  }

  // One attempt of a run: the object that was created, and the key whose short form was looked up in vain.
  datatype Attempt = Created(at: nat, ne: nat, name: seq<word>, key: Key) | Refused

  // An attempt registers an object, or extends the table at most.
  ghost predicate Attempts(t: seq<Slot>, u: seq<Slot>, e: Attempt, up: word -> word) {
    if e.Refused? then Continues(t, u)
    else
      && |e.key.short| == 11 && |e.key.buffer| == MAX_LFN + 1 && |e.name| <= MAX_LFN && !e.key.lossy
      && !Find(t, 0, START, e.key, up).Found?
      && Registered(t, u, e.at, e.ne, e.name, e.key.short)
  }

  ghost predicate Attempted(ts: seq<seq<Slot>>, es: seq<Attempt>, up: word -> word) {
    && |ts| == |es| + 1
    && forall i :: 0 <= i < |es| ==> Attempts(ts[i], ts[i + 1], es[i], up)
  }

  lemma RunGoesOn(ts: seq<seq<Slot>>, es: seq<Attempt>, up: word -> word, u: seq<Slot>, e: Attempt)
    requires Attempted(ts, es, up) && Attempts(ts[|ts| - 1], u, e, up)
    ensures Attempted(ts + [u], es + [e], up)
  {
    hide Attempts;
    forall i | 0 <= i < |es + [e]|
      ensures Attempts((ts + [u])[i], (ts + [u])[i + 1], (es + [e])[i], up)
    {
      if i < |es| {
        assert (es + [e])[i] == es[i];
      }
    }
  }

  lemma AttemptKeepsOrder(t: seq<Slot>, u: seq<Slot>, e: Attempt, up: word -> word)
    requires Attempts(t, u, e, up) && Orderly(t)
    ensures Orderly(u)
  {
    if e.Refused? {
      ExtensionKeepsOrder(t, u);
    } else {
      RegistrationKeepsOrder(t, u, e.at, e.ne, e.name, e.key.short, e.key, up);
    }
  }

  // Every sequence of lookups and registrations keeps a directory orderly: short names stay unique.
  lemma {:induction false} RunKeepsOrder(ts: seq<seq<Slot>>, es: seq<Attempt>, up: word -> word, i: nat)
    requires Attempted(ts, es, up) && Orderly(ts[0]) && i < |ts|
    ensures Orderly(ts[i])
    decreases i
  {
    if i > 0 {
      RunKeepsOrder(ts, es, up, i - 1);
      assert Attempts(ts[i - 1], ts[i - 1 + 1], es[i - 1], up);
      AttemptKeepsOrder(ts[i - 1], ts[i], es[i - 1], up);
    }
  }
}
