/**
 Long file names: how a name is cut into directory entries of 13 characters, put together
 again, and compared with another name.
*/
module LongNames {
  import opened Bytes
  import opened Entries

  const MAX_LFN := 255

  // Offsets of the 13 characters in an entry.
  const LFN_OFS := [1, 3, 5, 7, 9, 14, 16, 18, 20, 22, 24, 28, 30]

  const LLE := 0x40  // marks the last part of a name, which comes first in the directory

  // The s-th character in an entry.
  function CharAt(e: Slot, s: nat): word
    requires s < 13
  {
    LdWord(e, LFN_OFS[s])
  }

  // Characters a name may consist of.
  predicate IsName(name: seq<word>) {
    forall i :: 0 <= i < |name| ==> name[i] != 0 && name[i] != 0xFFFF
  }

  // The working buffer b holds the name and its terminator.
  predicate Holds(b: seq<word>, name: seq<word>) {
    |b| == MAX_LFN + 1 && |name| <= MAX_LFN && IsName(name) && b[..|name|] == name && b[|name|] == 0
  }

  // The number of entries a name takes.
  function Parts(name: seq<word>): nat {
    (|name| + 12) / 13
  }

  // What is stored for the p-th character: the name, its terminator, then filler.
  function UnitAt(name: seq<word>, p: nat): word {
    if p < |name| then name[p] else if p == |name| then 0 else 0xFFFF
  }

  // Entry e holds part ord of the name, for a short name with the given sum.
  predicate IsPart(e: Slot, name: seq<word>, ord: nat, sum: byte)
    requires ord > 0
  {
    && e[0] as int == ord + (if ord == Parts(name) then LLE else 0)
    && e[11] == 0x0F && e[12] == 0 && e[13] == sum && e[26] == 0 && e[27] == 0
    && forall s :: 0 <= s < 13 ==> CharAt(e, s) == UnitAt(name, 13 * (ord - 1) + s)
  }

  // An entry is determined by the part it holds.
  lemma PartIsUnique(e: Slot, d: Slot, name: seq<word>, ord: nat, sum: byte)
    requires ord > 0 && IsPart(e, name, ord, sum) && IsPart(d, name, ord, sum)
    ensures e == d
  {
    forall s | 0 <= s < 13
      ensures e[LFN_OFS[s]] == d[LFN_OFS[s]] && e[LFN_OFS[s] + 1] == d[LFN_OFS[s] + 1]
    {
      assert CharAt(e, s) == CharAt(d, s);
    }
    forall k | 0 <= k < 32
      ensures e[k] == d[k]
    {
      if k == 0 || 11 <= k <= 13 || 26 <= k <= 27 {
      } else if k <= 10 {
        assert LFN_OFS[(k - 1) / 2] == 1 + (k - 1) / 2 * 2;
      } else if k <= 25 {
        assert LFN_OFS[(k - 14) / 2 + 5] == 14 + (k - 14) / 2 * 2;
      } else {
        assert LFN_OFS[(k - 28) / 2 + 11] == 28 + (k - 28) / 2 * 2;
      }
    }
  }

  // The offset of the s-th character in an entry: five from 1 on, six from 14 on, and two from 28 on.
  function CharOffset(s: nat): nat {
    if s < 5 then 1 + 2 * s else if s < 11 then 14 + 2 * (s - 5) else 28 + 2 * (s - 11)
  }

  // The entry that holds a part of a name, byte by byte.
  lemma PartInBytes(e: Slot, name: seq<word>, ord: nat, sum: byte, s: nat)
    requires ord > 0 && IsPart(e, name, ord, sum) && s < 13
    ensures e[CharOffset(s)] as int == UnitAt(name, 13 * (ord - 1) + s) % 0x100
    ensures e[CharOffset(s) + 1] as int == UnitAt(name, 13 * (ord - 1) + s) / 0x100
  {
    assert LFN_OFS[s] == CharOffset(s);
    assert CharAt(e, s) == UnitAt(name, 13 * (ord - 1) + s);
  }

  lemma HeldChar(b: seq<word>, name: seq<word>, i: nat)
    requires Holds(b, name) && i <= |name|
    ensures b[i] == UnitAt(name, i) && b[i] != 0xFFFF
  {
    if i < |name| {
      assert b[..|name|][i] == name[i];
    }
  }

  // The entry with its s-th character set.
  function WithChar(e: Slot, s: nat, c: word): Slot
    requires s < 13
  {
    StWord(e, LFN_OFS[s], c)
  }

  lemma WithCharAt(e: Slot, s: nat, c: word, r: nat)
    requires s < 13 && r < 13
    ensures CharAt(WithChar(e, s, c), r) == if r == s then c else CharAt(e, r)
    ensures var d := WithChar(e, s, c);
            d[0] == e[0] && d[11] == e[11] && d[12] == e[12] && d[13] == e[13] && d[26] == e[26] && d[27] == e[27]
  {
    if r == s {
      WordRoundTrip(e, LFN_OFS[s], c);
    } else {
      WordFrame(e, LFN_OFS[s], c, LFN_OFS[r]);
    }
  }

  lemma OrderApart(e: Slot, d: Slot)
    requires e[1..] == d[1..]
    ensures forall s :: 0 <= s < 13 ==> CharAt(d, s) == CharAt(e, s)
  {
    forall s | 0 <= s < 13
      ensures CharAt(d, s) == CharAt(e, s)
    {
      assert e[1..][LFN_OFS[s] - 1] == d[1..][LFN_OFS[s] - 1] && e[1..][LFN_OFS[s]] == d[1..][LFN_OFS[s]];
    }
  }

  // Write part ord of the name in lfnbuf into slot o of the window.
  method FitLfn(lfnbuf: array<word>, win: array<byte>, o: nat, ord: byte, sum: byte, ghost name: seq<word>)
    requires Holds(lfnbuf[..], name) && win.Length == 512 && o < 16
    requires 0 < ord <= Parts(name)
    modifies win
    ensures var x: Sector := old(win[..]);
            IsPart(SlotAt(win[..], o), name, ord, sum) && win[..] == WithSlot(x, o, SlotAt(win[..], o))
  {
    hide WithSlot, SlotAt, CharAt;
    ghost var x: Sector := win[..];
    SameSlot(x, o);
    ghost var e := SlotAt(x, o);
    SlotByte(x, o, e, 13, sum);
    win[32 * o + 13] := sum;
    e := e[13 := sum];
    SlotByte(x, o, e, 11, 0x0F);
    win[32 * o + 11] := 0x0F;
    e := e[11 := 0x0F];
    SlotByte(x, o, e, 12, 0);
    win[32 * o + 12] := 0;
    e := e[12 := 0];
    SlotWord(x, o, e, 26, 0);
    StoreWord(win, 32 * o + 26, 0);
    e := StWord(e, 26, 0);
    var more := FitChars(lfnbuf, win, o, ord, name, x, e);
    e := SlotAt(win[..], o);
    WithSlotAt(x, o, e, o);
    var b := if more then ord else ord + LLE;
    SlotByte(x, o, e, 0, b);
    win[32 * o] := b;
    WithSlotAt(x, o, e[0 := b], o);
    ghost var d: Slot := e[0 := b];
    OrderApart(e, d);
    NowPart(e, d, name, ord, sum, b);
    assert SlotAt(win[..], o) == d;
  }

  lemma NowPart(e: Slot, d: Slot, name: seq<word>, ord: nat, sum: byte, b: byte)
    requires 0 < ord && d == e[0 := b] && b as int == ord + if ord == Parts(name) then LLE else 0
    requires e[11] == 0x0F && e[12] == 0 && e[13] == sum && e[26] == 0 && e[27] == 0
    requires forall s :: 0 <= s < 13 ==> CharAt(e, s) == UnitAt(name, 13 * (ord - 1) + s)
    requires forall s :: 0 <= s < 13 ==> CharAt(d, s) == CharAt(e, s)
    ensures IsPart(d, name, ord, sum)
  {
    hide CharAt, UnitAt;
  }

  // Write the characters; more tells whether the name goes on behind them.
  method FitChars(lfnbuf: array<word>, win: array<byte>, o: nat, ord: byte, ghost name: seq<word>, ghost x: Sector,
                  ghost e0: Slot)
    returns (more: bool)
    requires Holds(lfnbuf[..], name) && win.Length == 512 && o < 16
    requires 0 < ord <= Parts(name) && win[..] == WithSlot(x, o, e0)
    modifies win
    ensures more == (ord < Parts(name))
    ensures var e := SlotAt(win[..], o);
            && win[..] == WithSlot(x, o, e)
            && e[11] == e0[11] && e[12] == e0[12] && e[13] == e0[13] && e[26] == e0[26] && e[27] == e0[27]
            && forall s :: 0 <= s < 13 ==> CharAt(e, s) == UnitAt(name, 13 * (ord - 1) + s)
  {
    hide WithSlot, CharAt;
    ghost var base := 13 * (ord - 1);
    ghost var e := e0;
    var i, s := 13 * (ord as int - 1), 0;
    var wc: word := 0;
    while s < 13
      invariant 0 <= s <= 13 && i == (if base + s <= |name| then base + s else |name| + 1)
      invariant wc == 0xFFFF <==> base + s > |name|
      invariant win[..] == WithSlot(x, o, e)
      invariant e[11] == e0[11] && e[12] == e0[12] && e[13] == e0[13] && e[26] == e0[26] && e[27] == e0[27]
      invariant forall r :: 0 <= r < s ==> CharAt(e, r) == UnitAt(name, base + r)
    {
      if wc != 0xFFFF {
        HeldChar(lfnbuf[..], name, i);
        wc := lfnbuf[i];
        i := i + 1;
      }
      SlotWord(x, o, e, LFN_OFS[s], wc);
      StoreWord(win, 32 * o + LFN_OFS[s], wc);
      forall r | 0 <= r < 13
        ensures CharAt(WithChar(e, s, wc), r) == if r == s then wc else CharAt(e, r)
      {
        WithCharAt(e, s, wc, r);
      }
      WithCharAt(e, s, wc, s);
      e := WithChar(e, s, wc);
      if wc == 0 { wc := 0xFFFF; }
      s := s + 1;
    }
    WithSlotAt(x, o, e, o);
    if wc != 0xFFFF { HeldChar(lfnbuf[..], name, i); }
    more := !(wc == 0xFFFF || lfnbuf[i] == 0);
  }

  // ----- putting a name together

  // The offset in the name of part ord, in the unsigned arithmetic of the code.
  function PartOffset(ord: nat): dword {
    (13 * (ord as int - 1)) % 0x1_0000_0000
  }

  // The buffer index behind part ord of the name.
  function PartEnd(name: seq<word>, ord: nat): nat {
    if 13 * ord <= |name| then 13 * ord else |name| + 1
  }

  lemma PartChars(e: Slot, name: seq<word>, ord: nat, sum: byte)
    requires 0 < ord <= Parts(name) && |name| <= MAX_LFN && IsName(name) && IsPart(e, name, ord, sum)
    ensures PartOffset(e[0] as int % 0x40) == 13 * (ord - 1) <= |name| && (e[0] / LLE % 2 == 1 <==> ord == Parts(name))
    ensures ord < Parts(name) ==> 13 * ord < |name|
    ensures forall s :: 0 <= s < 13 ==> CharAt(e, s) == UnitAt(name, 13 * (ord - 1) + s)
    ensures forall p :: 0 <= p ==> (UnitAt(name, p) == 0 <==> p == |name|) && (UnitAt(name, p) == 0xFFFF <==>
        p > |name|)
  {
    hide CharAt;
  }

  // Copy the characters of entry e into the buffer; fails where the buffer ends.
  method PickLfn(lfnbuf: array<word>, e: Slot, ghost name: seq<word>, ghost ord: nat, ghost sum: byte)
    returns (ok: bool)
    requires lfnbuf.Length == MAX_LFN + 1
    modifies lfnbuf
    ensures 0 < ord <= Parts(name) && |name| <= MAX_LFN && IsName(name) && IsPart(e, name, ord, sum) ==>
              && ok == (if ord == Parts(name) then PartEnd(name, ord) < MAX_LFN else PartEnd(name, ord) <= MAX_LFN)
              && (ok ==> forall p :: 0 <= p <= MAX_LFN ==>
                    lfnbuf[p] == if 13 * (ord - 1) <= p < PartEnd(name, ord) then UnitAt(name, p)
                                 else if ord == Parts(name) && p == PartEnd(name, ord) then 0 else old(lfnbuf[p]))
  {
    hide IsPart, CharAt, Parts, UnitAt, IsName;
    ghost var proper := 0 < ord <= Parts(name) && |name| <= MAX_LFN && IsName(name) && IsPart(e, name, ord, sum);
    ghost var base: int := 13 * (ord - 1);
    if proper {
      PartChars(e, name, ord, sum);
    }
    var i: nat := PartOffset(e[0] as int % 0x40);
    var s := 0;
    var wc: word := 1;
    while s < 13
      invariant 0 <= s <= 13
      invariant proper ==> i == (if base + s <= |name| then base + s else |name| + 1)
      invariant proper ==> (wc == 0 <==> base + s > |name|) && (s > 0 ==> i <= MAX_LFN)
      invariant proper ==> forall p :: 0 <= p <= MAX_LFN ==> lfnbuf[p] == if base <= p < i then UnitAt(name, p)
          else old(lfnbuf[p])
    {
      var uc := CharAt(e, s);
      if wc != 0 {
        if i >= MAX_LFN { return false; }
        wc := uc;
        lfnbuf[i] := uc;
        i := i + 1;
      } else {
        if uc != 0xFFFF { return false; }
      }
      s := s + 1;
    }
    if e[0] / LLE % 2 == 1 {
      if i >= MAX_LFN { return false; }
      lfnbuf[i] := 0;
    }
    return true;
  }

  // The entries of a name in directory order, the last part first.
  predicate AreParts(es: seq<Slot>, name: seq<word>, sum: byte) {
    |es| == Parts(name) && forall k :: 0 <= k < |es| ==> IsPart(es[k], name, |es| - k, sum)
  }

  // Put a name together from its entries: this succeeds for up to 253 characters, and gives back the name.
  method PickAll(lfnbuf: array<word>, es: seq<Slot>, ghost name: seq<word>, ghost sum: byte) returns (ok: bool)
    requires lfnbuf.Length == MAX_LFN + 1
    requires 0 < |name| <= MAX_LFN && IsName(name) && AreParts(es, name, sum)
    modifies lfnbuf
    ensures ok <==> |name| <= 253
    ensures ok ==> Holds(lfnbuf[..], name)
  {
    var k := 0;
    while k < |es|
      invariant 0 <= k <= |es| && (k > 0 ==> |name| <= 253)
      invariant k > 0 ==> forall p :: 13 * (|es| - k) <= p <= |name| ==> lfnbuf[p] == UnitAt(name, p)
    {
      ok := PickLfn(lfnbuf, es[k], name, |es| - k, sum);
      if !ok { return; }
      k := k + 1;
    }
    assert lfnbuf[..][..|name|] == name;
    return true;
  }

  // ----- comparing names

  // The comparison of entry e with the name in buffer b, from character s of the entry and index i of the buffer on;
  // live tells that the end of the stored name was not seen yet.
  predicate CompareFrom(b: seq<word>, e: Slot, up: word -> word, s: nat, i: nat, live: bool)
    requires |b| == MAX_LFN + 1 && s <= 13 && (s == 13 && live ==> i <= MAX_LFN)
    decreases 13 - s
  {
    if s == 13 then !(e[0] / LLE % 2 == 1 && live && b[i] != 0)
    else if live then i < MAX_LFN && up(CharAt(e, s)) == up(b[i])
      && CompareFrom(b, e, up, s + 1, i + 1, up(CharAt(e, s)) != 0)
    else CharAt(e, s) == 0xFFFF && CompareFrom(b, e, up, s + 1, i, false)
  }

  // The order number of an entry without the mark of the last part.
  function Order(e: Slot): nat {
    if e[0] / LLE % 2 == 1 then e[0] as int - LLE else e[0]
  }

  predicate Compare(b: seq<word>, e: Slot, up: word -> word)
    requires |b| == MAX_LFN + 1
  {
    CompareFrom(b, e, up, 0, PartOffset(Order(e)), true)
  }

  method CmpLfn(lfnbuf: array<word>, e: Slot, up: word -> word) returns (equal: bool)
    requires lfnbuf.Length == MAX_LFN + 1
    ensures equal == Compare(lfnbuf[..], e, up)
  {
    var i: nat := PartOffset(Order(e));
    var s := 0;
    var wc: word := 1;
    while s < 13
      invariant 0 <= s <= 13 && (s > 0 && wc != 0 ==> i <= MAX_LFN)
      invariant CompareFrom(lfnbuf[..], e, up, s, i, wc != 0) == Compare(lfnbuf[..], e, up)
    {
      var uc := CharAt(e, s);
      if wc != 0 {
        wc := up(uc);
        if i >= MAX_LFN || wc != up(lfnbuf[i]) { return false; }
        i := i + 1;
      } else {
        if uc != 0xFFFF { return false; }
      }
      s := s + 1;
    }
    return !(e[0] / LLE % 2 == 1 && wc != 0 && lfnbuf[i] != 0);
  }

  // Upper-casing maps only 0 to 0.
  ghost predicate UpperCases(up: word -> word) {
    forall c :: up(c) == 0 <==> c == 0
  }

  // The character at index p of the stored name agrees with the buffer.
  predicate CharAgrees(b: seq<word>, name: seq<word>, up: word -> word, p: nat)
    requires |b| == MAX_LFN + 1
  {
    p <= |name| ==> p < MAX_LFN && up(UnitAt(name, p)) == up(b[p])
  }

  predicate AllAgree(b: seq<word>, name: seq<word>, up: word -> word, lo: nat, hi: nat)
    requires |b| == MAX_LFN + 1
  {
    forall p :: lo <= p < hi ==> CharAgrees(b, name, up, p)
  }

  lemma AllAgreeSplit(b: seq<word>, name: seq<word>, up: word -> word, lo: nat, hi: nat)
    requires |b| == MAX_LFN + 1 && lo < hi
    ensures AllAgree(b, name, up, lo, hi) <==> CharAgrees(b, name, up, lo) && AllAgree(b, name, up, lo + 1, hi)
  {
  }

  // What comparing part ord of the name comes down to.
  predicate PartMatches(b: seq<word>, name: seq<word>, ord: nat, up: word -> word)
    requires |b| == MAX_LFN + 1 && 0 < ord
  {
    && AllAgree(b, name, up, 13 * (ord - 1), 13 * ord)
    && (|name| == 13 * ord && |name| <= MAX_LFN ==> b[|name|] == 0)
  }

  // Two names are equal up to case.
  predicate SameName(m: seq<word>, name: seq<word>, up: word -> word) {
    |m| == |name| && forall i :: 0 <= i < |m| ==> up(m[i]) == up(name[i])
  }

  lemma {:induction false} CompareTail(b: seq<word>, e: Slot, up: word -> word, name: seq<word>, ord: nat, sum: byte,
                                       s: nat)
    requires |b| == MAX_LFN + 1 && UpperCases(up) && |name| <= MAX_LFN && IsName(name)
    requires 0 < ord <= Parts(name) && IsPart(e, name, ord, sum) && s <= 13
    requires 13 * (ord - 1) + s <= MAX_LFN || 13 * (ord - 1) + s > |name|
    ensures var p := 13 * (ord - 1) + s;
            CompareFrom(b, e, up, s, if p <= |name| then p else |name| + 1, p <= |name|) <==>
            && AllAgree(b, name, up, p, 13 * ord)
            && (|name| == 13 * ord && |name| <= MAX_LFN ==> b[|name|] == 0)
    decreases 13 - s
  {
    var p := 13 * (ord - 1) + s;
    if s < 13 {
      assert CharAt(e, s) == UnitAt(name, p);
      AllAgreeSplit(b, name, up, p, 13 * ord);
      hide AllAgree;
      if p > |name| || p < MAX_LFN {
        CompareTail(b, e, up, name, ord, sum, s + 1);
      }
    }
  }

  // An entry passes the comparison exactly when its part of the name agrees with the buffer.
  lemma CompareIsMatch(b: seq<word>, e: Slot, up: word -> word, name: seq<word>, ord: nat, sum: byte)
    requires |b| == MAX_LFN + 1 && UpperCases(up) && |name| <= MAX_LFN && IsName(name)
    requires 0 < ord <= Parts(name) && IsPart(e, name, ord, sum)
    ensures Compare(b, e, up) <==> PartMatches(b, name, ord, up)
  {
    hide CompareFrom, AllAgree, IsPart, PartOffset, Order;
    PartOrder(e, name, ord, sum);
    CompareTail(b, e, up, name, ord, sum, 0);
  }

  lemma PartOrder(e: Slot, name: seq<word>, ord: nat, sum: byte)
    requires |name| <= MAX_LFN && 0 < ord <= Parts(name) && IsPart(e, name, ord, sum)
    ensures Order(e) == ord && PartOffset(Order(e)) == 13 * (ord - 1) && (e[0] / LLE % 2 == 1 <==> ord == Parts(name))
  {
  }

  // All parts of a name agree with the buffer exactly when the names are equal up to case, except that a name
  // of 255 characters never compares equal.
  lemma AllAgreeIffSame(b: seq<word>, m: seq<word>, up: word -> word, name: seq<word>)
    requires Holds(b, m) && UpperCases(up) && 0 < |name| <= MAX_LFN && IsName(name)
    ensures (forall ord :: 0 < ord <= Parts(name) ==> PartMatches(b, name, ord, up)) <==>
        |name| <= 254 && SameName(m, name, up)
  {
    if forall ord :: 0 < ord <= Parts(name) ==> PartMatches(b, name, ord, up) {
      MatchIsSame(b, m, up, name);
    }
    if |name| <= 254 && SameName(m, name, up) {
      forall ord | 0 < ord <= Parts(name)
        ensures PartMatches(b, name, ord, up)
      {
        forall p | 13 * (ord - 1) <= p < 13 * ord
          ensures CharAgrees(b, name, up, p)
        {
          if p <= |name| {
            HeldChar(b, m, p);
          }
        }
      }
    }
  }

  // The stored entries of a name all pass the comparison exactly when the names are equal up to case, except that a
  // name of 255 characters never compares equal.
  lemma AllMatchIffSame(b: seq<word>, m: seq<word>, up: word -> word, es: seq<Slot>, name: seq<word>, sum: byte)
    requires Holds(b, m) && UpperCases(up) && 0 < |name| <= MAX_LFN && IsName(name) && AreParts(es, name, sum)
    ensures (forall i :: 0 <= i < |es| ==> Compare(b, es[i], up)) <==> |name| <= 254 && SameName(m, name, up)
  {
    hide Compare, PartMatches, IsPart, SameName;
    forall i | 0 <= i < |es|
      ensures Compare(b, es[i], up) <==> PartMatches(b, name, |es| - i, up)
    {
      CompareIsMatch(b, es[i], up, name, |es| - i, sum);
    }
    if forall i :: 0 <= i < |es| ==> Compare(b, es[i], up) {
      forall ord | 0 < ord <= Parts(name)
        ensures PartMatches(b, name, ord, up)
      {
        assert Compare(b, es[|es| - ord], up);
      }
    }
    AllAgreeIffSame(b, m, up, name);
  }

  lemma MatchIsSame(b: seq<word>, m: seq<word>, up: word -> word, name: seq<word>)
    requires Holds(b, m) && UpperCases(up) && 0 < |name| <= MAX_LFN && IsName(name)
    requires forall ord :: 0 < ord <= Parts(name) ==> PartMatches(b, name, ord, up)
    ensures |name| <= 254 && SameName(m, name, up)
  {
    forall p | 0 <= p < |name| || (p == |name| && p % 13 != 0)
      ensures CharAgrees(b, name, up, p)
    {
      assert PartMatches(b, name, p / 13 + 1, up);
    }
    assert PartMatches(b, name, Parts(name), up);
    assert |name| % 13 != 0 ==> CharAgrees(b, name, up, |name|) && up(0) == up(b[|name|]);
    HeldChar(b, m, |m|);
    var p := if |m| < |name| then |m| else 0;
    assert CharAgrees(b, name, up, p);
    if |m| >= |name| {
      HeldChar(b, m, |name|);
    }
    forall i | 0 <= i < |m|
      ensures up(m[i]) == up(name[i])
    {
      HeldChar(b, m, i);
      assert CharAgrees(b, name, up, i);
    }
  }
}
