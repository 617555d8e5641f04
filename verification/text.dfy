/**
 Text files: putting characters and strings, and getting them back line by line, over the
 byte stream of an open file. LF is written as CR LF, and CR is dropped on reading.
*/
module Text {
  import opened Bytes
  import opened DiskIO
  import opened FileGrowth
  import opened FileMap
  import opened Files
  import opened Ordering
  import opened Reopening
  import opened SeekMap
  import opened Seeking
  import opened Volumes

  const LF: byte := 10
  const CR: byte := 13
  const EOF := -1

  // ----- what is written, and what reading makes of it

  function ConvertedChar(c: byte): seq<byte> {
    if c == LF then [CR, LF] else [c]
  }

  function Converted(s: seq<byte>): seq<byte> {
    if s == [] then [] else ConvertedChar(s[0]) + Converted(s[1..])
  }

  function Stripped(s: seq<byte>): seq<byte> {
    if s == [] then [] else (if s[0] == CR then [] else [s[0]]) + Stripped(s[1..])
  }

  lemma {:induction false} StrippedJoin(s: seq<byte>, t: seq<byte>)
    ensures Stripped(s + t) == Stripped(s) + Stripped(t)
  {
    if s == [] {
      assert s + t == t;
    } else {
      assert (s + t)[1..] == s[1..] + t;
      StrippedJoin(s[1..], t);
    }
  }

  lemma {:induction false} ConvertedJoin(s: seq<byte>, t: seq<byte>)
    ensures Converted(s + t) == Converted(s) + Converted(t)
  {
    if s == [] {
      assert s + t == t;
    } else {
      assert (s + t)[1..] == s[1..] + t;
      ConvertedJoin(s[1..], t);
    }
  }

  // Stripping undoes the conversion of every string without CR.
  lemma {:induction false} StrippedConverted(s: seq<byte>)
    requires CR !in s
    ensures Stripped(Converted(s)) == s
  {
    if s != [] {
      StrippedConverted(s[1..]);
      StrippedJoin(ConvertedChar(s[0]), Converted(s[1..]));
      assert Stripped(ConvertedChar(s[0])) == [s[0]] by {
        assert ConvertedChar(LF)[1..] == [LF] && [s[0]][1..] == [];
        assert Stripped([s[0]]) == [s[0]] + Stripped([]);
      }
    }
  }

  // The number of LFs among the characters of s.
  function LfCount(s: seq<byte>): nat {
    multiset(s)[LF]
  }

  // Where character i of s stands among the bytes written: every LF up to it has a CR put in.
  function PlaceOf(s: seq<byte>, i: nat): nat
    requires i < |s|
  {
    i + LfCount(s[..i + 1])
  }

  // The bytes d are the characters of s in order, each LF with a CR directly in front of it, and nothing else.
  ghost predicate IsConversion(s: seq<byte>, d: seq<byte>) {
    && |d| == |s| + LfCount(s)
    && forall i :: 0 <= i < |s| ==> Placed(s, d, i)
  }

  predicate Placed(s: seq<byte>, d: seq<byte>, i: nat)
    requires i < |s|
  {
    var p := PlaceOf(s, i);
    p < |d| && d[p] == s[i] && (s[i] == LF ==> p > 0 && d[p - 1] == CR)
  }

  lemma CountNext(s: seq<byte>, c: byte)
    requires s != []
    ensures multiset(s)[c] == multiset(s[..|s| - 1])[c] + if s[|s| - 1] == c then 1 else 0
  {
    assert s == s[..|s| - 1] + [s[|s| - 1]];
  }

  lemma {:induction false} ConvertedIsConversion(s: seq<byte>)
    ensures IsConversion(s, Converted(s))
    decreases |s|
  {
    hide Converted, ConvertedChar, Placed, LfCount;
    if s == [] {
      NoText();
    } else {
      var k := |s| - 1;
      var d := Converted(s[..k]);
      ConvertedIsConversion(s[..k]);
      ConvertedLast(s);
      LastPlaced(s, d);
      forall i | 0 <= i < k
        ensures Placed(s, Converted(s), i)
      {
        PlacedAlong(s, d, i);
      }
    }
  }

  lemma NoText()
    ensures Converted([]) == [] && LfCount([]) == 0
  {
  }

  lemma LastPlaced(s: seq<byte>, d: seq<byte>)
    requires s != [] && |d| == |s| - 1 + LfCount(s[..|s| - 1])
    ensures var e := d + ConvertedChar(s[|s| - 1]); |e| == |s| + LfCount(s) && Placed(s, e, |s| - 1)
  {
    CountNext(s, LF);
    assert s[..|s| - 1 + 1] == s;
  }

  lemma PlacedAlong(s: seq<byte>, d: seq<byte>, i: nat)
    requires i < |s| - 1 && Placed(s[..|s| - 1], d, i)
    ensures forall e :: d <= e ==> Placed(s, e, i)
  {
    assert s[..|s| - 1][..i + 1] == s[..i + 1];
  }

  lemma ConvertedLast(s: seq<byte>)
    requires s != []
    ensures Converted(s) == Converted(s[..|s| - 1]) + ConvertedChar(s[|s| - 1])
  {
    hide Converted, ConvertedChar;
    var c := s[|s| - 1];
    assert s == s[..|s| - 1] + [c];
    ConvertedJoin(s[..|s| - 1], [c]);
    ConvertedOne(c);
  }

  lemma ConvertedOne(c: byte)
    ensures Converted([c]) == ConvertedChar(c)
  {
  }

  // The number of CRs among the characters of s.
  function CrCount(s: seq<byte>): nat {
    multiset(s)[CR]
  }

  predicate Moved(s: seq<byte>, r: seq<byte>, i: nat)
    requires i < |s|
  {
    s[i] != CR ==> 0 <= i - CrCount(s[..i]) < |r| && r[i - CrCount(s[..i])] == s[i]
  }

  // Stripping leaves out the CRs and nothing else: every other byte moves forward by the CRs in front of it.
  lemma {:induction false} StrippedLeavesRest(s: seq<byte>)
    ensures |Stripped(s)| == |s| - CrCount(s)
    ensures forall i :: 0 <= i < |s| ==> Moved(s, Stripped(s), i)
    decreases |s|
  {
    if s == [] {
      assert multiset(s) == multiset{};
    } else {
      var k := |s| - 1;
      var t, r := s[..k], Stripped(s[..k]);
      StrippedLeavesRest(t);
      assert s == t + [s[k]] && [s[k]][1..] == [];
      StrippedJoin(t, [s[k]]);
      CountNext(s, CR);
      forall i | 0 <= i < k
        ensures Moved(s, Stripped(s), i)
      {
        MovedAlong(s, r, i);
      }
    }
  }

  lemma MovedAlong(s: seq<byte>, r: seq<byte>, i: nat)
    requires i < |s| - 1 && Moved(s[..|s| - 1], r, i)
    ensures forall t :: r <= t ==> Moved(s, t, i)
  {
    assert s[..|s| - 1][..i] == s[..i];
  }

  // ----- lines

  datatype Line = Line(text: seq<byte>, used: nat)

  // What one call with room for n characters takes from the bytes d.
  function NextLine(d: seq<byte>, n: nat): (r: Line)
    ensures |r.text| <= r.used <= |d| && |r.text| <= n
  {
    if n == 0 || d == [] then Line([], 0)
    else if d[0] == CR then
      var r := NextLine(d[1..], n);
      Line(r.text, r.used + 1)
    else if d[0] == LF then Line([LF], 1)
    else
      var r := NextLine(d[1..], n - 1);
      Line([d[0]] + r.text, r.used + 1)
  }

  // The line r is the next n characters of the stripped stream d, or fewer: it stops only behind an LF, with n
  // characters or at the end, and no LF is inside it. What it used is what it leaves out.
  ghost predicate Splits(d: seq<byte>, n: nat, r: Line) {
    && |r.text| <= n && r.used <= |d| && Stripped(d) == r.text + Stripped(d[r.used..])
    && (|r.text| == n || r.used == |d| || (r.text != [] && r.text[|r.text| - 1] == LF))
    && forall i :: 0 <= i < |r.text| - 1 ==> r.text[i] != LF
  }

  lemma SplitsNothing(d: seq<byte>, n: nat)
    requires n == 0 || d == []
    ensures Splits(d, n, Line([], 0))
  {
    assert d[0..] == d;
  }

  lemma SplitsLf(d: seq<byte>, n: nat)
    requires n > 0 && d != [] && d[0] == LF
    ensures Splits(d, n, Line([LF], 1))
  {
  }

  lemma SplitsCr(d: seq<byte>, n: nat, r: Line)
    requires d != [] && d[0] == CR && Splits(d[1..], n, r)
    ensures Splits(d, n, Line(r.text, r.used + 1))
  {
    assert d[1..][r.used..] == d[r.used + 1..];
  }

  lemma SplitsChar(d: seq<byte>, n: nat, r: Line)
    requires d != [] && d[0] != CR && d[0] != LF && Splits(d[1..], n, r)
    ensures Splits(d, n + 1, Line([d[0]] + r.text, r.used + 1))
  {
    assert d[1..][r.used..] == d[r.used + 1..];
    assert Stripped(d) == [d[0]] + Stripped(d[1..]);
    assert [d[0]] + (r.text + Stripped(d[1..][r.used..])) == [d[0]] + r.text + Stripped(d[1..][r.used..]);
  }

  lemma {:induction false} LineSplits(d: seq<byte>, n: nat)
    ensures Splits(d, n, NextLine(d, n))
    decreases |d|
  {
    hide Splits, Stripped;
    if n == 0 || d == [] {
      SplitsNothing(d, n);
    } else if d[0] == LF {
      SplitsLf(d, n);
    } else if d[0] == CR {
      LineSplits(d[1..], n);
      SplitsCr(d, n, NextLine(d[1..], n));
    } else {
      LineSplits(d[1..], n - 1);
      SplitsChar(d, n - 1, NextLine(d[1..], n - 1));
    }
  }

  // The lines of repeated calls with room for n characters.
  function Lines(d: seq<byte>, n: nat): (ls: seq<seq<byte>>)
    requires n > 0
    decreases |d|
  {
    var r := NextLine(d, n);
    if r.text == [] then [] else [r.text] + Lines(d[r.used..], n)
  }

  function Joined(ls: seq<seq<byte>>): seq<byte> {
    if ls == [] then [] else ls[0] + Joined(ls[1..])
  }

  lemma {:induction false} LinesAreAll(d: seq<byte>, n: nat)
    requires n > 0
    ensures Joined(Lines(d, n)) == Stripped(d)
    decreases |d|
  {
    LineSplits(d, n);
    var r := NextLine(d, n);
    if r.text == [] {
      assert d[r.used..] == [];
    } else {
      LinesAreAll(d[r.used..], n);
      assert Lines(d, n)[1..] == Lines(d[r.used..], n);
    }
  }

  // A string without CR is what the lines of its converted form come to, whatever the buffer length.
  lemma TextRoundTrip(s: seq<byte>, n: nat)
    requires n > 0 && CR !in s
    ensures Joined(Lines(Converted(s), n)) == s
  {
    LinesAreAll(Converted(s), n);
    StrippedConverted(s);
  }

  // Overwriting part of a file with a string: from there on the file reads as the string and what was behind it.
  lemma PatchedReads(d: seq<byte>, pos: nat, s: seq<byte>)
    requires pos <= |d| && CR !in s
    ensures var r, k := Patch(d, pos, Converted(s)), pos + |Converted(s)|;
            Stripped(r[pos..]) == s + if k < |d| then Stripped(d[k..]) else []
  {
    hide Converted, Stripped;
    var x := Converted(s);
    var tail := if pos + |x| < |d| then d[pos + |x|..] else [];
    PatchTail(d, pos, x, tail);
    StrippedJoin(x, tail);
    StrippedConverted(s);
    assert pos + |x| >= |d| ==> Stripped(tail) == [] by { StrippedNothing(); }
  }

  lemma PatchTail(d: seq<byte>, pos: nat, x: seq<byte>, tail: seq<byte>)
    requires pos <= |d| && tail == if pos + |x| < |d| then d[pos + |x|..] else []
    ensures Patch(d, pos, x)[pos..] == x + tail
  {
  }

  lemma StrippedNothing()
    ensures Stripped([]) == []
  {
  }

  // ----- putting characters and strings

  // A file in order, on a volume whose FAT has no invalid entries.
  ghost predicate Usable(f: File)
    reads f, f.buf, f.fs, f.fs.win, f.fs.disk
  {
    f.Valid() && FreeIsUnused(f.fs.g, f.fs.fat, f.fs.meta) && !HasOne(f.fs.fat)
  }

  lemma UsableFacts(f: File)
    requires Usable(f)
    ensures f.Valid() && FreeIsUnused(f.fs.g, f.fs.fat, f.fs.meta) && !HasOne(f.fs.fat)
    ensures f.fptr <= f.fsize == |f.contents| <= 512 * Capacity(f.fs.g, f.chain) && f.fs.g.nFatent >= 2
  {
  }

  lemma StillUsable(f: File, h: seq<nat>, cs: seq<dword>)
    requires f.Valid() && FreeIsUnused(f.fs.g, f.fs.fat, f.fs.meta) && !HasOne(h) && Grown(h, f.fs.fat, cs, f.chain)
    ensures Usable(f)
  {
    if HasOne(f.fs.fat) {
      f.NoNewOne(h, cs);
    }
  }

  // Not one more byte can be written.
  ghost predicate Stuck(f: File)
    reads f, f.fs
  {
    f.error || !f.canWrite || f.fsize == 0xFFFF_FFFF || f.Full()
  }

  // A chain does not grow on a full volume.
  lemma NoRoom(h: seq<nat>, f: seq<nat>, cs: seq<dword>, ds: seq<dword>)
    requires Grown(h, f, cs, ds) && NoneFree(h)
    requires forall i :: |cs| <= i < |ds| ==> ds[i] >= 2
    ensures cs == ds
  {
    var next := if |cs| < |ds| then ds[|cs|] else 2;
    assert 2 <= next;
  }

  lemma ChainInside(f: File)
    requires f.Valid()
    ensures forall i :: 0 <= i < |f.chain| ==> f.chain[i] >= 2
  {
  }

  // What a byte written at the pointer of a file with contents d makes of it: n bytes of x arrive.
  ghost predicate Arrives(f: File, d: seq<byte>, pos: nat, x: seq<byte>, n: nat)
    requires pos <= |d|
    reads f
  {
    n <= |x| && f.fptr == pos + n && f.contents == Patch(d, pos, x[..n])
  }

  // Write one byte.
  method PutByte(f: File, c: byte) returns (bw: nat)
    requires Usable(f)
    modifies f, f.buf, f.fs, f.fs.win, f.fs.disk
    ensures Usable(f) && old(f.fptr <= |f.contents|) && f.error == old(f.error) && f.fs.meta == old(f.fs.meta)
    ensures bw <= 1 && Arrives(f, old(f.contents), old(f.fptr), [c], bw)
    ensures bw == 0 ==> Stuck(f)
    ensures old(Stuck(f)) ==> bw == 0
    ensures old(f.written) || bw > 0 ==> f.written
    ensures InOrder(f.fs.g, old(f.fs.steps)) ==> InOrder(f.fs.g, f.fs.steps)
    ensures old(f.fs.disk.log) <= f.fs.disk.log && old(f.fs.steps) <= f.fs.steps
  {
    hide File.Valid, FreeIsUnused, HasOne, Grown, OnlyIn, InOrder, NoneFree, Usable, Capacity, Patch, Volume.Valid;
    UsableFacts(f);
    var res;
    ghost var h, cs, d, pos := f.fs.fat, f.chain, f.contents, f.fptr;
    res, bw := f.FWrite([c]);
    assert res == Ok ==> [c][..bw] == if bw == 1 then [c] else [];
    if res != Ok {
      NothingGrown(h, cs);
      PatchedNothing(d, pos);
    }
    StillUsable(f, h, cs);
    UsableFacts(f);
    ChainInside(f);
    if NoneFree(h) {
      NoRoom(h, f.fs.fat, cs, f.chain);
    }
  }

  // Put a character; the result is 1, or EOF if the volume is full or the file not writable.
  method FPutc(f: File, c: byte) returns (r: int, ghost n: nat)
    requires Usable(f)
    modifies f, f.buf, f.fs, f.fs.win, f.fs.disk
    ensures Usable(f) && old(f.fptr <= |f.contents|) && f.error == old(f.error) && f.fs.meta == old(f.fs.meta)
    ensures Arrives(f, old(f.contents), old(f.fptr), ConvertedChar(c), n)
    ensures r == if n == |ConvertedChar(c)| then 1 else EOF
    ensures r == EOF ==> Stuck(f)
    ensures old(Stuck(f)) ==> n == 0
    ensures old(f.written) || n > 0 ==> f.written
    ensures InOrder(f.fs.g, old(f.fs.steps)) ==> InOrder(f.fs.g, f.fs.steps)
    ensures old(f.fs.disk.log) <= f.fs.disk.log && old(f.fs.steps) <= f.fs.steps
    decreases c == LF
  {
    hide Usable, Stuck, InOrder, Patch, File.Valid, HasOne, FreeIsUnused, Volume.Valid, Capacity;
    ghost var d, pos := f.contents, f.fptr;
    n := 0;
    UsableFacts(f);
    PatchedNothing(d, pos);
    if c == LF {
      var ignored;
      ignored, n := FPutc(f, CR);
    }
    var bw := PutByte(f, c);
    PatchesJoin(d, pos, ConvertedChar(c)[..n], [c][..bw]);
    assert ConvertedChar(c)[..n] + [c][..bw] == ConvertedChar(c)[..n + bw];
    n := n + bw;
    r := if bw == 1 then 1 else EOF;
  }

  // The k-th part of what a string is written as.
  lemma ConvertedNext(s: seq<byte>, i: nat, k: nat)
    requires i < |s| && k <= |ConvertedChar(s[i])|
    ensures var e := |Converted(s[..i])|;
            && e + k <= |Converted(s)| && Converted(s)[..e + k] == Converted(s[..i]) + ConvertedChar(s[i])[..k]
            && (k == |ConvertedChar(s[i])| ==> |Converted(s[..i + 1])| == e + k)
            && (k < |ConvertedChar(s[i])| ==> e + k < |Converted(s)|)
  {
    hide Converted, ConvertedChar;
    assert s == s[..i + 1] + s[i + 1..] && s[..i + 1][..i] == s[..i];
    ConvertedJoin(s[..i + 1], s[i + 1..]);
    ConvertedLast(s[..i + 1]);
  }

  // The part arrives behind what has arrived before.
  lemma NextArrives(d: seq<byte>, pos: nat, s: seq<byte>, i: nat, n: nat, k: nat)
    requires pos <= |d| && i < |s| && k <= |ConvertedChar(s[i])| && n == |Converted(s[..i])|
    ensures n + k <= |Converted(s)|
    ensures Patch(Patch(d, pos, Converted(s)[..n]), pos + n, ConvertedChar(s[i])[..k]) == Patch(d, pos,
        Converted(s)[..n + k])
    ensures k == |ConvertedChar(s[i])| ==> |Converted(s[..i + 1])| == n + k
    ensures k < |ConvertedChar(s[i])| ==> n + k < |Converted(s)|
  {
    hide Converted, ConvertedChar, Patch;
    ConvertedNext(s, i, 0);
    ConvertedNext(s, i, k);
    PatchesJoin(d, pos, Converted(s)[..n], ConvertedChar(s[i])[..k]);
  }

  // The array holds the string s.
  ghost predicate Terminated(a: seq<byte>, s: seq<byte>) {
    |s| < |a| && a[..|s|] == s && a[|s|] == 0 && 0 !in s
  }

  // Put a string; the result is the number of its characters, or EOF if the volume is full or the file not writable.
  method FPuts(f: File, str: array<byte>, ghost s: seq<byte>) returns (r: int, ghost n: nat)
    requires Usable(f) && Terminated(str[..], s) && str != f.buf && str != f.fs.win
    modifies f, f.buf, f.fs, f.fs.win, f.fs.disk
    ensures Usable(f) && old(f.fptr <= |f.contents|) && f.error == old(f.error) && f.fs.meta == old(f.fs.meta)
    ensures Arrives(f, old(f.contents), old(f.fptr), Converted(s), n)
    ensures r == if n == |Converted(s)| then |s| else EOF
    ensures r != EOF ==>
              && old(f.fptr) <= f.fptr <= |f.contents| && f.contents[..old(f.fptr)] == old(f.contents[..f.fptr])
              && IsConversion(s, f.contents[old(f.fptr)..f.fptr])
    ensures n > 0 ==> f.written
    ensures r == EOF ==> Stuck(f)
    ensures InOrder(f.fs.g, old(f.fs.steps)) ==> InOrder(f.fs.g, f.fs.steps)
    ensures old(f.fs.disk.log) <= f.fs.disk.log && old(f.fs.steps) <= f.fs.steps
  {
    hide Usable, Stuck, InOrder, Patch, File.Valid, HasOne, FreeIsUnused, Volume.Valid, Capacity, Converted;
    hide ConvertedChar, IsConversion;
    ghost var d, pos := f.contents, f.fptr;
    UsableFacts(f);
    PatchedNothing(d, pos);
    NoText();
    var i := 0;
    n := 0;
    assert s[..0] == [] && Converted(s)[..0] == [];
    while str[i] != 0
      invariant i <= |s| && str[..] == old(str[..]) && n == |Converted(s[..i])|
      invariant f.fs.meta == old(f.fs.meta)
      invariant Usable(f) && f.error == old(f.error) && Arrives(f, d, pos, Converted(s), n) && (n > 0 ==> f.written)
      invariant InOrder(f.fs.g, old(f.fs.steps)) ==> InOrder(f.fs.g, f.fs.steps)
      invariant old(f.fs.disk.log) <= f.fs.disk.log && old(f.fs.steps) <= f.fs.steps
      decreases |s| - i
    {
      assert str[..][i] != 0;
      var c := str[i];
      assert c == s[i];
      ghost var k;
      r, k := FPutc(f, c);
      NextArrives(d, pos, s, i, n, k);
      n := n + k;
      if r == EOF { return; }
      i := i + 1;
    }
    assert i == |s| && s[..i] == s;
    r := i;
    ConvertedIsConversion(s);
    WholeArrived(f, d, pos, Converted(s));
  }

  // All of x arrived.
  lemma WholeArrived(f: File, d: seq<byte>, pos: nat, x: seq<byte>)
    requires pos <= |d| && Arrives(f, d, pos, x, |x|)
    ensures pos <= f.fptr <= |f.contents| && f.contents[..pos] == d[..pos] && f.contents[pos..f.fptr] == x
  {
  }

  // ----- getting strings

  // What a file still has to offer from its pointer on.
  ghost function Ahead(f: File): seq<byte>
    requires f.fptr <= |f.contents|
    reads f
  {
    if f.error || !f.canRead then [] else f.contents[f.fptr..]
  }

  lemma AheadFacts(f: File)
    requires f.fptr <= |f.contents|
    ensures (f.error || !f.canRead) ==> Ahead(f) == []
    ensures !f.error && f.canRead ==> Ahead(f) == f.contents[f.fptr..]
  {
  }

  // Read one byte.
  method GetByte(f: File) returns (got: bool, c: byte)
    requires Usable(f)
    modifies f, f.buf, f.fs, f.fs.win, f.fs.disk
    ensures Usable(f) && f.contents == old(f.contents) && f.error == old(f.error) && f.fs.steps == old(f.fs.steps)
    ensures old(f.fptr <= |f.contents|) && f.fptr <= |f.contents|
    ensures got == (old(Ahead(f)) != []) && f.fptr == old(f.fptr) + if got then 1 else 0
    ensures if got then c == old(Ahead(f))[0] && Ahead(f) == old(Ahead(f))[1..] else Ahead(f) == old(Ahead(f))
    ensures old(f.fs.disk.log) <= f.fs.disk.log && old(f.fs.steps) <= f.fs.steps
  {
    hide *;
    UsableFacts(f);
    AheadFacts(f);
    c := 0;
    ghost var h, cs := f.fs.fat, f.chain;
    var res, s := f.FRead(1);
    got := |s| == 1;
    if got { c := s[0]; }
    NothingGrown(h, cs);
    StillUsable(f, h, cs);
    UsableFacts(f);
    AheadFacts(f);
  }

  // The line taken from the bytes a, with room for m characters: t after the first u of them, and the rest of it.
  ghost predicate Reading(a: seq<byte>, m: nat, t: seq<byte>, u: nat) {
    && u <= |a| && |t| <= m
    && var r := NextLine(a[u..], m - |t|);
       NextLine(a, m) == Line(t + r.text, u + r.used)
  }

  lemma ReadingStarts(a: seq<byte>, m: nat)
    ensures Reading(a, m, [], 0)
  {
    assert a[0..] == a;
  }

  lemma ReadingEnds(a: seq<byte>, m: nat, t: seq<byte>, u: nat)
    requires Reading(a, m, t, u) && (|t| == m || a[u..] == [])
    ensures NextLine(a, m) == Line(t, u)
  {
  }

  lemma ReadingStep(a: seq<byte>, m: nat, t: seq<byte>, u: nat, c: byte)
    requires Reading(a, m, t, u) && |t| < m && a[u..] != [] && a[u..][0] == c
    ensures u < |a| && a[u..][1..] == a[u + 1..]
    ensures c == CR ==> Reading(a, m, t, u + 1)
    ensures c == LF ==> NextLine(a, m) == Line(t + [c], u + 1)
    ensures c != CR && c != LF ==> Reading(a, m, t + [c], u + 1)
  {
    assert a[u..][1..] == a[u + 1..];
    if c != CR && c != LF {
      var r := NextLine(a[u + 1..], m - |t| - 1);
      assert t + ([c] + r.text) == t + [c] + r.text;
    }
  }

  // Get a line of at most len - 1 characters, terminated by 0; the number of characters, where 0 is the null pointer.
  method FGets(f: File, buff: array<byte>, len: int) returns (n: nat)
    requires Usable(f) && 0 < buff.Length && len <= buff.Length && buff != f.buf && buff != f.fs.win
    modifies f, f.buf, f.fs, f.fs.win, f.fs.disk, buff
    ensures Usable(f) && f.contents == old(f.contents) && f.error == old(f.error) && f.fs.steps == old(f.fs.steps)
    ensures old(f.fptr <= |f.contents|) && f.fptr <= |f.contents|
    ensures var l := NextLine(old(Ahead(f)), if len > 1 then len - 1 else 0);
            && n == |l.text| < buff.Length && buff[..n] == l.text && buff[n] == 0
            && f.fptr == old(f.fptr) + l.used && Ahead(f) == old(Ahead(f))[l.used..]
    ensures old(f.fs.disk.log) <= f.fs.disk.log && old(f.fs.steps) <= f.fs.steps
  {
    hide *;
    UsableFacts(f);
    ghost var a, m: nat, u := Ahead(f), if len > 1 then len - 1 else 0, 0;
    n := 0;
    ReadingStarts(a, m);
    assert buff[..0] == [];
    while n < len - 1
      invariant Usable(f) && f.contents == old(f.contents) && f.error == old(f.error) && f.fs.steps == old(f.fs.steps)
      invariant n <= m && u <= |a| && Reading(a, m, buff[..n], u)
      invariant f.fptr == old(f.fptr) + u <= |f.contents| && Ahead(f) == a[u..]
      invariant old(f.fs.disk.log) <= f.fs.disk.log && old(f.fs.steps) <= f.fs.steps
      decreases |a| - u
    {
      var got, c := GetByte(f);
      if !got {
        ReadingEnds(a, m, buff[..n], u);
        break;
      }
      ReadingStep(a, m, buff[..n], u, c);
      u := u + 1;
      if c == CR { continue; }
      buff[n] := c;
      n := n + 1;
      assert buff[..n] == buff[..n - 1] + [c];
      if c == LF { break; }
    }
    if NextLine(a, m) != Line(buff[..n], u) {
      ReadingEnds(a, m, buff[..n], u);
    }
    ghost var t := buff[..n];
    buff[n] := 0;
    assert buff[..n] == t;
  }

  lemma LineFacts(d: seq<byte>, n: nat)
    requires n > 0
    ensures var r := NextLine(d, n);
            r.used <= |d| && Stripped(d) == r.text + Stripped(d[r.used..]) && (r.text == [] ==> r.used == |d|)
            && (r.text != [] ==> r.used > 0)
  {
    LineSplits(d, n);
  }

  // Get everything that is left, in lines that fit a buffer of len characters.
  method GetText(f: File, buff: array<byte>, len: int) returns (t: seq<byte>)
    requires Usable(f) && 2 <= len <= buff.Length && buff != f.buf && buff != f.fs.win
    modifies f, f.buf, f.fs, f.fs.win, f.fs.disk, buff
    ensures Usable(f) && f.contents == old(f.contents) && old(f.fptr <= |f.contents|) && t == Stripped(old(Ahead(f)))
    ensures old(f.fs.disk.log) <= f.fs.disk.log && old(f.fs.steps) <= f.fs.steps
  {
    hide *;
    UsableFacts(f);
    ghost var a := Ahead(f);
    t := [];
    while true
      invariant Usable(f) && f.contents == old(f.contents) && f.fptr <= |f.contents|
      invariant t + Stripped(Ahead(f)) == Stripped(a)
      invariant old(f.fs.disk.log) <= f.fs.disk.log && old(f.fs.steps) <= f.fs.steps
      decreases |Ahead(f)|
    {
      ghost var b := Ahead(f);
      LineFacts(b, len - 1);
      var n := FGets(f, buff, len);
      if n == 0 {
        StrippedNothing();
        assert b[|b|..] == [];
        break;
      }
      t := t + buff[..n];
    }
  }

  // Put a string, go back and get the text: it is the string, followed by the text that was behind it.
  method PutAndGet(f: File, str: array<byte>, ghost s: seq<byte>, buff: array<byte>, len: int)
    returns (done: bool, t: seq<byte>)
    requires Usable(f) && f.seeking && f.canRead && !f.error
    requires Terminated(str[..], s) && CR !in s && str != f.buf && str != f.fs.win
    requires 2 <= len <= buff.Length && buff != f.buf && buff != f.fs.win
    modifies f, f.buf, f.fs, f.fs.win, f.fs.disk, buff
    ensures Usable(f) && old(f.fptr <= |f.contents|)
    ensures done ==>
      var k, d := old(f.fptr) + |Converted(s)|, old(f.contents);
      t == s + if k < |d| then Stripped(d[k..]) else []
    ensures !done ==> Stuck(f)
    ensures old(f.fs.disk.log) <= f.fs.disk.log && old(f.fs.steps) <= f.fs.steps
  {
    hide *;
    UsableFacts(f);
    done, t := false, [];
    ghost var d, n := f.contents, 0;
    var pos := f.fptr;
    var r;
    r, n := FPuts(f, str, s);
    if r == EOF { return; }
    PutFacts(f, d, pos, s, n);
    UsableFacts(f);
    ghost var h, cs, e := f.fs.fat, f.chain, f.contents;
    PatchedReads(d, pos, s);
    var res := LSeek(f, pos);
    StillUsable(f, h, cs);
    UsableFacts(f);
    SoughtBack(f, e);
    AheadFacts(f);
    done := true;
    t := GetText(f, buff, len);
  }

  lemma PutFacts(f: File, d: seq<byte>, pos: nat, s: seq<byte>, n: nat)
    requires pos <= |d| && Arrives(f, d, pos, Converted(s), n) && n == |Converted(s)|
    ensures f.contents == Patch(d, pos, Converted(s)) && pos <= f.fptr
  {
    assert Converted(s)[..n] == Converted(s);
  }

  lemma SoughtBack(f: File, e: seq<byte>)
    requires f.fptr <= |e| && |f.contents| == f.fsize == Max(|e|, f.fptr) && f.contents[..|e|] == e
    ensures f.contents == e
  {
  }

  lemma SomethingConverted(s: seq<byte>)
    requires s != []
    ensures Converted(s) != []
  {
  }

  // Reading a patched file from its beginning: the text in front of the patch, the string, and the text behind it.
  lemma PatchedText(d: seq<byte>, pos: nat, s: seq<byte>)
    requires pos <= |d| && CR !in s
    ensures var k := pos + |Converted(s)|;
            Stripped(Patch(d, pos, Converted(s))) == Stripped(d[..pos]) + (s + if k < |d| then Stripped(d[k..]) else [])
  {
    hide Converted, Stripped;
    var r := Patch(d, pos, Converted(s));
    PatchHead(d, pos, Converted(s));
    StrippedJoin(r[..pos], r[pos..]);
    assert r == r[..pos] + r[pos..];
    PatchedReads(d, pos, s);
  }

  lemma PatchHead(d: seq<byte>, pos: nat, x: seq<byte>)
    requires pos <= |d|
    ensures pos <= |Patch(d, pos, x)| && Patch(d, pos, x)[..pos] == d[..pos]
  {
  }

  lemma ListedPlace(f: File)
    requires f.Listed()
    ensures f.dirSlot < 16 && f.dirSect in f.fs.meta && !f.fs.g.InFats(f.dirSect)
  {
  }

  lemma FileIsListed(f: File)
    requires f.Valid() && f.dirSlot < 16 && f.dirSect in f.fs.meta && !f.fs.g.InFats(f.dirSect)
    ensures f.Listed()
  {
    f.StillListed();
  }

  lemma NowUsable(f: File)
    requires f.Valid() && FreeIsUnused(f.fs.g, f.fs.fat, f.fs.meta) && !HasOne(f.fs.fat)
    ensures Usable(f) && f.fptr <= |f.contents|
  {
  }

  // Put a string, synchronize the file, open it again and get its text: the string is in its place.
  method PutAndReopen(f: File, str: array<byte>, ghost s: seq<byte>, time: dword, buff: array<byte>, len: int)
    returns (done: bool, t: seq<byte>)
    requires Usable(f) && f.Listed() && Terminated(str[..], s) && s != [] && CR !in s && str != f.buf && str != f.fs.win
    requires 2 <= len <= buff.Length && buff != f.buf && buff != f.fs.win
    modifies f, f.buf, f.fs, f.fs.win, f.fs.disk, buff
    ensures old(f.fptr <= |f.contents|)
    ensures done ==>
      var pos, d := old(f.fptr), old(f.contents);
      var k := pos + |Converted(s)|;
      t == Stripped(d[..pos]) + (s + if k < |d| then Stripped(d[k..]) else [])
    ensures !done ==> Stuck(f)
    ensures old(f.fs.disk.log) <= f.fs.disk.log && old(f.fs.steps) <= f.fs.steps
  {
    hide *;
    UsableFacts(f);
    ListedPlace(f);
    done, t := false, [];
    ghost var d, n, pos, m := f.contents, 0, f.fptr, f.fs.meta;
    var r;
    r, n := FPuts(f, str, s);
    if r == EOF { return; }
    SomethingConverted(s);
    PutFacts(f, d, pos, s, n);
    PatchedText(d, pos, s);
    UsableFacts(f);
    FileIsListed(f);
    var h := SyncAndReopen(f, time);
    NowUsable(h);
    AheadFacts(h);
    assert h.contents[0..] == h.contents;
    done := true;
    t := GetText(h, buff, len);
  }
}
