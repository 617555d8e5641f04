/**
 Short names: the checksum that ties long-name entries to one, and numbered names for
 long names that do not fit the 8.3 format.
*/
module ShortNames {
  import opened Bytes
  import opened LongNames

  // Rotate right by one bit, then add: the sum of a short name, and the hash of a long one.
  function Rotated(acc: nat, bits: nat): nat
    requires bits == 0x80 || bits == 0x8000
  {
    acc / 2 + acc % 2 * bits
  }

  lemma RotatedWord(a: word)
    ensures a / 2 + a * 0x8000 % 0x1_0000 == Rotated(a, 0x8000)
  {
  }

  lemma RotatedByte(a: byte)
    ensures a / 2 + a * 0x80 % 0x100 == Rotated(a, 0x80)
  {
  }

  function Sum(name: seq<byte>): byte
    decreases |name|
  {
    if name == [] then 0
    else (Rotated(Sum(name[..|name| - 1]), 0x80) + name[|name| - 1]) % 0x100
  }

  // Each character is added after the sum so far was rotated right by one bit.
  lemma SumNext(name: seq<byte>, c: byte)
    ensures Sum([]) == 0
    ensures Sum(name + [c]) == (Sum(name) / 2 + (if Sum(name) % 2 == 1 then 0x80 else 0) + c) % 0x100
  {
    assert (name + [c])[..|name|] == name;
  }

  method SumSfn(e: seq<byte>) returns (sum: byte)
    requires |e| >= 11
    ensures sum == Sum(e[..11])
  {
    hide Rotated;
    sum := 0;
    var n := 0;
    while n < 11
      invariant n <= 11 && sum == Sum(e[..n])
    {
      assert e[..n + 1][..n] == e[..n];
      RotatedByte(sum);
      sum := (sum / 2 + sum * 0x80 % 0x100 + e[n]) % 0x100;
      n := n + 1;
    }
  }

  // ----- numbered names

  const SPACE: byte := 0x20
  const TILDE: byte := 0x7E

  function Digit(d: nat): (c: byte)
    requires d < 16
    ensures c != SPACE && c != TILDE
  {
    if d < 10 then 0x30 + d else 0x37 + d
  }

  // The hexadecimal digits of n.
  function Hex(n: nat): (s: seq<byte>)
    ensures |s| >= 1 && forall i :: 0 <= i < |s| ==> s[i] != SPACE && s[i] != TILDE
    ensures n < 0x10 ==> |s| == 1
    ensures n < 0x100 ==> |s| <= 2
    ensures n < 0x1000 ==> |s| <= 3
    ensures n < 0x1_0000 ==> |s| <= 4
    decreases n
  {
    if n < 16 then [Digit(n)] else Hex(n / 16) + [Digit(n % 16)]
  }

  lemma {:induction false} HexInjective(a: nat, b: nat)
    requires Hex(a) == Hex(b)
    ensures a == b
    decreases a
  {
    var s, t := Hex(a), Hex(b);
    assert s[|s| - 1] == Digit(a % 16) && t[|t| - 1] == Digit(b % 16);
    if a >= 16 && b >= 16 {
      assert Hex(a / 16) == s[..|s| - 1] && Hex(b / 16) == t[..|t| - 1];
      HexInjective(a / 16, b / 16);
    }
  }

  // The number that hexadecimal digits stand for.
  function ValueOf(s: seq<byte>): int {
    if s == [] then 0
    else
      var c := s[|s| - 1] as int;
      0x10 * ValueOf(s[..|s| - 1]) + if c <= 0x39 then c - 0x30 else c - 0x41 + 10
  }

  lemma {:induction false} HexReads(n: nat)
    ensures ValueOf(Hex(n)) == n && forall i ::
        0 <= i < |Hex(n)| ==> (0x30 <= Hex(n)[i] <= 0x39 || 0x41 <= Hex(n)[i] <= 0x46)
    decreases n
  {
    if n >= 16 {
      HexReads(n / 16);
      assert Hex(n)[..|Hex(n)| - 1] == Hex(n / 16);
    }
  }

  lemma {:induction false} HexLength(n: nat)
    requires n < 0x1_0000
    ensures |Hex(n)| == if n < 0x10 then 1 else if n < 0x100 then 2 else if n < 0x1000 then 3 else 4
  {
    if n >= 16 {
      HexLength(n / 16);
    }
  }

  // The number of characters in front of the first space, at most k.
  function StemLength(s: seq<byte>, k: nat): (j: nat)
    requires k <= |s|
    ensures j <= k && (forall i :: 0 <= i < j ==> s[i] != SPACE) && (j < k ==> s[j] == SPACE)
    decreases k
  {
    if k == 0 then 0
    else
      var j := StemLength(s, k - 1);
      if j < k - 1 || s[k - 1] == SPACE then j else k
  }

  function Spaces(n: nat): (s: seq<byte>)
    ensures |s| == n && forall i :: 0 <= i < n ==> s[i] == SPACE
  {
    seq(n, _ => SPACE)
  }

  function Tag(n: nat): seq<byte> {
    [TILDE] + Hex(n)
  }

  // The short name src with its stem cut and the number n appended to it.
  function Numbered(src: seq<byte>, n: word): (r: seq<byte>)
    requires |src| == 11
    ensures |r| == 11 && r[8..] == src[8..]
  {
    var tag := Tag(n);
    var j := StemLength(src, 8 - |tag|);
    src[..j] + tag + Spaces(8 - |tag| - j) + src[8..]
  }

  // Different numbers give different names.
  lemma NumberedInjective(src: seq<byte>, a: word, b: word)
    requires |src| == 11 && Numbered(src, a) == Numbered(src, b)
    ensures a == b
  {
    if |Tag(a)| <= |Tag(b)| {
      NumberedDiffer(src, a, b);
    } else {
      NumberedDiffer(src, b, a);
    }
  }

  lemma NumberedDiffer(src: seq<byte>, a: word, b: word)
    requires |src| == 11 && Numbered(src, a) == Numbered(src, b) && |Tag(a)| <= |Tag(b)|
    ensures a == b
  {
    NumberedParts(src, a);
    NumberedParts(src, b);
    StemShorter(src, 8 - |Tag(b)|, 8 - |Tag(a)|);
    hide Numbered, StemLength, Hex;
    var r, q, i := Numbered(src, a), Numbered(src, b), StemLength(src, 8 - |Tag(a)|);
    assert r[i] == q[i];
    var p := if |Tag(a)| < |Tag(b)| then i + |Tag(a)| else i;
    assert r[p] == q[p];
    assert Hex(a) == Tag(a)[1..] && Hex(b) == Tag(b)[1..];
    HexInjective(a, b);
  }

  // The parts of a numbered name: stem, tilde, digits, spaces.
  lemma NumberedParts(src: seq<byte>, n: word)
    requires |src| == 11
    ensures 2 <= |Tag(n)| <= 5
    ensures var r, j, m := Numbered(src, n), StemLength(src, 8 - |Tag(n)|), |Tag(n)|;
            && r[..j] == src[..j] && r[8..] == src[8..] && j <= 8 - m && (j < 8 - m ==> src[j] == SPACE)
            && r[j] == TILDE && r[j..j + m] == Tag(n)
            && (forall p :: j < p < j + m ==> r[p] != TILDE && r[p] != SPACE)
            && (forall p :: j + m <= p < 8 ==> r[p] == SPACE)
  {
    hide Hex, StemLength, Spaces;
    var j := StemLength(src, 8 - |Tag(n)|);
    Joint(src[..j], Tag(n), Spaces(8 - |Tag(n)| - j), src[8..]);
  }

  // Where the parts of a concatenation are.
  lemma Joint(a: seq<byte>, b: seq<byte>, c: seq<byte>, d: seq<byte>)
    ensures var r := a + b + c + d;
            && r[|a|..|a| + |b|] == b
            && (forall p :: |a| <= p < |a| + |b| ==> r[p] == b[p - |a|])
            && (forall p :: |a| + |b| <= p < |a| + |b| + |c| ==> r[p] == c[p - |a| - |b|])
  {
  }

  lemma StemShorter(s: seq<byte>, k: nat, m: nat)
    requires k <= m <= |s|
    ensures StemLength(s, k) == if StemLength(s, m) < k then StemLength(s, m) else k
  {
  }

  // The hash of a long name, starting from n.
  function Hash(n: word, name: seq<word>): word
    decreases |name|
  {
    if name == [] then n
    else (Rotated(Hash(n, name[..|name| - 1]), 0x8000) + name[|name| - 1]) % 0x1_0000
  }

  // The number appended to a name in the n-th attempt.
  function Number(n: word, name: seq<word>): word {
    if n > 5 then Hash(n, name) else n
  }

  // The number for the n-th attempt, computed as the code does.
  method NumberFor(n: word, lfn: array<word>, ghost name: seq<word>) returns (seqNo: word)
    requires Holds(lfn[..], name) && name != []
    ensures seqNo == Number(n, name)
  {
    hide Rotated;
    seqNo := n;
    if seqNo > 5 {
      var i := 0;
      assert name[..0] == [];
      HeldChar(lfn[..], name, 0);
      while true
        invariant i < |name| && seqNo == Hash(n, name[..i]) && lfn[i] == name[i]
        decreases |name| - i
      {
        assert name[..i + 1][..i] == name[..i];
        RotatedWord(seqNo);
        HeldChar(lfn[..], name, i + 1);
        seqNo := (seqNo / 2 + seqNo * 0x8000 % 0x1_0000 + lfn[i]) % 0x1_0000;
        i := i + 1;
        if lfn[i] == 0 { break; }
      }
      assert name[..i] == name;
    }
  }

  // Make the numbered name of the n-th attempt in dst.
  method GenNumname(dst: array<byte>, src: seq<byte>, lfn: array<word>, n: word, ghost name: seq<word>)
    requires dst.Length == 12 && |src| >= 11 && Holds(lfn[..], name) && name != []
    modifies dst
    ensures dst[..11] == Numbered(src[..11], Number(n, name)) && dst[11] == old(dst[11])
  {
    var x := NumberFor(n, lfn, name);
    forall k | 0 <= k < 11 { dst[k] := src[k]; }
    var ns, i := MakeTag(x);
    ghost var s := src[..11];
    ghost var num := Number(n, name);
    NumberedParts(s, num);
    var j := 0;
    while j < i && dst[j] != SPACE
      invariant 0 <= j <= i && dst[..11] == s
      invariant forall p :: 0 <= p < j ==> s[p] != SPACE
    {
      assert dst[..11][j] == s[j];
      j := j + 1;
    }
    assert j < i ==> dst[..11][j] == s[j] == SPACE;
    StemIs(s, i, j);
    AppendTag(dst, ns, i, j, s, Tag(num));
  }

  // Put the tag at the end of ns behind the first j characters of dst, and fill up with spaces.
  method AppendTag(dst: array<byte>, ns: seq<byte>, from: nat, at: nat, ghost s: seq<byte>, ghost tag: seq<byte>)
    requires dst.Length == 12 && |s| == 11 && dst[..11] == s && |ns| == 8 && from <= 8 && ns[from..] == tag
    requires at <= from && at < 8
    modifies dst
    ensures dst[..11] == s[..at] + tag + Spaces(8 - |tag| - at) + s[8..] && dst[11] == old(dst[11])
  {
    var i, j := from, at;
    ghost var tail := tag + Spaces(8 - |tag| - at);
    while j < 8
      invariant at <= j <= 8 && i == (if from + (j - at) < 8 then from + (j - at) else 8)
      invariant dst[11] == old(dst[11]) && dst[..j] == s[..at] + tail[..j - at] && dst[j..11] == s[j..]
    {
      dst[j] := if i < 8 then ns[i] else SPACE;
      assert i < 8 ==> ns[i] == ns[from..][i - from];
      assert dst[j] == tail[j - at];
      assert tail[..j - at] + [tail[j - at]] == tail[..j + 1 - at];
      if i < 8 { i := i + 1; }
      j := j + 1;
    }
    assert tail[..8 - at] == tail;
  }

  lemma StemIs(s: seq<byte>, k: nat, j: nat)
    requires j <= k <= |s| && (forall i :: 0 <= i < j ==> s[i] != SPACE) && (j < k ==> s[j] == SPACE)
    ensures StemLength(s, k) == j
  {
    var l := StemLength(s, k);
    var c := if l < |s| then s[l] else SPACE;
    assert l < |s| ==> c == s[l];
  }

  // The digits of x behind a tilde, at the end of an eight-character buffer.
  method MakeTag(x: word) returns (ns: seq<byte>, i: nat)
    ensures |ns| == 8 && i <= 6 && |Tag(x)| == 8 - i && ns[i..] == Tag(x)
  {
    ns := Spaces(8);
    i := 7;
    var r: nat := x;
    ghost var done: seq<byte> := [];
    while true
      invariant 4 <= i + (if r < 0x10 then 0 else if r < 0x100 then 1 else if r < 0x1000 then 2 else 3) && i <= 7
      invariant r < 0x1_0000
      invariant |ns| == 8 && ns[i + 1..] == done && Hex(r) + done == Hex(x) && i >= 4 - 0
      decreases r
    {
      ns := ns[i := Digit(r % 16)];
      done := [Digit(r % 16)] + done;
      i := i - 1;
      if r / 16 == 0 { break; }
      r := r / 16;
    }
    ns := ns[i := TILDE];
  }
}
