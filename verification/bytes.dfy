/**
 Bytes, sectors and the little-endian accessors the file system reads and writes
 its on-disk structures with.
*/
module Bytes {
  type byte = b: int | 0 <= b < 0x100
  type word = w: int | 0 <= w < 0x1_0000
  type dword = d: int | 0 <= d < 0x1_0000_0000

  // A disk sector; the sector size is fixed at 512 bytes.
  type Sector = s: seq<byte> | |s| == 512 witness seq(512, _ => 0)

  function ZeroSector(): (s: Sector)
    ensures forall i :: 0 <= i < 512 ==> s[i] == 0
  {
    seq(512, _ => 0)
  }

  // Unsigned 32-bit subtraction and addition, with the wrap-around of the C type DWORD.
  function Sub32(a: dword, b: dword): dword {
    (a - b) % 0x1_0000_0000
  }

  function Add32(a: dword, b: dword): dword {
    (a + b) % 0x1_0000_0000
  }

  function LdWord(s: seq<byte>, o: nat): word
    requires o + 2 <= |s|
  {
    s[o] as int + 0x100 * (s[o + 1] as int)
  }

  function LdDword(s: seq<byte>, o: nat): dword
    requires o + 4 <= |s|
  {
    s[o] as int + 0x100 * (s[o + 1] as int) + 0x1_0000 * (s[o + 2] as int) + 0x100_0000 * (s[o + 3] as int)
  }

  function StWord(s: seq<byte>, o: nat, v: dword): (r: seq<byte>)
    requires o + 2 <= |s|
    ensures |r| == |s|
  {
    s[o := v % 0x100][o + 1 := v / 0x100 % 0x100]
  }

  function StDword(s: seq<byte>, o: nat, v: dword): (r: seq<byte>)
    requires o + 4 <= |s|
    ensures |r| == |s|
  {
    s[o := v % 0x100][o + 1 := v / 0x100 % 0x100][o + 2 := v / 0x1_0000 % 0x100][o + 3 := v / 0x100_0000]
  }

  // A stored word reads back as its low 16 bits, and words elsewhere are not disturbed.
  lemma WordRoundTrip(s: seq<byte>, o: nat, v: dword)
    requires o + 2 <= |s|
    ensures LdWord(StWord(s, o, v), o) == v % 0x1_0000
    ensures StWord(s, o, v)[..o] == s[..o] && StWord(s, o, v)[o + 2..] == s[o + 2..]
  {
  }

  // A stored double word reads back exactly, and double words elsewhere are not disturbed.
  lemma DwordRoundTrip(s: seq<byte>, o: nat, v: dword)
    requires o + 4 <= |s|
    ensures LdDword(StDword(s, o, v), o) == v
    ensures StDword(s, o, v)[..o] == s[..o] && StDword(s, o, v)[o + 4..] == s[o + 4..]
  {
    hide LdDword;
    BytesOfDword(StDword(s, o, v), o, v);
  }

  lemma BytesOfDword(r: seq<byte>, o: nat, v: dword)
    requires o + 4 <= |r| && r[o] as int == v % 0x100 && r[o + 1] as int == v / 0x100 % 0x100
    requires r[o + 2] as int == v / 0x1_0000 % 0x100 && r[o + 3] as int == v / 0x100_0000
    ensures LdDword(r, o) == v
  {
    var w, x, y := v / 0x100, v / 0x1_0000, v / 0x100_0000;
    assert w / 0x100 == x && x / 0x100 == y;
    assert v == 0x100 * w + v % 0x100 && w == 0x100 * x + w % 0x100 && x == 0x100 * y + x % 0x100;
  }

  lemma WordFrame(s: seq<byte>, o: nat, v: dword, p: nat)
    requires o + 2 <= |s| && p + 2 <= |s| && (p + 2 <= o || o + 2 <= p)
    ensures LdWord(StWord(s, o, v), p) == LdWord(s, p)
  {
  }

  lemma DwordFrame(s: seq<byte>, o: nat, v: dword, p: nat)
    requires o + 4 <= |s| && p + 4 <= |s| && (p + 4 <= o || o + 4 <= p)
    ensures LdDword(StDword(s, o, v), p) == LdDword(s, p)
  {
  }

  method StoreWord(a: array<byte>, o: nat, v: dword)
    requires o + 2 <= a.Length
    modifies a
    ensures a[..] == StWord(old(a[..]), o, v)
  {
    a[o] := v % 0x100;
    a[o + 1] := v / 0x100 % 0x100;
  }

  method StoreDword(a: array<byte>, o: nat, v: dword)
    requires o + 4 <= a.Length
    modifies a
    ensures a[..] == StDword(old(a[..]), o, v)
  {
    a[o] := v % 0x100;
    a[o + 1] := v / 0x100 % 0x100;
    a[o + 2] := v / 0x1_0000 % 0x100;
    a[o + 3] := v / 0x100_0000;
  }

  // Bitwise AND, bit by bit.
  function BitAnd(x: nat, y: nat): nat
    decreases x
  {
    if x == 0 || y == 0 then 0 else (if x % 2 == 1 && y % 2 == 1 then 1 else 0) + 2 * BitAnd(x / 2, y / 2)
  }

  // Bitwise OR, bit by bit.
  function BitOr(x: nat, y: nat): nat
    decreases x
  {
    if x == 0 then y
    else if y == 0 then x
    else (if x % 2 == 1 || y % 2 == 1 then 1 else 0) + 2 * BitOr(x / 2, y / 2)
  }

  predicate PowerOfTwo(n: nat)
    decreases n
  {
    n == 1 || (n > 1 && n % 2 == 0 && PowerOfTwo(n / 2))
  }

  // Quotient and remainder are determined by x == q * n + r with 0 <= r < n.
  lemma DivModUnique(x: nat, n: nat, q: nat, r: nat)
    requires r < n && x == q * n + r
    ensures x / n == q && x % n == r
  {
    var d := x / n;
    assert x == d * n + x % n;
    if d > q {
      MulGap(d, q, n);
    } else if d < q {
      MulGap(q, d, n);
    }
  }

  lemma MulGap(a: nat, b: nat, n: nat)
    requires a > b
    ensures a * n >= b * n + n
  {
    assert a * n == b * n + (a - b) * n;
    assert (a - b) * n == (a - b - 1) * n + n;
  }

  // Masking with n - 1 is the remainder modulo n when n is a power of two.
  lemma {:induction false} MaskIsRemainder(x: nat, n: nat)
    requires PowerOfTwo(n)
    ensures BitAnd(x, n - 1) == x % n
    decreases n
  {
    if n > 1 {
      var m := n / 2;
      var r := x / 2 % m;
      assert BitAnd(x / 2, m - 1) == r by {
        MaskIsRemainder(x / 2, m);
      }
      assert BitAnd(x, n - 1) == x % 2 + 2 * r by {
        OddMask(x, m, r);
      }
      assert x % n == x % 2 + 2 * r by {
        RemainderHalves(x, m);
      }
    }
  }

  lemma {:induction false} OddMask(x: nat, m: nat, r: nat)
    requires m > 0 && BitAnd(x / 2, m - 1) == r
    ensures BitAnd(x, 2 * m - 1) == x % 2 + 2 * r
  {
    assert (2 * m - 1) % 2 == 1 && (2 * m - 1) / 2 == m - 1;
  }

  lemma {:induction false} RemainderHalves(x: nat, m: nat)
    requires m > 0
    ensures x % (2 * m) == x % 2 + 2 * (x / 2 % m)
  {
    var q, r := x / 2 / m, x / 2 % m;
    assert x / 2 == q * m + r;
    assert x == q * (2 * m) + (2 * r + x % 2) by {
      assert q * (2 * m) == 2 * (q * m);
    }
    DivModUnique(x, 2 * m, q, 2 * r + x % 2);
  }

  // No power of two lies strictly between m and 2 * m.
  lemma {:induction false} PowerBelow(n: nat, m: nat)
    requires PowerOfTwo(n) && PowerOfTwo(m) && n < 2 * m
    ensures n <= m
    decreases n
  {
    if n > 1 && m > 1 {
      PowerBelow(n / 2, m / 2);
    }
  }

  // The usual test for a power of two: no bit of n survives in n - 1.
  lemma {:induction false} PowerOfTwoTest(n: nat)
    requires n > 0
    ensures BitAnd(n, n - 1) == 0 <==> PowerOfTwo(n)
    decreases n
  {
    if n > 1 {
      if n % 2 == 0 {
        PowerOfTwoTest(n / 2);
        assert (n - 1) / 2 == n / 2 - 1;
      } else {
        BitAndSelf(n / 2);
        assert (n - 1) / 2 == n / 2;
      }
    }
  }

  lemma {:induction false} BitAndSelf(n: nat)
    ensures BitAnd(n, n) == n
    decreases n
  {
    if n > 0 {
      BitAndSelf(n / 2);
    }
  }

  // OR does not leave the range of a power of two.
  lemma {:induction false} BitOrBound(x: nat, y: nat, n: nat)
    requires PowerOfTwo(n) && x < n && y < n
    ensures BitOr(x, y) < n
    decreases n
  {
    if x > 0 && y > 0 {
      BitOrBound(x / 2, y / 2, n / 2);
    }
  }

  // The product as repeated addition.
  function Times(a: nat, b: nat): nat
    decreases a
  {
    if a == 0 then 0 else Times(a - 1, b) + b
  }

  lemma {:induction false} TimesIsProduct(a: nat, b: nat)
    ensures Times(a, b) == a * b
    decreases a
  {
    if a > 0 {
      TimesIsProduct(a - 1, b);
      assert a * b == (a - 1) * b + b;
    }
  }

  lemma TimesGap(a: nat, b: nat, n: nat)
    requires a > b
    ensures Times(a, n) >= Times(b, n) + n
  {
    TimesIsProduct(a, n);
    TimesIsProduct(b, n);
    MulGap(a, b, n);
  }

  lemma TimesAtLeast(a: nat, n: nat)
    requires n >= 1
    ensures Times(a, n) >= a
  {
    TimesIsProduct(a, n);
    MulAtLeast(a, n);
  }

  lemma MulAtLeast(a: nat, n: nat)
    requires n >= 1
    ensures a * n >= a
  {
  }

  lemma QuotientAtMost(a: nat, n: nat)
    requires n > 0
    ensures a / n <= a
  {
    assert a == a / n * n + a % n;
    MulAtLeast(a / n, n);
  }
}
