/**
 The file allocation table as a map from clusters to 12-, 16- or 28-bit entries, packed
 into the sectors of FAT copy 1, and what storing one entry does to that map.
*/
module FatMap {
  import opened Bytes
  import opened Geometry

  // Sectors v after sector s was overwritten through the window: a FAT sector is mirrored to the second copy.
  function Store(g: Layout, v: seq<Sector>, s: nat, x: Sector): (r: seq<Sector>)
    requires s < |v| && (g.InFat(s) ==> g.fatbase + g.FatSectors() <= |v|)
    ensures |r| == |v|
  {
    if g.InFat(s) && g.nFats == 2 then v[s := x][s + g.fsize := x] else v[s := x]
  }

  // The second FAT copy equals the first.
  ghost predicate Mirrored(g: Layout, v: seq<Sector>)
    requires g.fatbase + g.FatSectors() <= |v|
  {
    g.nFats == 2 ==> forall s :: g.InFat(s) ==> v[s + g.fsize] == v[s]
  }

  lemma MirroredFrame(g: Layout, v: seq<Sector>, w: seq<Sector>)
    requires g.fatbase + g.FatSectors() <= |v| == |w| && Mirrored(g, v) && forall s :: g.InFats(s) ==> w[s] == v[s]
    ensures Mirrored(g, w)
  {
  }

  // Storing a sector of FAT copy 1, or behind the copies, keeps the copies equal.
  lemma StoreKeepsMirrored(g: Layout, v: seq<Sector>, s: nat, x: Sector)
    requires g.fatbase + g.FatSectors() <= |v| && s < |v| && g.Cacheable(s) && Mirrored(g, v)
    ensures Mirrored(g, Store(g, v, s, x))
  {
  }

  // w differs from v in the FAT copies only, and is mirrored if v is.
  ghost predicate FatOnly(g: Layout, v: seq<Sector>, w: seq<Sector>)
    requires g.fatbase + g.FatSectors() <= |v| == |w|
  {
    && (forall s :: 0 <= s < |v| && !g.InFats(s) ==> w[s] == v[s])
    && (Mirrored(g, v) ==> Mirrored(g, w))
  }

  lemma StoreFatOnly(g: Layout, v: seq<Sector>, s: nat, x: Sector)
    requires g.fatbase + g.FatSectors() <= |v| && g.InFat(s) && (g.nFats == 1 || g.nFats == 2)
    ensures FatOnly(g, v, Store(g, v, s, x))
  {
  }

  // Two stores into the FAT.
  lemma StoreTwiceFatOnly(g: Layout, v: seq<Sector>, s: nat, x: Sector, t: nat, y: Sector)
    requires g.fatbase + g.FatSectors() <= |v| && g.InFat(s) && g.InFat(t) && (g.nFats == 1 || g.nFats == 2)
    ensures FatOnly(g, v, Store(g, Store(g, v, s, x), t, y))
  {
    StoreFatOnly(g, v, s, x);
    StoreFatOnly(g, Store(g, v, s, x), t, y);
  }

  lemma FatOnlyTransitive(g: Layout, u: seq<Sector>, v: seq<Sector>, w: seq<Sector>)
    requires g.fatbase + g.FatSectors() <= |u| == |v| == |w| && FatOnly(g, u, v) && FatOnly(g, v, w)
    ensures FatOnly(g, u, w)
  {
  }

  // The sectors of FAT copy 1 after a store.
  lemma StoreAt(g: Layout, v: seq<Sector>, s: nat, x: Sector, t: nat)
    requires g.fatbase + g.FatSectors() <= |v| && g.InFat(s) && g.InFat(t) && (g.nFats == 1 || g.nFats == 2)
    ensures Store(g, v, s, x)[t] == if t == s then x else v[t]
  {
  }

  // The 12-bit entry in two neighbouring bytes.
  function Pack12(lo: byte, hi: byte, odd: bool): nat {
    var w := lo as int + 0x100 * (hi as int);
    if odd then w / 0x10 else w % 0x1000
  }

  // The sector of the byte at offset o of FAT copy 1.
  function FatSector(g: Layout, o: nat): nat {
    g.fatbase + o / 512
  }

  // The entry of cluster c.
  function Entry(g: Layout, v: seq<Sector>, c: nat): nat
    requires g.Checked(|v|) && c < g.nFatent
  {
    match g.fsType
    case Fat12 =>
      g.Inside12(c, |v|);
      var o := Offset12(c);
      Pack12(FatByte(g, v, o), FatByte(g, v, o + 1), c % 2 == 1)
    case Fat16 =>
      g.Inside16(c, |v|);
      LdWord(v[g.fatbase + c / 256], c * 2 % 512)
    case Fat32 =>
      g.Inside32(c, |v|);
      LdDword(v[g.fatbase + c / 128], c * 4 % 512) % 0x1000_0000
  }

  // The four reserved bits of a FAT32 entry.
  function TopNibble(g: Layout, v: seq<Sector>, c: nat): nat
    requires g.Checked(|v|) && c < g.nFatent && g.fsType == Fat32
  {
    g.Inside32(c, |v|);
    LdDword(v[g.fatbase + c / 128], c * 4 % 512) / 0x1000_0000
  }

  function FatOf(g: Layout, v: seq<Sector>): (f: seq<nat>)
    requires g.Checked(|v|)
    ensures |f| == g.nFatent
  {
    seq(g.nFatent, (c: nat) requires c < g.nFatent => Entry(g, v, c))
  }

  // The range of an entry.
  function Width(t: FsType): nat {
    match t
    case Fat12 => 0x1000
    case Fat16 => 0x1_0000
    case Fat32 => 0x1000_0000
  }

  lemma EntryRange(g: Layout, v: seq<Sector>, c: nat)
    requires g.Checked(|v|) && c < g.nFatent
    ensures Entry(g, v, c) < Width(g.fsType)
  {
  }

  lemma SameEntry(g: Layout, v: seq<Sector>, w: seq<Sector>, c: nat)
    requires g.Checked(|v|) && |v| == |w| && c < g.nFatent
    requires g.fatbase + g.fsize <= |v| && forall s :: g.InFat(s) ==> v[s] == w[s]
    ensures Entry(g, v, c) == Entry(g, w, c)
  {
    match g.fsType
    case Fat12 => g.Inside12(c, |v|);
    case Fat16 => g.Inside16(c, |v|);
    case Fat32 => g.Inside32(c, |v|);
  }

  // The FAT depends on the sectors of copy 1 only.
  lemma FatFrame(g: Layout, v: seq<Sector>, w: seq<Sector>)
    requires g.Checked(|v|) && |v| == |w|
    requires g.fatbase + g.fsize <= |v| && forall s :: g.InFat(s) ==> v[s] == w[s]
    ensures FatOf(g, v) == FatOf(g, w)
  {
    forall c: nat | c < g.nFatent
      ensures Entry(g, v, c) == Entry(g, w, c)
    {
      SameEntry(g, v, w, c);
    }
  }

  // Storing a sector outside the FAT changes that sector alone, and no FAT entry.
  lemma OtherThanFat(g: Layout, v: seq<Sector>, s: nat, x: Sector)
    requires g.Checked(|v|) && s < |v| && !g.InFats(s)
    ensures g.fatbase + g.FatSectors() <= |v| && Store(g, v, s, x) == v[s := x] && FatOf(g, v[s := x]) == FatOf(g, v)
  {
    g.FatsInside(|v|);
    FatFrame(g, v, v[s := x]);
  }

  // ----- 12-bit entries

  // The two bytes the code computes for a 12-bit entry, from the old bytes a and b.
  function Low12(a: byte, val: dword, odd: bool): byte {
    if odd then a % 0x10 + val % 0x10 * 0x10 else val % 0x100
  }

  function High12(b: byte, val: dword, odd: bool): byte {
    if odd then val / 0x10 % 0x100 else b / 0x10 * 0x10 + val / 0x100 % 0x10
  }

  // The packing of one entry, and of the neighbour that shares a byte with it.
  lemma PackOdd(a: byte, b: byte, val: dword, x: byte)
    ensures Pack12(Low12(a, val, true), High12(b, val, true), true) == val % 0x1000
    ensures Pack12(x, Low12(a, val, true), false) == Pack12(x, a, false)
  {
    var lo, hi := val % 0x10, val / 0x10 % 0x100;
    assert (a % 0x10 + lo * 0x10 + 0x100 * hi) / 0x10 == lo + 0x10 * hi;
    var y := a % 0x10;
    assert a == a / 0x10 * 0x10 + y;
    assert (x + 0x100 * (y + lo * 0x10)) % 0x1000 == x + 0x100 * y;
  }

  lemma PackEven(a: byte, b: byte, val: dword, x: byte)
    ensures Pack12(Low12(a, val, false), High12(b, val, false), false) == val % 0x1000
    ensures Pack12(High12(b, val, false), x, true) == Pack12(b, x, true)
  {
    var lo, hi, t := val % 0x100, val / 0x100 % 0x10, b / 0x10;
    assert (lo + 0x100 * (t * 0x10 + hi)) % 0x1000 == lo + 0x100 * hi;
    assert (t * 0x10 + hi + 0x100 * x) / 0x10 == t + 0x10 * x;
  }

  // Entry d as it reads before (bytes x, y) and after (bytes x', y') the bytes a, b of entry c were replaced.
  lemma Repack(c: nat, d: nat, val: dword, a: byte, b: byte, x: byte, y: byte, x': byte, y': byte)
    requires Offset12(d) == Offset12(c) ==> x == a && y == b
    requires Offset12(d) + 1 == Offset12(c) ==> y == a
    requires Offset12(d) == Offset12(c) + 1 ==> x == b
    requires x' == Replaced(c, val, a, b, Offset12(d), x) && y' == Replaced(c, val, a, b, Offset12(d) + 1, y)
    ensures Pack12(x', y', d % 2 == 1) == if d == c then val % 0x1000 else Pack12(x, y, d % 2 == 1)
  {
    if c % 2 == 1 {
      PackOdd(a, b, val, x);
    } else {
      PackEven(a, b, val, y);
    }
  }

  // Byte p of the FAT, x before, after the bytes a, b of entry c were replaced.
  function Replaced(c: nat, val: dword, a: byte, b: byte, p: nat, x: byte): byte {
    if p == Offset12(c) then Low12(a, val, c % 2 == 1)
    else if p == Offset12(c) + 1 then High12(b, val, c % 2 == 1)
    else x
  }

  // Sectors v with byte o of the FAT set to b.
  function StoreByte(g: Layout, v: seq<Sector>, o: nat, b: byte): (r: seq<Sector>)
    requires g.fatbase + g.FatSectors() <= |v| && o / 512 < g.fsize && (g.nFats == 1 || g.nFats == 2)
    ensures |r| == |v|
  {
    Store(g, v, FatSector(g, o), v[FatSector(g, o)][o % 512 := b])
  }

  lemma StoreByteAt(g: Layout, v: seq<Sector>, o: nat, b: byte, p: nat)
    requires g.fatbase + g.FatSectors() <= |v| && o / 512 < g.fsize && (g.nFats == 1 || g.nFats == 2)
    requires p / 512 < g.fsize
    ensures FatByte(g, StoreByte(g, v, o, b), p) == if p == o then b else FatByte(g, v, p)
  {
    StoreAt(g, v, FatSector(g, o), v[FatSector(g, o)][o % 512 := b], FatSector(g, p));
  }

  // Byte p of the FAT after bytes o and o + 1 were stored.
  lemma TwoBytesAt(g: Layout, v: seq<Sector>, o: nat, a: byte, b: byte, p: nat)
    requires g.fatbase + g.FatSectors() <= |v| && (o + 1) / 512 < g.fsize && (g.nFats == 1 || g.nFats == 2)
    requires p / 512 < g.fsize
    ensures FatByte(g, StoreByte(g, StoreByte(g, v, o, a), o + 1, b), p)
         == if p == o then a else if p == o + 1 then b else FatByte(g, v, p)
  {
    StoreByteAt(g, v, o, a, p);
    StoreByteAt(g, StoreByte(g, v, o, a), o + 1, b, p);
  }

  lemma TwoBytesFatOnly(g: Layout, v: seq<Sector>, o: nat, a: byte, b: byte)
    requires g.fatbase + g.FatSectors() <= |v| && (o + 1) / 512 < g.fsize && (g.nFats == 1 || g.nFats == 2)
    ensures FatOnly(g, v, StoreByte(g, StoreByte(g, v, o, a), o + 1, b))
  {
    var s, t := FatSector(g, o), FatSector(g, o + 1);
    var x := v[s][o % 512 := a];
    StoreTwiceFatOnly(g, v, s, x, t, Store(g, v, s, x)[t][(o + 1) % 512 := b]);
  }

  // Byte o of FAT copy 1.
  function FatByte(g: Layout, v: seq<Sector>, o: nat): byte
    requires FatSector(g, o) < |v|
  {
    v[FatSector(g, o)][o % 512]
  }

  // The entry of cluster d after bytes o and o + 1 were stored.
  lemma EntryAfterBytes(g: Layout, v: seq<Sector>, o: nat, a: byte, b: byte, d: nat)
    requires g.Checked(|v|) && g.fsType == Fat12 && d < g.nFatent && (o + 1) / 512 < g.fsize
    ensures var p := Offset12(d);
            && g.fatbase + g.FatSectors() <= |v| && (p + 1) / 512 < g.fsize
            && Entry(g, StoreByte(g, StoreByte(g, v, o, a), o + 1, b), d)
            == Pack12(if p == o then a else if p == o + 1 then b else FatByte(g, v, p),
                      if p + 1 == o then a else if p == o then b else FatByte(g, v, p + 1), d % 2 == 1)
  {
    hide StoreByte, FatByte, Pack12, Offset12, PowerOfTwo, Layout.FatBytes, Layout.VolumeEnd;
    g.Inside12(d, |v|);
    TwoBytesAt(g, v, o, a, b, Offset12(d));
    TwoBytesAt(g, v, o, a, b, Offset12(d) + 1);
  }

  // What put_fat stores for a 12-bit entry; its two bytes may lie in different sectors.
  function Store12(g: Layout, v: seq<Sector>, c: nat, val: dword): (r: seq<Sector>)
    requires g.Checked(|v|) && g.fsType == Fat12 && c < g.nFatent
    ensures |r| == |v|
  {
    g.Inside12(c, |v|);
    var o, odd := Offset12(c), c % 2 == 1;
    StoreByte(g, StoreByte(g, v, o, Low12(FatByte(g, v, o), val, odd)), o + 1, High12(FatByte(g, v, o + 1), val, odd))
  }

  // It does not matter that the old second byte is read only after the first one was stored.
  lemma Store12InTwoSteps(g: Layout, v: seq<Sector>, c: nat, val: dword)
    requires g.Checked(|v|) && g.fsType == Fat12 && c < g.nFatent
    ensures var o, odd := Offset12(c), c % 2 == 1;
            && g.fatbase + g.FatSectors() <= |v| && (o + 1) / 512 < g.fsize
            && var w := StoreByte(g, v, o, Low12(FatByte(g, v, o), val, odd));
               Store12(g, v, c, val) == StoreByte(g, w, o + 1, High12(FatByte(g, w, o + 1), val, odd))
  {
    g.Inside12(c, |v|);
    var o := Offset12(c);
    StoreByteAt(g, v, o, Low12(FatByte(g, v, o), val, c % 2 == 1), o + 1);
  }

  lemma Update12At(g: Layout, v: seq<Sector>, c: nat, val: dword, d: nat)
    requires g.Checked(|v|) && g.fsType == Fat12 && c < g.nFatent && d < g.nFatent
    ensures Entry(g, Store12(g, v, c, val), d) == if d == c then val % 0x1000 else Entry(g, v, d)
  {
    hide PowerOfTwo, StoreByte, FatByte, Low12, High12, Pack12;
    g.Inside12(c, |v|);
    var o, p, odd := Offset12(c), Offset12(d), c % 2 == 1;
    var a, b := FatByte(g, v, o), FatByte(g, v, o + 1);
    var w := StoreByte(g, StoreByte(g, v, o, Low12(a, val, odd)), o + 1, High12(b, val, odd));
    assert Store12(g, v, c, val) == w;
    g.Inside12(d, |v|);
    var x, y := FatByte(g, v, p), FatByte(g, v, p + 1);
    var x', y' := Replaced(c, val, a, b, p, x), Replaced(c, val, a, b, p + 1, y);
    assert Entry(g, w, d) == Pack12(x', y', d % 2 == 1) by {
      EntryAfterBytes(g, v, o, Low12(a, val, odd), High12(b, val, odd), d);
    }
    assert Pack12(x', y', d % 2 == 1) == if d == c then val % 0x1000 else Pack12(x, y, d % 2 == 1) by {
      Repack(c, d, val, a, b, x, y, x', y');
    }
  }

  // ----- 16-bit entries

  // A word at offset p of FAT sector t after a word was stored at offset o of FAT sector s.
  lemma StoreWordAt(g: Layout, v: seq<Sector>, s: nat, o: nat, val: dword, t: nat, p: nat)
    requires g.fatbase + g.FatSectors() <= |v| && g.InFat(s) && g.InFat(t) && (g.nFats == 1 || g.nFats == 2)
    requires o + 2 <= 512 && p + 2 <= 512 && (s == t ==> p == o || p + 2 <= o || o + 2 <= p)
    ensures LdWord(Store(g, v, s, StWord(v[s], o, val))[t], p)
         == if s == t && p == o then val % 0x1_0000 else LdWord(v[t], p)
  {
    StoreAt(g, v, s, StWord(v[s], o, val), t);
    if s == t && p == o {
      WordRoundTrip(v[s], o, val);
    } else if s == t {
      WordFrame(v[s], o, val, p);
    }
  }

  function Store16(g: Layout, v: seq<Sector>, c: nat, val: dword): (r: seq<Sector>)
    requires g.Checked(|v|) && g.fsType == Fat16 && c < g.nFatent
    ensures |r| == |v|
  {
    g.Inside16(c, |v|);
    var s := g.fatbase + c / 256;
    Store(g, v, s, StWord(v[s], c * 2 % 512, val))
  }

  // Distinct entries that share a sector occupy disjoint bytes of it.
  lemma Slots16(c: nat, d: nat)
    requires c != d
    ensures c / 256 == d / 256 ==> d * 2 % 512 + 2 <= c * 2 % 512 || c * 2 % 512 + 2 <= d * 2 % 512
  {
  }

  lemma Update16At(g: Layout, v: seq<Sector>, c: nat, val: dword, d: nat)
    requires g.Checked(|v|) && g.fsType == Fat16 && c < g.nFatent && d < g.nFatent
    ensures Entry(g, Store16(g, v, c, val), d) == if d == c then val % 0x1_0000 else Entry(g, v, d)
  {
    g.Inside16(c, |v|);
    g.Inside16(d, |v|);
    if c != d {
      Slots16(c, d);
    }
    StoreWordAt(g, v, g.fatbase + c / 256, c * 2 % 512, val, g.fatbase + d / 256, d * 2 % 512);
  }

  // ----- 28-bit entries

  // The double word put_fat stores: the low 28 bits of val, the reserved bits of val ORed into the old ones.
  function Merge32(old32: dword, val: dword): dword {
    BitOrBound(val / 0x1000_0000, old32 / 0x1000_0000, 16);
    val % 0x1000_0000 + 0x1000_0000 * BitOr(val / 0x1000_0000, old32 / 0x1000_0000)
  }

  lemma MergeParts(old32: dword, val: dword)
    ensures Merge32(old32, val) % 0x1000_0000 == val % 0x1000_0000
    ensures Merge32(old32, val) / 0x1000_0000 == BitOr(val / 0x1000_0000, old32 / 0x1000_0000)
  {
  }

  lemma StoreDwordAt(g: Layout, v: seq<Sector>, s: nat, o: nat, val: dword, t: nat, p: nat)
    requires g.fatbase + g.FatSectors() <= |v| && g.InFat(s) && g.InFat(t) && (g.nFats == 1 || g.nFats == 2)
    requires o + 4 <= 512 && p + 4 <= 512 && (s == t ==> p == o || p + 4 <= o || o + 4 <= p)
    ensures LdDword(Store(g, v, s, StDword(v[s], o, val))[t], p)
         == if s == t && p == o then val else LdDword(v[t], p)
  {
    StoreAt(g, v, s, StDword(v[s], o, val), t);
    if s == t && p == o {
      DwordRoundTrip(v[s], o, val);
    } else if s == t {
      DwordFrame(v[s], o, val, p);
    }
  }

  function Store32(g: Layout, v: seq<Sector>, c: nat, val: dword): (r: seq<Sector>)
    requires g.Checked(|v|) && g.fsType == Fat32 && c < g.nFatent
    ensures |r| == |v|
  {
    g.Inside32(c, |v|);
    var s, o := g.fatbase + c / 128, c * 4 % 512;
    Store(g, v, s, StDword(v[s], o, Merge32(LdDword(v[s], o), val)))
  }

  lemma Slots32(c: nat, d: nat)
    requires c != d
    ensures c / 128 == d / 128 ==> d * 4 % 512 + 4 <= c * 4 % 512 || c * 4 % 512 + 4 <= d * 4 % 512
  {
    Slot32(c);
    Slot32(d);
  }

  // Storing a FAT32 entry ORs the top nibble of the value into the reserved bits and keeps those of all others.
  lemma Update32At(g: Layout, v: seq<Sector>, c: nat, val: dword, d: nat)
    requires g.Checked(|v|) && g.fsType == Fat32 && c < g.nFatent && d < g.nFatent
    ensures Entry(g, Store32(g, v, c, val), d) == if d == c then val % 0x1000_0000 else Entry(g, v, d)
    ensures TopNibble(g, Store32(g, v, c, val), d)
         == if d == c then BitOr(val / 0x1000_0000, TopNibble(g, v, c)) else TopNibble(g, v, d)
  {
    g.Inside32(c, |v|);
    g.Inside32(d, |v|);
    if c != d {
      Slots32(c, d);
    }
    var s, o := g.fatbase + c / 128, c * 4 % 512;
    MergeParts(LdDword(v[s], o), val);
    StoreDwordAt(g, v, s, o, Merge32(LdDword(v[s], o), val), g.fatbase + d / 128, d * 4 % 512);
  }

  // ----- any entry

  // What put_fat does to the sectors.
  function Put(g: Layout, v: seq<Sector>, c: nat, val: dword): (r: seq<Sector>)
    requires g.Checked(|v|) && c < g.nFatent
    ensures |r| == |v|
  {
    match g.fsType
    case Fat12 => Store12(g, v, c, val)
    case Fat16 => Store16(g, v, c, val)
    case Fat32 => Store32(g, v, c, val)
  }

  lemma Store12FatOnly(g: Layout, v: seq<Sector>, c: nat, val: dword)
    requires g.Checked(|v|) && g.fsType == Fat12 && c < g.nFatent
    ensures g.fatbase + g.FatSectors() <= |v| && FatOnly(g, v, Store12(g, v, c, val))
  {
    g.Inside12(c, |v|);
    var o, odd := Offset12(c), c % 2 == 1;
    var lo, hi := Low12(FatByte(g, v, o), val, odd), High12(FatByte(g, v, o + 1), val, odd);
    var w := StoreByte(g, StoreByte(g, v, o, lo), o + 1, hi);
    assert Store12(g, v, c, val) == w;
    assert FatOnly(g, v, w) by {
      TwoBytesFatOnly(g, v, o, lo, hi);
    }
  }

  lemma Store16FatOnly(g: Layout, v: seq<Sector>, c: nat, val: dword)
    requires g.Checked(|v|) && g.fsType == Fat16 && c < g.nFatent
    ensures g.fatbase + g.FatSectors() <= |v| && FatOnly(g, v, Store16(g, v, c, val))
  {
    hide FatOnly, StWord, PowerOfTwo, Layout.FatBytes, Layout.VolumeEnd, Store;
    g.Inside16(c, |v|);
    var s := g.fatbase + c / 256;
    StoreFatOnly(g, v, s, StWord(v[s], c * 2 % 512, val));
  }

  lemma Store32FatOnly(g: Layout, v: seq<Sector>, c: nat, val: dword)
    requires g.Checked(|v|) && g.fsType == Fat32 && c < g.nFatent
    ensures g.fatbase + g.FatSectors() <= |v| && FatOnly(g, v, Store32(g, v, c, val))
  {
    g.Inside32(c, |v|);
    var s, o := g.fatbase + c / 128, c * 4 % 512;
    StoreFatOnly(g, v, s, StDword(v[s], o, Merge32(LdDword(v[s], o), val)));
  }

  lemma PutFatOnly(g: Layout, v: seq<Sector>, c: nat, val: dword)
    requires g.Checked(|v|) && c < g.nFatent
    ensures g.fatbase + g.FatSectors() <= |v| && FatOnly(g, v, Put(g, v, c, val))
  {
    match g.fsType
    case Fat12 => Store12FatOnly(g, v, c, val);
    case Fat16 => Store16FatOnly(g, v, c, val);
    case Fat32 => Store32FatOnly(g, v, c, val);
  }

  lemma PutAt(g: Layout, v: seq<Sector>, c: nat, val: dword, d: nat)
    requires g.Checked(|v|) && c < g.nFatent && d < g.nFatent
    ensures Entry(g, Put(g, v, c, val), d) == if d == c then val % Width(g.fsType) else Entry(g, v, d)
  {
    match g.fsType
    case Fat12 => Update12At(g, v, c, val, d);
    case Fat16 => Update16At(g, v, c, val, d);
    case Fat32 => Update32At(g, v, c, val, d);
  }

  // Storing one entry is a map update: entry c reads the value truncated to the entry width, every other
  // entry reads as before, and so do all sectors outside the FAT copies. The reserved bits of FAT32 entries are kept,
  // except that those of the value are added to them.
  lemma PutIsUpdate(g: Layout, v: seq<Sector>, c: nat, val: dword)
    requires g.Checked(|v|) && c < g.nFatent
    ensures FatOf(g, Put(g, v, c, val)) == FatOf(g, v)[c := val % Width(g.fsType)]
    ensures g.fsType == Fat32 ==>
              forall d: nat :: d < g.nFatent ==>
                TopNibble(g, Put(g, v, c, val), d)
                == if d == c then BitOr(val / 0x1000_0000, TopNibble(g, v, c)) else TopNibble(g, v, d)
    ensures g.fatbase + g.FatSectors() <= |v| && FatOnly(g, v, Put(g, v, c, val))
  {
    hide Entry, TopNibble, BitOr;
    PutFatOnly(g, v, c, val);
    forall d: nat | d < g.nFatent
      ensures Entry(g, Put(g, v, c, val), d) == if d == c then val % Width(g.fsType) else Entry(g, v, d)
      ensures g.fsType == Fat32 ==>
                TopNibble(g, Put(g, v, c, val), d)
                == if d == c then BitOr(val / 0x1000_0000, TopNibble(g, v, c)) else TopNibble(g, v, d)
    {
      PutAt(g, v, c, val, d);
      if g.fsType == Fat32 { Update32At(g, v, c, val, d); }
    }
  }
}
