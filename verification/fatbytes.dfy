/**
 The FAT byte by byte: what an entry reads as, and what storing one makes of every byte of FAT copy 1.
*/
module FatBytes {
  import opened Bytes
  import opened Geometry
  import opened FatMap

  // Byte o of FAT copy 1 exists.
  predicate HasByte(g: Layout, v: seq<Sector>, o: nat) {
    o / 512 < g.fsize && g.fatbase + o / 512 < |v|
  }

  function ByteOfFat(g: Layout, v: seq<Sector>, o: nat): byte
    requires HasByte(g, v, o)
  {
    v[g.fatbase + o / 512][o % 512]
  }

  // The bytes of entry c: where the first one lies, and how many there are.
  function FirstByte(t: FsType, c: nat): nat {
    match t
    case Fat12 => c + c / 2
    case Fat16 => 2 * c
    case Fat32 => 4 * c
  }

  function EntryBytes(t: FsType): nat {
    match t
    case Fat12 => 2
    case Fat16 => 2
    case Fat32 => 4
  }

  lemma BytesInside(g: Layout, v: seq<Sector>, c: nat)
    requires g.Checked(|v|) && c < g.nFatent
    ensures forall o: nat :: FirstByte(g.fsType, c) <= o < FirstByte(g.fsType, c) + EntryBytes(g.fsType) ==>
        HasByte(g, v, o)
  {
    match g.fsType
    case Fat12 => g.Inside12(c, |v|);
    case Fat16 => g.Inside16(c, |v|);
    case Fat32 => g.Inside32(c, |v|);
  }

  // What the bytes of entry c say: least significant byte first, and 12-bit entries by halves of a byte.
  function FromBytes(g: Layout, v: seq<Sector>, c: nat): nat
    requires g.Checked(|v|) && c < g.nFatent
  {
    BytesInside(g, v, c);
    match g.fsType
    case Fat12 =>
      var b0, b1 := ByteOfFat(g, v, c + c / 2) as int, ByteOfFat(g, v, c + c / 2 + 1) as int;
      if c % 2 == 0 then b0 + 0x100 * (b1 % 0x10) else b0 / 0x10 + 0x10 * b1
    case Fat16 =>
      ByteOfFat(g, v, 2 * c) as int + 0x100 * (ByteOfFat(g, v, 2 * c + 1) as int)
    case Fat32 =>
      var b0, b1 := ByteOfFat(g, v, 4 * c) as int, ByteOfFat(g, v, 4 * c + 1) as int;
      var b2, b3 := ByteOfFat(g, v, 4 * c + 2) as int, ByteOfFat(g, v, 4 * c + 3) as int;
      b0 + 0x100 * b1 + 0x1_0000 * b2 + 0x100_0000 * (b3 % 0x10)
  }

  lemma Nibbles(b0: byte, b1: byte)
    ensures (b0 as int + 0x100 * (b1 as int)) % 0x1000 == b0 as int + 0x100 * (b1 as int % 0x10)
    ensures (b0 as int + 0x100 * (b1 as int)) / 0x10 == b0 as int / 0x10 + 0x10 * (b1 as int)
  {
  }

  lemma Low28(b0: byte, b1: byte, b2: byte, b3: byte)
    ensures (b0 as int + 0x100 * (b1 as int) + 0x1_0000 * (b2 as int) + 0x100_0000 * (b3 as int)) % 0x1000_0000
         == b0 as int + 0x100 * (b1 as int) + 0x1_0000 * (b2 as int) + 0x100_0000 * (b3 as int % 0x10)
  {
    var x := b0 as int + 0x100 * (b1 as int) + 0x1_0000 * (b2 as int) + 0x100_0000 * (b3 as int % 0x10);
    assert b3 as int == 0x10 * (b3 as int / 0x10) + b3 as int % 0x10;
    DivModUnique(x + 0x1000_0000 * (b3 as int / 0x10), 0x1000_0000, b3 as int / 0x10, x);
  }

  lemma Place16(c: nat)
    ensures 2 * c / 512 == c / 256 && 2 * c % 512 == c * 2 % 512
    ensures (2 * c + 1) / 512 == c / 256 && (2 * c + 1) % 512 == c * 2 % 512 + 1
  {
  }

  lemma Place32(c: nat, k: nat)
    requires k < 4
    ensures (4 * c + k) / 512 == c / 128 && (4 * c + k) % 512 == c * 4 % 512 + k
  {
    Slot32(c);
    DivModUnique(4 * c + k, 512, c / 128, 4 * (c % 128) + k);
  }

  lemma Entry12(g: Layout, v: seq<Sector>, c: nat)
    requires g.Checked(|v|) && c < g.nFatent && g.fsType == Fat12
    ensures Entry(g, v, c) == FromBytes(g, v, c)
  {
    BytesInside(g, v, c);
    Nibbles(ByteOfFat(g, v, c + c / 2), ByteOfFat(g, v, c + c / 2 + 1));
  }

  lemma Entry16(g: Layout, v: seq<Sector>, c: nat)
    requires g.Checked(|v|) && c < g.nFatent && g.fsType == Fat16
    ensures Entry(g, v, c) == FromBytes(g, v, c)
  {
    BytesInside(g, v, c);
    Place16(c);
  }

  lemma Entry32(g: Layout, v: seq<Sector>, c: nat)
    requires g.Checked(|v|) && c < g.nFatent && g.fsType == Fat32
    ensures Entry(g, v, c) == FromBytes(g, v, c)
  {
    BytesInside(g, v, c);
    Place32(c, 0);
    Place32(c, 1);
    Place32(c, 2);
    Place32(c, 3);
    Low28(ByteOfFat(g, v, 4 * c), ByteOfFat(g, v, 4 * c + 1), ByteOfFat(g, v, 4 * c + 2), ByteOfFat(g, v, 4 * c + 3));
  }

  // Every entry of the FAT is what its bytes say.
  lemma EntryIsFromBytes(g: Layout, v: seq<Sector>, c: nat)
    requires g.Checked(|v|) && c < g.nFatent
    ensures Entry(g, v, c) == FromBytes(g, v, c)
  {
    hide Entry, FromBytes;
    match g.fsType
    case Fat12 => Entry12(g, v, c);
    case Fat16 => Entry16(g, v, c);
    case Fat32 => Entry32(g, v, c);
  }

  // Byte k of the bytes of an entry of type t for cluster c after value val was stored, x before.
  function StoredByte(t: FsType, c: nat, val: dword, k: nat, x: byte): (b: int)
    requires k < EntryBytes(t)
  {
    match t
    case Fat12 =>
      if c % 2 == 0 then if k == 0 then val % 0x100 else val / 0x100 % 0x10 + 0x10 * (x / 0x10)
      else if k == 0 then x % 0x10 + 0x10 * (val % 0x10) else val / 0x10 % 0x100
    case Fat16 =>
      if k == 0 then val % 0x100 else val / 0x100 % 0x100
    case Fat32 =>
      if k == 0 then val % 0x100
      else if k == 1 then val / 0x100 % 0x100
      else if k == 2 then val / 0x1_0000 % 0x100
      else val / 0x100_0000 % 0x10 + 0x10 * BitOr(val / 0x1000_0000, x / 0x10)
  }

  // From v to w, the bytes of entry c were stored, and no other byte of FAT copy 1 was changed.
  ghost predicate BytesStored(g: Layout, v: seq<Sector>, w: seq<Sector>, c: nat, val: dword) {
    && |w| == |v|
    && forall o: nat {:trigger HasByte(g, v, o)} :: HasByte(g, v, o) ==>
      ByteOfFat(g, w, o) as int == AfterStore(g.fsType, c, val, o, ByteOfFat(g, v, o))
  }

  function AfterStore(t: FsType, c: nat, val: dword, o: nat, x: byte): int {
    var p := FirstByte(t, c);
    if p <= o < p + EntryBytes(t) then StoredByte(t, c, val, o - p, x) else x
  }

  lemma Stored12(g: Layout, v: seq<Sector>, c: nat, val: dword, o: nat)
    requires g.Checked(|v|) && g.fsType == Fat12 && c < g.nFatent && HasByte(g, v, o)
    ensures ByteOfFat(g, Store12(g, v, c, val), o) as int == AfterStore(Fat12, c, val, o, ByteOfFat(g, v, o))
  {
    hide StoreByte;
    g.Inside12(c, |v|);
    var p, odd := Offset12(c), c % 2 == 1;
    TwoBytesAt(g, v, p, Low12(FatByte(g, v, p), val, odd), High12(FatByte(g, v, p + 1), val, odd), o);
  }

  lemma Stored16(g: Layout, v: seq<Sector>, c: nat, val: dword, o: nat)
    requires g.Checked(|v|) && g.fsType == Fat16 && c < g.nFatent && HasByte(g, v, o)
    ensures ByteOfFat(g, Store16(g, v, c, val), o) as int == AfterStore(Fat16, c, val, o, ByteOfFat(g, v, o))
  {
    hide Store;
    g.Inside16(c, |v|);
    Place16(c);
    var s := g.fatbase + c / 256;
    StoreAt(g, v, s, StWord(v[s], c * 2 % 512, val), g.fatbase + o / 512);
    InSameSector(o, 2 * c, 2);
  }

  lemma Stored32(g: Layout, v: seq<Sector>, c: nat, val: dword, o: nat)
    requires g.Checked(|v|) && g.fsType == Fat32 && c < g.nFatent && HasByte(g, v, o)
    ensures ByteOfFat(g, Store32(g, v, c, val), o) as int == AfterStore(Fat32, c, val, o, ByteOfFat(g, v, o))
  {
    hide Store, Merge32;
    g.Inside32(c, |v|);
    Place32(c, 0);
    Place32(c, 3);
    var s, p := g.fatbase + c / 128, c * 4 % 512;
    var m := Merge32(LdDword(v[s], p), val);
    StoreAt(g, v, s, StDword(v[s], p, m), g.fatbase + o / 512);
    InSameSector(o, 4 * c, 4);
    MergedBytes(v[s], p, val);
  }

  // A byte lies among n bytes from p on exactly if it does so in the sector that holds these.
  lemma InSameSector(o: nat, p: nat, n: nat)
    requires n > 0 && p / 512 == (p + n - 1) / 512
    ensures p <= o < p + n <==> o / 512 == p / 512 && p % 512 <= o % 512 < p % 512 + n
  {
  }

  lemma MergedBytes(x: Sector, p: nat, val: dword)
    requires p + 4 <= 512
    ensures var m := Merge32(LdDword(x, p), val);
            && m % 0x100 == val % 0x100 && m / 0x100 % 0x100 == val / 0x100 % 0x100
            && m / 0x1_0000 % 0x100 == val / 0x1_0000 % 0x100
            && m / 0x100_0000 == val / 0x100_0000 % 0x10 + 0x10 * BitOr(val / 0x1000_0000, x[p + 3] / 0x10)
  {
    hide BitOr, Merge32;
    var y := LdDword(x, p);
    var n := BitOr(val / 0x1000_0000, y / 0x1000_0000);
    MergeParts(y, val);
    TopOfBytes(x, p);
    var m := Merge32(y, val);
    assert m == val % 0x1000_0000 + 0x1000_0000 * n;
    SplitLow(val, n, m);
  }

  lemma TopOfBytes(x: Sector, p: nat)
    requires p + 4 <= 512
    ensures LdDword(x, p) / 0x1000_0000 == x[p + 3] / 0x10
  {
    var b := x[p + 3] as int;
    var r := x[p] as int + 0x100 * (x[p + 1] as int) + 0x1_0000 * (x[p + 2] as int) + 0x100_0000 * (b % 0x10);
    assert LdDword(x, p) == 0x1000_0000 * (b / 0x10) + r;
    DivModUnique(LdDword(x, p), 0x1000_0000, b / 0x10, r);
  }

  lemma SplitLow(val: dword, n: nat, m: nat)
    requires m == val % 0x1000_0000 + 0x1000_0000 * n
    ensures m % 0x100 == val % 0x100 && m / 0x100 % 0x100 == val / 0x100 % 0x100
    ensures m / 0x1_0000 % 0x100 == val / 0x1_0000 % 0x100 && m / 0x100_0000 == val / 0x100_0000 % 0x10 + 0x10 * n
  {
    var b0, b1, b2, t := InBytes(val);
    assert t == 0x10 * (t / 0x10) + t % 0x10;
    var low := b0 + 0x100 * b1 + 0x1_0000 * b2 + 0x100_0000 * (t % 0x10);
    DivModUnique(val, 0x1000_0000, t / 0x10, low);
    Digits(m, b0, b1, b2, t % 0x10 + 0x10 * n);
  }

  lemma InBytes(x: nat) returns (b0: byte, b1: byte, b2: byte, t: nat)
    ensures x == b0 + 0x100 * b1 + 0x1_0000 * b2 + 0x100_0000 * t
    ensures x % 0x100 == b0 && x / 0x100 % 0x100 == b1 && x / 0x1_0000 % 0x100 == b2 && x / 0x100_0000 == t
  {
    b0, b1, b2, t := x % 0x100, x / 0x100 % 0x100, x / 0x100 / 0x100 % 0x100, x / 0x100 / 0x100 / 0x100;
    Digits(x, b0, b1, b2, t);
  }

  lemma Digits(x: nat, b0: byte, b1: byte, b2: byte, t: nat)
    requires x == b0 + 0x100 * b1 + 0x1_0000 * b2 + 0x100_0000 * t
    ensures x % 0x100 == b0 && x / 0x100 % 0x100 == b1 && x / 0x1_0000 % 0x100 == b2 && x / 0x100_0000 == t
  {
    var y := b1 + 0x100 * b2 + 0x1_0000 * t;
    var z := b2 + 0x100 * t;
    DivModUnique(x, 0x100, y, b0);
    DivModUnique(y, 0x100, z, b1);
    DivModUnique(z, 0x100, t, b2);
    DivModUnique(x, 0x1_0000, z, b0 + 0x100 * b1);
    DivModUnique(x, 0x100_0000, t, b0 + 0x100 * b1 + 0x1_0000 * b2);
  }

  // What storing an entry does to the bytes.
  lemma PutStoresBytes(g: Layout, v: seq<Sector>, c: nat, val: dword)
    requires g.Checked(|v|) && c < g.nFatent
    ensures BytesStored(g, v, Put(g, v, c, val), c, val)
  {
    hide Store12, Store16, Store32, ByteOfFat, StoredByte;
    var w := Put(g, v, c, val);
    forall o: nat | HasByte(g, v, o)
      ensures ByteOfFat(g, w, o) as int == AfterStore(g.fsType, c, val, o, ByteOfFat(g, v, o))
    {
      match g.fsType
      case Fat12 => Stored12(g, v, c, val, o);
      case Fat16 => Stored16(g, v, c, val, o);
      case Fat32 => Stored32(g, v, c, val, o);
    }
  }
}
