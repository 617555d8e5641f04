/**
 Directory entries: 32-byte slots of a directory sector, and the fields the file system
 reads and writes in them.
*/
module Entries {
  import opened Bytes

  // A directory entry, long or short.
  type Slot = e: seq<byte> | |e| == 32 witness seq(32, _ => 0)

  function SlotAt(x: Sector, o: nat): Slot
    requires o < 16
  {
    x[32 * o..32 * o + 32]
  }

  // Sector x with its o-th slot replaced.
  function WithSlot(x: Sector, o: nat, e: Slot): Sector
    requires o < 16
  {
    x[..32 * o] + e + x[32 * o + 32..]
  }

  lemma WithSlotAt(x: Sector, o: nat, e: Slot, p: nat)
    requires o < 16 && p < 16
    ensures SlotAt(WithSlot(x, o, e), p) == if p == o then e else SlotAt(x, p)
  {
    var w := WithSlot(x, o, e);
    forall k | 0 <= k < 32
      ensures SlotAt(w, p)[k] == if p == o then e[k] else SlotAt(x, p)[k]
    {
      assert SlotAt(w, p)[k] == w[32 * p + k];
    }
  }

  // The entry is in use and names an object, not a part of a long name or a volume label.
  predicate Live(e: Slot) {
    e[0] != 0 && e[0] != 0xE5 && e[11] / 8 % 2 == 0
  }

  // Times, start cluster and size are zero.
  predicate ClearFrom13(e: Slot) {
    forall k :: 13 <= k < 32 ==> e[k] == 0
  }

  function StartCluster(e: Slot): dword {
    0x1_0000 * LdWord(e, 20) + LdWord(e, 26)
  }

  function WithCluster(e: Slot, c: dword): Slot {
    StWord(StWord(e, 26, c), 20, c / 0x1_0000)
  }

  function FileSize(e: Slot): dword {
    LdDword(e, 28)
  }

  lemma ClusterReadsBack(e: Slot, c: dword)
    ensures StartCluster(WithCluster(e, c)) == c && FileSize(WithCluster(e, c)) == FileSize(e)
    ensures WithCluster(e, c)[..20] == e[..20]
  {
    var w := StWord(e, 26, c);
    WordRoundTrip(e, 26, c);
    WordRoundTrip(w, 20, c / 0x1_0000);
    WordFrame(w, 20, c / 0x1_0000, 26);
    assert WithCluster(e, c)[28..] == e[28..];
  }

  // The entry f_sync leaves: archived, with the size, start cluster and write time of the file.
  function Synced(e: Slot, size: dword, c: dword, time: dword): Slot {
    var a := e[11 := if e[11] / 0x20 % 2 == 0 then e[11] + 0x20 else e[11]];
    StDword(WithCluster(StDword(a, 28, size), c), 22, time)
  }

  lemma SyncedReadsBack(e: Slot, size: dword, c: dword, time: dword)
    ensures StartCluster(Synced(e, size, c, time)) == c && FileSize(Synced(e, size, c, time)) == size
    ensures LdDword(Synced(e, size, c, time), 22) == time
    ensures Synced(e, size, c, time)[..11] == e[..11] && (Live(Synced(e, size, c, time)) <==> Live(e))
  {
    hide StDword, StWord, LdDword, StartCluster, FileSize, WithCluster;
    var a := e[11 := if e[11] / 0x20 % 2 == 0 then e[11] + 0x20 else e[11]];
    var b := StDword(a, 28, size);
    SizeReadsBack(a, size);
    ClusterReadsBack(b, c);
    var w := WithCluster(b, c);
    TimeReadsBack(w, time);
    var r := StDword(w, 22, time);
    assert r[..20] == a[..20] by { Shorter(r, w, 22); Shorter(b, a, 28); }
    assert forall k :: 0 <= k < 20 ==> r[k] == r[..20][k] && a[k] == a[..20][k];
    assert forall k :: 0 <= k < 11 ==> r[k] == e[k];
  }

  lemma Shorter(r: Slot, w: Slot, n: nat)
    requires 20 <= n <= 32 && r[..n] == w[..n]
    ensures r[..20] == w[..20]
  {
    assert r[..20] == r[..n][..20] && w[..20] == w[..n][..20];
  }

  lemma SizeReadsBack(e: Slot, size: dword)
    ensures FileSize(StDword(e, 28, size)) == size && StDword(e, 28, size)[..28] == e[..28]
  {
    DwordRoundTrip(e, 28, size);
  }

  // The write time lies between the two halves of the start cluster.
  lemma TimeReadsBack(e: Slot, time: dword)
    ensures LdDword(StDword(e, 22, time), 22) == time && StDword(e, 22, time)[..22] == e[..22]
    ensures StartCluster(StDword(e, 22, time)) == StartCluster(e) && FileSize(StDword(e, 22, time)) == FileSize(e)
  {
    DwordRoundTrip(e, 22, time);
  }

  // The entry f_open leaves when it overwrites a file: no attributes, no size, no cluster.
  function Emptied(e: Slot, time: dword): Slot {
    WithCluster(StDword(StDword(e, 14, time)[11 := 0], 28, 0), 0)
  }

  lemma EmptiedReadsBack(e: Slot, time: dword)
    ensures StartCluster(Emptied(e, time)) == 0 && FileSize(Emptied(e, time)) == 0
    ensures Emptied(e, time)[..11] == e[..11] && LdDword(Emptied(e, time), 14) == time && Emptied(e, time)[11] == 0
  {
    var a := StDword(e, 14, time);
    var b := a[11 := 0];
    var c := StDword(b, 28, 0);
    DwordRoundTrip(e, 14, time);
    DwordRoundTrip(b, 28, 0);
    ClusterReadsBack(c, 0);
    assert Emptied(e, time)[..20] == c[..20];
    assert c[..28] == b[..28];
    assert forall k :: 0 <= k < 11 ==> Emptied(e, time)[k] == e[k];
    assert forall k :: 14 <= k < 18 ==> Emptied(e, time)[k] == a[k];
  }

  // ----- the bytes of an entry

  // Four bytes, least significant first.
  function FromFour(b0: byte, b1: byte, b2: byte, b3: byte): dword {
    b0 as int + 0x100 * (b1 as int) + 0x1_0000 * (b2 as int) + 0x100_0000 * (b3 as int)
  }

  // Byte k of a double word.
  function ByteOf(d: dword, k: nat): int
    requires k < 4
  {
    if k == 0 then d % 0x100
    else if k == 1 then d / 0x100 % 0x100
    else if k == 2 then d / 0x1_0000 % 0x100
    else d / 0x100_0000
  }

  // Where the fields of an entry lie: the start cluster in two halves, and the size.
  lemma FieldsFromBytes(e: Slot)
    ensures StartCluster(e) == FromFour(e[26], e[27], e[20], e[21])
    ensures FileSize(e) == FromFour(e[28], e[29], e[30], e[31])
  {
  }

  // The half of a start cluster stored at offset 20.
  lemma UpperHalf(c: dword)
    ensures c / 0x1_0000 % 0x100 == ByteOf(c, 2) && c / 0x1_0000 / 0x100 % 0x100 == ByteOf(c, 3)
  {
  }

  // The entry f_sync leaves, byte by byte: attribute, write time, start cluster and size.
  lemma SyncedInBytes(e: Slot, size: dword, c: dword, time: dword)
    ensures var r := Synced(e, size, c, time);
            && (forall k :: 0 <= k < 20 && k != 11 ==> r[k] == e[k])
            && r[11] as int == (if e[11] / 0x20 % 2 == 0 then e[11] as int + 0x20 else e[11] as int)
            && r[20] as int == ByteOf(c, 2) && r[21] as int == ByteOf(c, 3)
            && r[26] as int == ByteOf(c, 0) && r[27] as int == ByteOf(c, 1)
            && (forall k :: 0 <= k < 4 ==> r[22 + k] as int == ByteOf(time, k) && r[28 + k] as int == ByteOf(size, k))
  {
    UpperHalf(c);
  }

  // The entry f_open leaves when it overwrites a file: creation time, and neither attributes, cluster nor size.
  lemma EmptiedInBytes(e: Slot, time: dword)
    ensures var r := Emptied(e, time);
            && (forall k :: 0 <= k < 4 ==> r[14 + k] as int == ByteOf(time, k) && r[28 + k] == 0)
            && r[11] == 0 && r[20] == 0 && r[21] == 0 && r[26] == 0 && r[27] == 0
            && (forall k :: (0 <= k < 14 && k != 11) || 18 <= k < 20 || 22 <= k < 26 ==> r[k] == e[k])
  {
  }

  // Stores into a slot of a sector.
  lemma SlotByte(x: Sector, o: nat, e: Slot, p: nat, b: byte)
    requires o < 16 && p < 32
    ensures WithSlot(x, o, e)[32 * o + p := b] == WithSlot(x, o, e[p := b])
  {
  }

  lemma SlotWord(x: Sector, o: nat, e: Slot, p: nat, v: dword)
    requires o < 16 && p + 2 <= 32
    ensures StWord(WithSlot(x, o, e), 32 * o + p, v) == WithSlot(x, o, StWord(e, p, v))
  {
  }

  lemma SlotDword(x: Sector, o: nat, e: Slot, p: nat, v: dword)
    requires o < 16 && p + 4 <= 32
    ensures StDword(WithSlot(x, o, e), 32 * o + p, v) == WithSlot(x, o, StDword(e, p, v))
  {
  }

  lemma SameSlot(x: Sector, o: nat)
    requires o < 16
    ensures WithSlot(x, o, SlotAt(x, o)) == x
  {
  }

  lemma ByteOfSlot(x: Sector, o: nat, p: nat)
    requires o < 16 && p < 32
    ensures x[32 * o + p] == SlotAt(x, o)[p]
  {
  }

  lemma SyncedInSteps(e: Slot, size: dword, c: dword, time: dword)
    ensures var a := StDword(e[11 := if e[11] / 0x20 % 2 == 0 then e[11] + 0x20 else e[11]], 28, size);
            Synced(e, size, c, time) == StDword(StWord(StWord(a, 26, c), 20, c / 0x1_0000), 22, time)
  {
    hide StDword, StWord;
  }

  // Store the new state of a file in its entry.
  method StoreSynced(win: array<byte>, o: nat, size: dword, c: dword, time: dword)
    requires win.Length == 512 && o < 16
    modifies win
    ensures var x: Sector := old(win[..]); win[..] == WithSlot(x, o, Synced(SlotAt(x, o), size, c, time))
  {
    hide *;
    ghost var x: Sector := win[..];
    ghost var e := SlotAt(x, o);
    SyncedInSteps(e, size, c, time);
    SameSlot(x, o);
    var a: byte := win[32 * o + 11];
    ByteOfSlot(x, o, 11);
    if a / 0x20 % 2 == 0 { a := a + 0x20; }
    win[32 * o + 11] := a;
    assert win[..] == x[32 * o + 11 := a];
    SlotByte(x, o, e, 11, a);
    e := e[11 := a];
    StoreDword(win, 32 * o + 28, size);
    SlotDword(x, o, e, 28, size);
    e := StDword(e, 28, size);
    StoreWord(win, 32 * o + 26, c);
    SlotWord(x, o, e, 26, c);
    e := StWord(e, 26, c);
    StoreWord(win, 32 * o + 20, c / 0x1_0000);
    SlotWord(x, o, e, 20, c / 0x1_0000);
    e := StWord(e, 20, c / 0x1_0000);
    StoreDword(win, 32 * o + 22, time);
    SlotDword(x, o, e, 22, time);
  }

  // Store the entry of a file that is overwritten.
  method StoreEmptied(win: array<byte>, o: nat, time: dword)
    requires win.Length == 512 && o < 16
    modifies win
    ensures var x: Sector := old(win[..]); win[..] == WithSlot(x, o, Emptied(SlotAt(x, o), time))
  {
    ghost var x: Sector := win[..];
    ghost var e := SlotAt(x, o);
    SameSlot(x, o);
    StoreDword(win, 32 * o + 14, time);
    SlotDword(x, o, e, 14, time);
    e := StDword(e, 14, time);
    win[32 * o + 11] := 0;
    SlotByte(x, o, e, 11, 0);
    e := e[11 := 0];
    assert win[..] == WithSlot(x, o, e);
    StoreDword(win, 32 * o + 28, 0);
    SlotDword(x, o, e, 28, 0);
    e := StDword(e, 28, 0);
    StoreWord(win, 32 * o + 26, 0);
    SlotWord(x, o, e, 26, 0);
    e := StWord(e, 26, 0);
    StoreWord(win, 32 * o + 20, 0);
    SlotWord(x, o, e, 20, 0);
  }
}
