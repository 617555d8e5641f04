/**
 Creating a file system: the partition table, boot sector, FAT, root directory and FSInfo
 sector that formatting writes, and what mounting makes of them.
*/
module MakeFs {
  import opened Bytes
  import opened Geometry
  import opened DiskIO
  import opened FatMap
  import opened Mount
  import opened Formatting
  import Chains

  const JUMP_AND_OEM: seq<byte> := [0xEB, 0xFE, 0x90, 0x4D, 0x53, 0x44, 0x4F, 0x53, 0x35, 0x2E, 0x30]
  const LABEL: seq<byte> := [0x4E, 0x4F, 0x20, 0x4E, 0x41, 0x4D, 0x45, 0x20, 0x20, 0x20, 0x20]
  const FAT_TYPE: seq<byte> := [0x46, 0x41, 0x54, 0x20, 0x20, 0x20, 0x20, 0x20]
  const FAT32_TYPE: seq<byte> := [0x46, 0x41, 0x54, 0x33, 0x32, 0x20, 0x20, 0x20]

  // ----- what the sectors hold

  function SystemId(p: Plan): byte {
    match p.t
    case Fat12 => 0x01
    case Fat16 => if p.nVol < 0x1_0000 then 0x04 else 0x06
    case Fat32 => 0x0C
  }

  function Media(sfd: byte): byte {
    if sfd != 0 then 0xF0 else 0xF8
  }

  // A partition table with one entry, of system type id, with end sector s and end cylinder c, for `size` sectors.
  ghost predicate IsTable(b: Sector, id: byte, s: byte, c: byte, size: dword) {
    && (forall i :: 0 <= i < 447 || 462 <= i < 510 ==> b[i] == 0)
    && b[447] == 1 && b[448] == 1 && b[449] == 0 && b[450] == id && b[451] == 254 && b[452] == s && b[453] == c
    && LdDword(b, 454) == 63 && LdDword(b, 458) == size && LdWord(b, 510) == 0xAA55
  }

  // The master boot record of a plan.
  ghost predicate IsPartitionTable(b: Sector, p: Plan) {
    var n := (p.bVol + p.nVol) / 63 / 255;
    IsTable(b, SystemId(p), BitOr(n / 4, 63) % 0x100, n % 0x100, p.nVol)
  }

  // The part of the boot sector that all FAT types share.
  ghost predicate IsHead(b: seq<byte>, p: Plan)
    requires |b| == 512 && p.au < 0x100 && p.nRsv < 0x1_0000
  {
    && b[..11] == JUMP_AND_OEM
    && LdWord(b, 11) == 512 && b[13] == p.au && LdWord(b, 14) == p.nRsv && b[16] == 1
    && LdWord(b, 17) == (if p.t == Fat32 then 0 else N_ROOTDIR)
  }

  ghost predicate IsSize(b: seq<byte>, p: Plan, md: byte)
    requires |b| == 512
  {
    && LdWord(b, 19) == (if p.nVol < 0x1_0000 then p.nVol else 0) && b[21] == md
    && LdWord(b, 24) == 63 && LdWord(b, 26) == 255 && LdDword(b, 28) == p.bVol
    && LdDword(b, 32) == (if p.nVol < 0x1_0000 then 0 else p.nVol)
  }

  // The part behind it, on FAT32 and on the other types.
  ghost predicate IsTail32(b: seq<byte>, p: Plan, time: dword)
    requires |b| == 512
  {
    && LdWord(b, 22) == 0 && LdDword(b, 36) == p.nFat && LdDword(b, 44) == 2 && LdWord(b, 48) == 1 && LdWord(b, 50) == 6
    && b[64] == 0x80 && b[66] == 0x29 && LdDword(b, 67) == time && b[71..90] == LABEL + FAT32_TYPE
  }

  ghost predicate IsTail16(b: seq<byte>, p: Plan, time: dword)
    requires |b| == 512
  {
    && LdWord(b, 22) == p.nFat && b[36] == 0x80 && b[38] == 0x29 && LdDword(b, 39) == time
    && b[43..62] == LABEL + FAT_TYPE
  }

  // The boot sector.
  ghost predicate IsBoot(b: Sector, p: Plan, md: byte, time: dword)
    requires p.au < 0x100 && p.nRsv < 0x1_0000
  {
    && IsHead(b, p) && IsSize(b, p, md) && LdWord(b, 510) == 0xAA55
    && if p.t == Fat32 then IsTail32(b, p, time) else IsTail16(b, p, time)
  }

  // The first sector of the FAT.
  function FirstFat(t: FsType, md: byte): (s: Sector) {
    match t
    case Fat12 => StDword(ZeroSector(), 0, 0x00FF_FF00 + md)
    case Fat16 => StDword(ZeroSector(), 0, 0xFFFF_FF00 + md)
    case Fat32 => StDword(StDword(StDword(ZeroSector(), 0, 0xFFFF_FF00 + md), 4, 0xFFFF_FFFF), 8, 0x0FFF_FFFF)
  }

  // The sectors a plan writes.
  predicate Written(p: Plan, sfd: byte, s: int) {
    || (s == 0 && sfd == 0) || s == p.bVol || (p.t == Fat32 && s in {p.bVol + 1, p.bVol + 6, p.bVol + 7})
    || p.BFat() <= s < p.End()
  }

  // Disk d is disk e formatted by plan p.
  ghost predicate Laid(e: seq<Sector>, d: seq<Sector>, p: Plan, sfd: byte, time: dword)
    requires p.au < 0x100 && p.nRsv < 0x1_0000
  {
    && |d| == |e| && p.End() <= |d| && p.bVol < p.BFat() && (p.t == Fat32 ==> p.bVol + 8 <= p.BFat())
    && (sfd == 0 ==> p.bVol > 0 && IsPartitionTable(d[0], p))
    && IsBoot(d[p.bVol], p, Media(sfd), time)
    && (p.t == Fat32 ==> d[p.bVol + 6] == d[p.bVol] && d[p.bVol + 7] == d[p.bVol + 1] && IsInfo(d[p.bVol + 1], p.nClst))
    && d[p.BFat()] == FirstFat(p.t, Media(sfd))
    && (forall s :: p.BFat() < s < p.End() ==> d[s] == ZeroSector())
    && (forall s :: 0 <= s < |d| && !Written(p, sfd, s) ==> d[s] == e[s])
  }

  // The FSInfo sector of a new FAT32 volume.
  ghost predicate IsInfo(b: Sector, n: nat) {
    IsFsInfo(b) && LdDword(b, 488) == n - 1 && LdDword(b, 492) == 2
  }

  // ----- writing fields

  method PutBytes(win: array<byte>, o: nat, x: seq<byte>)
    requires o + |x| <= win.Length
    modifies win
    ensures win[o..o + |x|] == x && forall i :: 0 <= i < win.Length && !(o <= i < o + |x|) ==> win[i] == old(win[i])
  {
    forall i | o <= i < o + |x| { win[i] := x[i - o]; }
  }

  method PutWord(win: array<byte>, o: nat, v: dword)
    requires o + 2 <= win.Length
    modifies win
    ensures LdWord(win[..], o) == v % 0x1_0000 && forall i :: 0 <= i < win.Length && i != o && i != o + 1 ==>
        win[i] == old(win[i])
  {
    WordRoundTrip(win[..], o, v);
    ghost var b := win[..];
    StoreWord(win, o, v);
    assert forall i :: 0 <= i < win.Length && i != o && i != o + 1 ==> win[..][i] == b[i];
  }

  method PutDword(win: array<byte>, o: nat, v: dword)
    requires o + 4 <= win.Length
    modifies win
    ensures LdDword(win[..], o) == v && forall i :: 0 <= i < win.Length && !(o <= i < o + 4) ==> win[i] == old(win[i])
  {
    DwordRoundTrip(win[..], o, v);
    ghost var b := win[..];
    StoreDword(win, o, v);
    assert forall i :: 0 <= i < win.Length && !(o <= i < o + 4) ==> win[..][i] == b[i];
  }

  method ClearWindow(win: array<byte>)
    requires win.Length == 512
    modifies win
    ensures win[..] == ZeroSector()
  {
    forall i | 0 <= i < 512 { win[i] := 0; }
  }

  method BuildTable(win: array<byte>, id: byte, s: byte, c: byte, size: dword)
    requires win.Length == 512
    modifies win
    ensures IsTable(win[..], id, s, c, size)
  {
    hide LdDword, LdWord;
    ClearWindow(win);
    assert forall i :: 0 <= i < 512 ==> win[..][i] == 0;
    win[447], win[448], win[449], win[450], win[451], win[452], win[453] := 1, 1, 0, id, 254, s, c;
    PutDword(win, 454, 63);
    ghost var b := win[..];
    PutDword(win, 458, size);
    DwordKept(b, win[..], 454);
    b := win[..];
    PutWord(win, 510, 0xAA55);
    DwordKept(b, win[..], 454);
    DwordKept(b, win[..], 458);
  }

  lemma DwordKept(b: seq<byte>, c: seq<byte>, o: nat)
    requires o + 4 <= |b| == |c| && forall i :: o <= i < o + 4 ==> c[i] == b[i]
    ensures LdDword(c, o) == LdDword(b, o)
  {
  }

  method BuildHead(win: array<byte>, p: Plan)
    requires win.Length == 512 && p.au < 0x100 && p.nRsv < 0x1_0000
    modifies win
    ensures IsHead(win[..], p) && forall i :: 19 <= i < 512 ==> win[i] == 0
  {
    ClearWindow(win);
    assert forall i :: 0 <= i < 512 ==> win[..][i] == 0;
    PutBytes(win, 0, JUMP_AND_OEM);
    PutWord(win, 11, 512);
    win[13] := p.au;
    PutWord(win, 14, p.nRsv);
    win[16] := 1;
    PutWord(win, 17, if p.t == Fat32 then 0 else N_ROOTDIR);
    assert win[..11] == JUMP_AND_OEM;
  }

  method BuildSize(win: array<byte>, p: Plan, md: byte)
    requires win.Length == 512 && forall i :: 19 <= i < 512 ==> win[i] == 0
    modifies win
    ensures IsSize(win[..], p, md) && win[22] == win[23] == 0
    ensures forall i :: 0 <= i < 19 || 36 <= i < 512 ==> win[i] == old(win[i])
  {
    if p.nVol < 0x1_0000 {
      PutWord(win, 19, p.nVol);
    } else {
      PutDword(win, 32, p.nVol);
    }
    win[21] := md;
    PutWord(win, 24, 63);
    PutWord(win, 26, 255);
    PutDword(win, 28, p.bVol);
  }

  method BuildTail32(win: array<byte>, p: Plan, time: dword)
    requires win.Length == 512 && win[22] == win[23] == 0
    modifies win
    ensures IsTail32(win[..], p, time) && forall i :: 0 <= i < 36 ==> win[i] == old(win[i])
  {
    PutDword(win, 67, time);
    PutDword(win, 36, p.nFat);
    PutDword(win, 44, 2);
    PutWord(win, 48, 1);
    PutWord(win, 50, 6);
    win[64], win[66] := 0x80, 0x29;
    PutBytes(win, 71, LABEL + FAT32_TYPE);
  }

  method BuildTail16(win: array<byte>, p: Plan, time: dword)
    requires win.Length == 512 && p.nFat < 0x1_0000
    modifies win
    ensures IsTail16(win[..], p, time) && forall i :: 0 <= i < 22 || 24 <= i < 36 ==> win[i] == old(win[i])
  {
    PutDword(win, 39, time);
    PutWord(win, 22, p.nFat);
    win[36], win[38] := 0x80, 0x29;
    PutBytes(win, 43, LABEL + FAT_TYPE);
  }

  lemma FieldsKept(b: seq<byte>, c: seq<byte>, p: Plan, md: byte)
    requires |b| == |c| == 512 && p.au < 0x100 && p.nRsv < 0x1_0000
    ensures (forall i :: 0 <= i < 19 ==> c[i] == b[i]) && IsHead(b, p) ==> IsHead(c, p)
    ensures (forall i :: 19 <= i < 22 || 24 <= i < 36 ==> c[i] == b[i]) && IsSize(b, p, md) ==> IsSize(c, p, md)
  {
    assert (forall i :: 0 <= i < 19 ==> c[i] == b[i]) ==> b[..11] == c[..11];
  }

  lemma TailKept(b: seq<byte>, c: seq<byte>, p: Plan, time: dword)
    requires |b| == |c| == 512 && forall i :: 0 <= i < 510 ==> c[i] == b[i]
    ensures IsTail32(b, p, time) ==> IsTail32(c, p, time)
    ensures IsTail16(b, p, time) ==> IsTail16(c, p, time)
  {
    assert b[71..90] == c[71..90] && b[43..62] == c[43..62];
  }

  method BuildBoot(win: array<byte>, p: Plan, md: byte, time: dword)
    requires win.Length == 512 && p.au < 0x100 && p.nRsv < 0x1_0000 && (p.t != Fat32 ==> p.nFat < 0x1_0000)
    modifies win
    ensures IsBoot(win[..], p, md, time)
  {
    hide IsHead, IsSize, IsTail16, IsTail32;
    BuildHead(win, p);
    ghost var b := win[..];
    BuildSize(win, p, md);
    FieldsKept(b, win[..], p, md);
    b := win[..];
    if p.t == Fat32 {
      BuildTail32(win, p, time);
    } else {
      BuildTail16(win, p, time);
    }
    FieldsKept(b, win[..], p, md);
    b := win[..];
    PutWord(win, 510, 0xAA55);
    FieldsKept(b, win[..], p, md);
    TailKept(b, win[..], p, time);
  }

  method BuildFirstFat(win: array<byte>, t: FsType, md: byte)
    requires win.Length == 512
    modifies win
    ensures win[..] == FirstFat(t, md)
  {
    ClearWindow(win);
    match t
    case Fat12 => StoreDword(win, 0, 0x00FF_FF00 + md);
    case Fat16 => StoreDword(win, 0, 0xFFFF_FF00 + md);
    case Fat32 =>
      StoreDword(win, 0, 0xFFFF_FF00 + md);
      StoreDword(win, 4, 0xFFFF_FFFF);
      StoreDword(win, 8, 0x0FFF_FFFF);
  }

  method BuildInfo(win: array<byte>, n: nat)
    requires win[..] == ZeroSector() && 1 <= n < 0x1_0000_0000
    modifies win
    ensures IsInfo(win[..], n)
  {
    PutDword(win, 0, 0x4161_5252);
    PutDword(win, 484, 0x6141_7272);
    PutDword(win, 488, n - 1);
    PutDword(win, 492, 2);
    PutWord(win, 510, 0xAA55);
  }

  // ----- the disk

  // Write n clear sectors from s on.
  method WriteZeros(disk: Disk, win: array<byte>, s: nat, n: nat) returns (ok: bool)
    requires win.Length == 512 && win[..] == ZeroSector()
    modifies disk
    ensures |disk.sectors| == |old(disk.sectors)| && ok == (n == 0 || s + n <= |disk.sectors|)
    ensures forall t :: 0 <= t < |disk.sectors| ==> disk.sectors[t] == if s <= t < s + n then ZeroSector()
        else old(disk.sectors)[t]
  {
    for i := 0 to n
      invariant |disk.sectors| == |old(disk.sectors)| && (i > 0 ==> s + i <= |disk.sectors|)
      invariant forall t :: 0 <= t < |disk.sectors| ==> disk.sectors[t] == if s <= t < s + i then ZeroSector()
          else old(disk.sectors)[t]
    {
      ok := disk.Write(win, s + i);
      if !ok { return; }
    }
    ok := true;
  }

  // Partition table, boot sector and its backup.
  method WriteBoot(disk: Disk, win: array<byte>, p: Plan, sfd: byte, time: dword) returns (ok: bool)
    requires win.Length == 512 && p.au < 0x100 && 1 <= p.nRsv < 0x1_0000 && (p.t != Fat32 ==> p.nFat < 0x1_0000)
    requires p.bVol + 8 <= |disk.sectors| < 0x1_0000_0000 && (sfd == 0 ==> p.bVol > 0)
    modifies disk, win
    ensures |disk.sectors| == |old(disk.sectors)| && ok
    ensures sfd == 0 ==> IsPartitionTable(disk.sectors[0], p)
    ensures IsBoot(disk.sectors[p.bVol], p, Media(sfd), time)
    ensures p.t == Fat32 ==> disk.sectors[p.bVol + 6] == disk.sectors[p.bVol]
    ensures forall s :: 0 <= s < |disk.sectors| && !Written(p, sfd, s) ==> disk.sectors[s] == old(disk.sectors)[s]
  {
    hide IsBoot, IsTable, BitOr, SystemId, Media;
    ok := true;
    if sfd == 0 {
      var n := (p.bVol + p.nVol) / 63 / 255;
      BuildTable(win, SystemId(p), BitOr(n / 4, 63) % 0x100, n % 0x100, p.nVol);
      ok := disk.Write(win, 0);
      if !ok { return; }
    }
    BuildBoot(win, p, Media(sfd), time);
    ok := disk.Write(win, p.bVol);
    if ok && p.t == Fat32 {
      var _ := disk.Write(win, p.bVol + 6);
    }
  }

  // The FAT and the root directory.
  method WriteTables(disk: Disk, win: array<byte>, p: Plan, md: byte) returns (ok: bool)
    requires win.Length == 512 && p.RootSectors() > 0
    modifies disk, win
    ensures |disk.sectors| == |old(disk.sectors)| && (ok ==> win[..] == ZeroSector())
    ensures ok == (p.End() <= |disk.sectors|)
    ensures ok ==> disk.sectors[p.BFat()] == FirstFat(p.t, md)
    ensures ok ==> forall s :: p.BFat() < s < p.End() ==> disk.sectors[s] == ZeroSector()
    ensures forall s :: 0 <= s < |disk.sectors| && !(p.BFat() <= s < p.End()) ==>
        disk.sectors[s] == old(disk.sectors)[s]
  {
    hide FirstFat;
    BuildFirstFat(win, p.t, md);
    ok := disk.Write(win, p.BFat());
    if !ok { return; }
    ClearWindow(win);
    ok := WriteZeros(disk, win, p.BFat() + 1, if p.nFat == 0 then 0 else p.nFat - 1);
    if !ok { return; }
    ok := WriteZeros(disk, win, p.BFat() + if p.nFat == 0 then 1 else p.nFat, p.RootSectors());
  }

  // The FSInfo sector and its backup.
  method WriteInfo(disk: Disk, win: array<byte>, p: Plan)
    requires win[..] == ZeroSector() && 1 <= p.nClst && p.bVol + 8 <= |disk.sectors|
    modifies disk, win
    ensures |disk.sectors| == |old(disk.sectors)| && IsInfo(disk.sectors[p.bVol + 1], p.nClst)
    ensures var x := disk.sectors[p.bVol + 1];
            disk.sectors == old(disk.sectors)[p.bVol + 1 := x][p.bVol + 7 := x]
  {
    hide IsInfo;
    BuildInfo(win, p.nClst);
    var _ := disk.Write(win, p.bVol + 1);
    var _ := disk.Write(win, p.bVol + 7);
  }

  // Format the disk, with a unit of `unit` bytes per cluster (0 chooses one), on a medium with erase blocks of
  // `block` sectors.
  method MkFs(disk: Disk, win: array<byte>, sfd: byte, unit: dword, block: dword, time: dword) returns (res: FResult)
    requires win.Length == 512 && |disk.sectors| < 0x1_0000_0000
    modifies disk, win
    ensures |disk.sectors| == |old(disk.sectors)|
    ensures match PlanFormat(|old(disk.sectors)|, sfd, unit, block)
            case Rejected(e) => res == e && disk.sectors == old(disk.sectors)
            case Planned(p) =>
              && p.au < 0x100 && p.nRsv < 0x1_0000 && res == (if p.End() <= |disk.sectors| then Ok else DiskErr)
              && (res == Ok ==> Laid(old(disk.sectors), disk.sectors, p, sfd, time))
  {
    hide PlanFormat, IsBoot, IsPartitionTable, FirstFat, IsInfo;
    ghost var e := disk.sectors;
    var f := MakePlan(|disk.sectors|, sfd, unit, block);
    if f.Rejected? { return f.res; }
    var p := f.plan;
    PlanSizes(p, |disk.sectors|, sfd, unit, block);
    var ok := WriteBoot(disk, win, p, sfd, time);
    if !ok { return DiskErr; }
    ok := WriteTables(disk, win, p, Media(sfd));
    if !ok { return DiskErr; }
    if p.t == Fat32 {
      WriteInfo(disk, win, p);
    }
    res := Ok;
  }

  // ----- mounting the new volume

  // Mounting finds the boot sector.
  lemma BootFound(e: seq<Sector>, d: seq<Sector>, p: Plan, sfd: byte, time: dword)
    requires p.au < 0x100 && p.nRsv < 0x1_0000 && Laid(e, d, p, sfd, time) && p.bVol == if sfd != 0 then 0 else 63
    ensures BootSector(d) == p.bVol < |d| && RecordKind(d, p.bVol) == 0
  {
    hide IsHead, IsSize, FirstFat, IsInfo, BitOr;
    var b := d[p.bVol];
    FatNamed(b, p, Media(sfd), time);
    if sfd == 0 {
      assert LdDword(d[0], 54) == 0 && LdDword(d[0], 82) == 0;
    }
  }

  lemma FatNamed(b: Sector, p: Plan, md: byte, time: dword)
    requires p.au < 0x100 && p.nRsv < 0x1_0000 && IsBoot(b, p, md, time)
    ensures LdWord(b, 510) == 0xAA55
    ensures LdDword(b, 54) % 0x100_0000 == 0x54_4146 || LdDword(b, 82) % 0x100_0000 == 0x54_4146
  {
    hide IsHead, IsSize;
    if p.t == Fat32 {
      assert b[71..90][11..14] == FAT32_TYPE[..3];
      assert b[82] == b[71..90][11] && b[83] == b[71..90][12] && b[84] == b[71..90][13];
    } else {
      assert b[54] == b[43..62][11] && b[55] == b[43..62][12] && b[56] == b[43..62][13];
    }
  }

  // And reads the planned fields.
  lemma BootReads(b: Sector, p: Plan, md: byte, time: dword)
    requires 0 < p.au < 0x100 && p.nRsv < 0x1_0000 && IsBoot(b, p, md, time) && 0 < p.nVol
    requires p.t != Fat32 ==> 1 <= p.nFat < 0x1_0000
    ensures ReadBpb(b) == BpbOf(p, LdDword(b, 44), LdWord(b, 48))
  {
  }

  // An entry of the new FAT: clusters are free but for the root directory's on FAT32.
  function FreshEntry(t: FsType, c: nat): nat {
    if t == Fat32 && c == 2 then 0x0FFF_FFFF else 0
  }

  lemma FirstZeros(t: FsType, md: byte)
    ensures var s := FirstFat(t, md);
            && (t == Fat12 ==> forall i :: 3 <= i < 512 ==> s[i] == 0)
            && (t == Fat16 ==> forall i :: 4 <= i < 512 ==> s[i] == 0)
            && (t == Fat32 ==> LdDword(s, 8) == 0x0FFF_FFFF && forall i :: 12 <= i < 512 ==> s[i] == 0)
  {
  }

  lemma EntryIsFresh(g: Layout, d: seq<Sector>, md: byte, c: nat)
    requires g.Checked(|d|) && 2 <= c < g.nFatent && g.fatbase + g.fsize <= |d|
    requires d[g.fatbase] == FirstFat(g.fsType, md) && forall s :: g.fatbase < s < g.fatbase + g.fsize ==>
        d[s] == ZeroSector()
    ensures Entry(g, d, c) == FreshEntry(g.fsType, c)
  {
    hide FirstFat;
    FirstZeros(g.fsType, md);
    match g.fsType
    case Fat12 =>
      g.Inside12(c, |d|);
      FreshByte(g, d, Offset12(c));
      FreshByte(g, d, Offset12(c) + 1);
    case Fat16 => Fresh16(g, d, c);
    case Fat32 => Fresh32(g, d, c);
  }

  lemma Fresh16(g: Layout, d: seq<Sector>, c: nat)
    requires g.Checked(|d|) && g.fsType == Fat16 && 2 <= c < g.nFatent && g.fatbase + g.fsize <= |d|
    requires forall i :: 4 <= i < 512 ==> d[g.fatbase][i] == 0
    requires forall s :: g.fatbase < s < g.fatbase + g.fsize ==> d[s] == ZeroSector()
    ensures Entry(g, d, c) == 0
  {
    g.Inside16(c, |d|);
  }

  lemma Fresh32(g: Layout, d: seq<Sector>, c: nat)
    requires g.Checked(|d|) && g.fsType == Fat32 && 2 <= c < g.nFatent && g.fatbase + g.fsize <= |d|
    requires LdDword(d[g.fatbase], 8) == 0x0FFF_FFFF && forall i :: 12 <= i < 512 ==> d[g.fatbase][i] == 0
    requires forall s :: g.fatbase < s < g.fatbase + g.fsize ==> d[s] == ZeroSector()
    ensures Entry(g, d, c) == FreshEntry(Fat32, c)
  {
    g.Inside32(c, |d|);
  }

  lemma FreshByte(g: Layout, d: seq<Sector>, o: nat)
    requires g.fsType == Fat12 && o / 512 < g.fsize && g.fatbase + g.fsize <= |d| && o >= 3
    requires forall i :: 3 <= i < 512 ==> d[g.fatbase][i] == 0
    requires forall s :: g.fatbase < s < g.fatbase + g.fsize ==> d[s] == ZeroSector()
    ensures FatByte(g, d, o) == 0
  {
  }

  lemma {:induction false} FreshBelow(f: seq<nat>, t: FsType, n: nat)
    requires n <= |f| && forall c :: 2 <= c < n ==> f[c] == FreshEntry(t, c)
    ensures Chains.FreeBelow(f, n) == if n <= 2 then 0 else if t == Fat32 then n - 3 else n - 2
    decreases n
  {
    if n > 2 {
      FreshBelow(f, t, n - 1);
    }
  }

  // The FAT of a new volume: every cluster is free, but for the root directory's on FAT32, which is a chain of its own.
  ghost predicate IsFresh(g: Layout, d: seq<Sector>, n: nat)
    requires g.Checked(|d|)
  {
    var f := FatOf(g, d);
    && (forall c :: 2 <= c < |f| ==> f[c] == FreshEntry(g.fsType, c))
    && Chains.CountFree(f) == (if g.fsType == Fat32 then n - 1 else n)
    && (g.fsType == Fat32 ==> Chains.IsChain(f, [2]))
  }

  lemma FatIsFresh(g: Layout, d: seq<Sector>, md: byte)
    requires g.Sound(|d|) && g.fatbase + g.fsize <= |d|
    requires d[g.fatbase] == FirstFat(g.fsType, md) && forall s :: g.fatbase < s < g.fatbase + g.fsize ==>
        d[s] == ZeroSector()
    ensures IsFresh(g, d, g.nFatent - 2)
  {
    var f := FatOf(g, d);
    forall c | 2 <= c < |f|
      ensures f[c] == FreshEntry(g.fsType, c)
    {
      EntryIsFresh(g, d, md, c);
    }
    hide FatMap.Entry, FirstFat;
    FreshBelow(f, g.fsType, |f|);
  }

  // What mounting a new volume finds.
  ghost predicate IsNew(o: Outcome, d: seq<Sector>, p: Plan) {
    && o.Mounted? && o.layout == LayoutFor(p) && o.layout.Sound(|d|) && IsFresh(o.layout, d, p.nClst)
    && if p.t == Fat32 then o.last == 2 && o.free == Chains.CountFree(FatOf(o.layout, d))
         else o.last == 0 && o.free == 0xFFFF_FFFF
  }

  lemma LaidFacts(e: seq<Sector>, d: seq<Sector>, p: Plan, sfd: byte, time: dword)
    requires p.au < 0x100 && p.nRsv < 0x1_0000 && Laid(e, d, p, sfd, time)
    ensures p.End() <= |d| && p.bVol < |d| && p.BFat() + p.nFat <= |d| && IsBoot(d[p.bVol], p, Media(sfd), time)
    ensures d[p.BFat()] == FirstFat(p.t, Media(sfd)) && forall s :: p.BFat() < s < p.BFat() + p.nFat ==>
        d[s] == ZeroSector()
  {
    hide IsBoot, FirstFat, IsInfo, IsPartitionTable;
  }

  lemma IsFitting(p: Plan, size: dword, sfd: byte, unit: dword, block: dword)
    requires PlanFormat(size, sfd, unit, block) == Planned(p) && p.End() <= size
    ensures Fits(p, size, sfd, unit, block)
  {
  }

  // What mounting does with a boot sector.
  lemma MountedWith(d: seq<Sector>, s: nat)
    requires BootSector(d) == s < |d| && RecordKind(d, s) == 0
    ensures var b, o := ReadBpb(d[s]), MountOutcome(d);
            && (!Accepts(b) ==> o == Mount.Refused(NoFilesystem))
            && (Accepts(b) ==> o.Mounted? && o.layout == LayoutOf(b, s))
  {
    hide Accepts, LayoutOf, ReadBpb, IsFsInfo;
  }

  lemma PlacesFor(p: Plan)
    ensures var g := LayoutFor(p);
        g.fatbase == p.BFat() && g.fsize == p.nFat && g.fsType == p.t && g.nFatent == p.nClst + 2
  {
  }

  lemma InfoFound(e: seq<Sector>, d: seq<Sector>, p: Plan, sfd: byte, time: dword)
    requires p.au < 0x100 && p.nRsv < 0x1_0000 && Laid(e, d, p, sfd, time)
    requires var o := MountOutcome(d);
        o.Mounted? && o.layout == LayoutFor(p) && o.layout.Sound(|d|) && IsFresh(o.layout, d, p.nClst)
    ensures IsNew(MountOutcome(d), d, p)
  {
    hide Accepts, LayoutOf, ReadBpb, IsFsInfo, FatOf, Layout.Checked, IsBoot, FirstFat, IsPartitionTable;
    hide Chains.CountFree, BootSector, RecordKind;
  }

  // A formatted disk mounts with a sound layout exactly if behind the aligned start of the data area there is room for
  // one cluster, and all clusters can be numbered. The layout then is the planned one, and the free count is exact.
  lemma FormattedMounts(e: seq<Sector>, d: seq<Sector>, p: Plan, sfd: byte, unit: dword, block: dword, time: dword)
    requires |d| < 0x1_0000_0000 && PlanFormat(|d|, sfd, unit, block) == Planned(p)
    requires p.au < 0x100 && p.nRsv < 0x1_0000 && Laid(e, d, p, sfd, time)
    ensures var o := MountOutcome(d);
            && (o.Mounted? && o.layout.Sound(|d|) <==> p.BData() + p.au <= |d| && p.nClst + 2 <= MAX_FATENT)
            && (p.BData() + p.au > |d| ==> o == Mount.Refused(NoFilesystem))
            && (p.BData() + p.au <= |d| && p.nClst + 2 <= MAX_FATENT ==> IsNew(o, d, p))
  {
    hide *;
    PlanSizes(p, |d|, sfd, unit, block);
    LaidFacts(e, d, p, sfd, time);
    IsFitting(p, |d|, sfd, unit, block);
    BootFound(e, d, p, sfd, time);
    PlanFacts(p, |d|, sfd, unit, block);
    var b := d[p.bVol];
    BootReads(b, p, Media(sfd), time);
    PlanAccepted(p, |d|, sfd, unit, block, LdDword(b, 44), LdWord(b, 48));
    MountedWith(d, p.bVol);
    if p.BData() + p.au <= |d| && p.nClst + 2 <= MAX_FATENT {
      PlacesFor(p);
      FatIsFresh(LayoutFor(p), d, Media(sfd));
      InfoFound(e, d, p, sfd, time);
    }
  }

  // The one way formatting succeeds and mounting refuses: on FAT12 the aligned data area may leave no room for a
  // cluster.
  lemma AlignedAway()
    ensures var f := PlanFormat(32768, 1, 8192, 32768);
            f.Planned? && f.plan.t == Fat12 && f.plan.End() == 32768 == f.plan.BData()
  {
    hide BitAnd, Shift, Draft, Aligned, UnitOf;
    MasksAway();
    DraftAway();
    PlanAway(0, 32768, 16, 32768);
  }

  // Formatting there returns success, and mounting finds no file system.
  method FormatRefused(disk: Disk, win: array<byte>, time: dword) returns (res: FResult, o: Outcome)
    requires win.Length == 512 && |disk.sectors| == 32768
    modifies disk, win
    ensures res == Ok && o == Mount.Refused(NoFilesystem)
  {
    hide PlanFormat, Laid;
    AlignedAway();
    ghost var e, p := disk.sectors, PlanFormat(32768, 1, 8192, 32768).plan;
    res := MkFs(disk, win, 1, 8192, 32768, time);
    UnitNotZero(p, 32768, 1, 8192, 32768);
    FormattedMounts(e, disk.sectors, p, 1, 8192, 32768, time);
    o := ChkMounted(disk, win);
  }

  lemma UnitNotZero(p: Plan, size: dword, sfd: byte, unit: dword, block: dword)
    requires PlanFormat(size, sfd, unit, block) == Planned(p) && p.End() <= size
    ensures p.au > 0
  {
    hide PlanFormat;
    IsFitting(p, size, sfd, unit, block);
    PlanFacts(p, size, sfd, unit, block);
  }

  lemma DraftAway()
    ensures UnitOf(32768, 8192) == 16 && Draft(0, 32768, 16) == Plan(Fat12, 16, 0, 32768, 1, 7, 2048)
  {
    hide UnitIndex, BitAnd;
  }

  lemma PlanAway(bVol: dword, nVol: dword, au: dword, n: nat)
    requires bVol == 0 && nVol == n == 32768 && au == 16
    requires Draft(bVol, nVol, au) == Plan(Fat12, 16, 0, 32768, 1, 7, 2048) && Shift(40, n) == 32728
    ensures var q := Aligned(bVol, nVol, au, n);
            q.t == Fat12 && q.BData() == 32768 && q.nFat >= 7
  {
    hide Aligned, Draft, Shift, ClustersBehind;
    AlignedFacts(bVol, nVol, au, n);
  }

  lemma MasksAway()
    ensures BitAnd(8192, 8191) == 0 && Shift(40, 32768) == 32728
  {
    hide BitAnd;
    PowerOfTwo128();
    assert PowerOfTwo(256) && PowerOfTwo(512) && PowerOfTwo(1024) && PowerOfTwo(2048) && PowerOfTwo(4096)
      && PowerOfTwo(8192);
    assert PowerOfTwo(16384) && PowerOfTwo(32768);
    MaskIsRemainder(8192, 8192);
    MaskIsRemainder(32807, 32768);
  }
}
