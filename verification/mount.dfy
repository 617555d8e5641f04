/**
 Mounting: the boot sector fields of a FAT volume, the checks that accept it, and why
 every later access then lands in the right region.
*/
module Mount {
  import opened Bytes
  import opened Geometry
  import opened DiskIO

  // The number of sectors of all FAT copies, in the 32-bit arithmetic of the code.
  function FatArea(fsize: dword, nFats: nat): dword {
    (if nFats == 2 then 2 * fsize else fsize) % 0x1_0000_0000
  }

  function Quotient(a: dword, n: nat): dword
    requires n > 0
  {
    QuotientAtMost(a, n);
    a / n
  }

  // The fields of a boot sector that mounting evaluates.
  datatype Bpb = Bpb(
    bytesPerSector: word, fsize: dword, nFats: byte, csize: byte, nRootdir: word,
    totalSectors: dword, reserved: word, rootCluster: dword, fsInfo: word)
  {
    // Sectors in front of the data area.
    function SystemSectors(): dword {
      (reserved + FatArea(fsize, nFats) + nRootdir / 16) % 0x1_0000_0000
    }

    function Clusters(): dword
      requires csize > 0 && SystemSectors() <= totalSectors
    {
      Quotient(totalSectors - SystemSectors(), csize)
    }
  }

  function ReadBpb(bs: Sector): Bpb {
    Bpb(
      LdWord(bs, 11),
      if LdWord(bs, 22) != 0 then LdWord(bs, 22) else LdDword(bs, 36),
      bs[16],
      bs[13],
      LdWord(bs, 17),
      if LdWord(bs, 19) != 0 then LdWord(bs, 19) else LdDword(bs, 32),
      LdWord(bs, 14),
      LdDword(bs, 44),
      LdWord(bs, 48))
  }

  function TypeOf(clusters: nat): FsType {
    if clusters >= MIN_FAT32 then Fat32 else if clusters >= MIN_FAT16 then Fat16 else Fat12
  }

  // Bytes one FAT copy must hold, in 32-bit arithmetic.
  function RequiredBytes(t: FsType, n: dword): dword {
    match t
    case Fat12 => (n * 3 % 0x1_0000_0000 / 2 + n % 2) % 0x1_0000_0000
    case Fat16 => n * 2 % 0x1_0000_0000
    case Fat32 => n * 4 % 0x1_0000_0000
  }

  // The volume is accepted.
  predicate Accepts(b: Bpb) {
    && b.bytesPerSector == 512
    && (b.nFats == 1 || b.nFats == 2)
    && b.csize > 0 && BitAnd(b.csize, b.csize - 1) == 0
    && b.nRootdir % 16 == 0
    && b.reserved != 0
    && b.totalSectors >= b.SystemSectors()
    && b.Clusters() > 0
    && var t := TypeOf(b.Clusters());
       var n := Add32(b.Clusters(), 2);
       && (t == Fat32 <==> b.nRootdir == 0)
       && b.fsize >= Add32(RequiredBytes(t, n), 511) / 512
  }

  // The layout of an accepted volume that starts at sector bsect.
  function LayoutOf(b: Bpb, bsect: dword): Layout
    requires Accepts(b)
  {
    var t := TypeOf(b.Clusters());
    var fatbase := Add32(bsect, b.reserved);
    Layout(
      t, b.csize, b.nFats, b.nRootdir, Add32(b.Clusters(), 2), b.fsize, fatbase,
      if t == Fat32 then b.rootCluster else Add32(fatbase, FatArea(b.fsize, b.nFats)),
      Add32(bsect, b.SystemSectors()),
      if t == Fat32 then Add32(bsect, b.fsInfo) else 0)
  }

  // The sizes in the boot sector do not wrap around.
  predicate SizesFit(b: Bpb) {
    b.reserved + (if b.nFats == 2 then 2 * b.fsize else b.fsize) + b.nRootdir / 16 < 0x1_0000_0000
  }

  // The FAT has room for all clusters. For other types than FAT32 this is part of what is accepted.
  predicate FatFits(b: Bpb)
    requires Accepts(b)
  {
    TypeOf(b.Clusters()) == Fat32 ==> 4 * (b.Clusters() + 2) <= 512 * b.fsize
  }

  // The volume lies on the disk, and so does the start of its FAT.
  predicate Located(b: Bpb, bsect: dword, limit: nat)
    requires Accepts(b)
  {
    && bsect + b.totalSectors <= limit <= 0x1_0000_0000
    && bsect + b.reserved < 0x1_0000_0000
  }

  lemma ClustersFit(b: Bpb)
    requires b.csize > 0 && b.SystemSectors() <= b.totalSectors
    ensures Times(b.Clusters(), b.csize) <= b.totalSectors - b.SystemSectors()
  {
    hide Bpb.SystemSectors, Times;
    WholeClusters(b.totalSectors - b.SystemSectors(), b.csize);
  }

  lemma WholeClusters(x: nat, c: nat)
    requires c > 0
    ensures Times(x / c, c) <= x
  {
    TimesIsProduct(x / c, c);
    assert x == x / c * c + x % c;
  }

  lemma PowerOfTwo128()
    ensures PowerOfTwo(128)
  {
    assert PowerOfTwo(4) && PowerOfTwo(8) && PowerOfTwo(16) && PowerOfTwo(32) && PowerOfTwo(64);
  }

  // The test on the cluster size admits exactly the powers of two up to 128.
  lemma ClusterSizeChecked(b: Bpb)
    requires b.csize > 0
    ensures BitAnd(b.csize, b.csize - 1) == 0 <==> PowerOfTwo(b.csize)
    ensures PowerOfTwo(b.csize) ==> b.csize <= 128
  {
    PowerOfTwoTest(b.csize);
    PowerOfTwo128();
    if PowerOfTwo(b.csize) {
      PowerBelow(b.csize, 128);
    }
  }

  lemma FatBytesFit(b: Bpb, bsect: dword)
    requires Accepts(b) && FatFits(b) && b.Clusters() + 2 < 0x1_0000_0000
    ensures LayoutOf(b, bsect).FatBytes() <= b.fsize * 512
  {
    hide Bpb.Clusters, BitAnd, RequiredBytes;
    Small(b.Clusters() + 2);
    if TypeOf(b.Clusters()) != Fat32 {
      FatLargeEnough(TypeOf(b.Clusters()), b.Clusters() + 2, b.fsize);
    }
  }

  // With sizes that fit, there are not too many clusters to count with their offset of 2.
  lemma ClustersCountable(b: Bpb)
    requires Accepts(b) && SizesFit(b) && FatFits(b)
    ensures b.Clusters() + 2 < 0x1_0000_0000
  {
    hide BitAnd, RequiredBytes, Bpb.SystemSectors, Bpb.Clusters, FatArea;
    SystemIsSum(b);
    FewerThanSectors(b);
  }

  lemma FewerThanSectors(b: Bpb)
    requires b.csize > 0 && b.SystemSectors() <= b.totalSectors
    ensures b.Clusters() <= b.totalSectors - b.SystemSectors()
  {
    hide Bpb.SystemSectors;
    QuotientAtMost(b.totalSectors - b.SystemSectors(), b.csize);
  }

  lemma FittingSizesAreChecked(b: Bpb, bsect: dword, limit: nat)
    requires Accepts(b) && Located(b, bsect, limit) && SizesFit(b) && FatFits(b)
    ensures LayoutOf(b, bsect).Checked(limit)
  {
    hide Bpb.Clusters, Bpb.SystemSectors, FatArea, Layout.FatSectors, SizesFit, BitAnd, PowerOfTwo, RequiredBytes;
    hide Layout.FatBytes;
    hide Layout.VolumeEnd;
    ClustersCountable(b);
    ClusterSizeChecked(b);
    FatBytesFit(b, bsect);
    SystemFits(b, bsect, limit);
    RegionsFollow(b, bsect, limit);
  }

  // The regions of an accepted volume follow each other if their sizes do not wrap around.
  lemma RegionsFollow(b: Bpb, bsect: dword, limit: nat)
    requires Accepts(b) && Located(b, bsect, limit) && SizesFit(b) && b.Clusters() + 2 < 0x1_0000_0000
    ensures var g := LayoutOf(b, bsect);
            && g.database == g.fatbase + g.FatSectors() + g.nRootdir / 16
            && (g.fsType != Fat32 ==> g.dirbase == g.fatbase + g.FatSectors())
  {
    hide Bpb.Clusters, Bpb.SystemSectors, FatArea, SizesFit, RequiredBytes, Times, TypeOf, BitAnd, Layout.VolumeEnd;
    SystemFits(b, bsect, limit);
    SystemIsSum(b);
  }

  lemma SystemIsSum(b: Bpb)
    requires SizesFit(b)
    ensures b.SystemSectors() == b.reserved + FatArea(b.fsize, b.nFats) + b.nRootdir / 16
    ensures FatArea(b.fsize, b.nFats) == if b.nFats == 2 then 2 * b.fsize else b.fsize
  {
  }

  lemma SmallSum(a: dword, b: dword)
    requires a + b < 0x1_0000_0000
    ensures Add32(a, b) == a + b
  {
  }

  // The data area of an accepted volume does not wrap around.
  lemma SystemFits(b: Bpb, bsect: dword, limit: nat)
    requires Accepts(b) && Located(b, bsect, limit) && b.Clusters() + 2 < 0x1_0000_0000
    ensures LayoutOf(b, bsect).database == bsect + b.SystemSectors()
    ensures LayoutOf(b, bsect).fatbase == bsect + b.reserved && LayoutOf(b, bsect).nFatent == b.Clusters() + 2
    ensures LayoutOf(b, bsect).VolumeEnd() <= bsect + b.totalSectors <= limit
  {
    hide Bpb.Clusters, Bpb.SystemSectors, RequiredBytes, Times, TypeOf, FatArea, BitAnd, Add32;
    FewerThanSectors(b);
    SmallSum(b.Clusters(), 2);
    SmallSum(bsect, b.reserved);
    SmallSum(bsect, b.SystemSectors());
    ClustersFit(b);
  }

  lemma CheckedSizesFit(b: Bpb, bsect: dword, limit: nat)
    requires Accepts(b) && Located(b, bsect, limit) && LayoutOf(b, bsect).Checked(limit)
    ensures SizesFit(b) && FatFits(b)
  {
    hide Bpb.Clusters, BitAnd, PowerOfTwo, RequiredBytes, Layout.VolumeEnd;
    FewWrap(b.Clusters());
    SystemFits(b, bsect, limit);
  }

  lemma FewWrap(n: dword)
    requires Add32(n, 2) >= 2
    ensures n + 2 < 0x1_0000_0000
  {
  }

  // An accepted volume on the disk has a sound layout exactly when its region sizes do not wrap around, and its FAT has
  // room for all clusters.
  lemma AcceptedIsChecked(b: Bpb, bsect: dword, limit: nat)
    requires Accepts(b) && Located(b, bsect, limit)
    ensures LayoutOf(b, bsect).Checked(limit) <==> SizesFit(b) && FatFits(b)
  {
    if SizesFit(b) && FatFits(b) {
      FittingSizesAreChecked(b, bsect, limit);
    } else if LayoutOf(b, bsect).Checked(limit) {
      CheckedSizesFit(b, bsect, limit);
    }
  }

  // Sizes below this bound do not wrap around.
  predicate SizeIsSmall(n: nat) {
    4 * n + 511 < 0x1_0000_0000
  }

  lemma FatLargeEnough(t: FsType, n: nat, fsize: dword)
    requires SizeIsSmall(n) && fsize >= Add32(RequiredBytes(t, n), 511) / 512
    ensures t == Fat12 ==> n * 3 / 2 + n % 2 <= fsize * 512
    ensures t == Fat16 ==> n * 2 <= fsize * 512
    ensures t == Fat32 ==> n * 4 <= fsize * 512
  {
    hide RequiredBytes, Add32;
    NoWrap(t, n);
    RoundedUp(RequiredBytes(t, n), fsize);
  }

  // A FAT whose size does not wrap around has room for all clusters.
  lemma SmallFatFits(b: Bpb)
    requires Accepts(b) && SizeIsSmall(b.Clusters() + 2)
    ensures FatFits(b)
  {
    hide Bpb.Clusters, BitAnd, RequiredBytes;
    Small(b.Clusters() + 2);
    FatLargeEnough(TypeOf(b.Clusters()), b.Clusters() + 2, b.fsize);
  }

  // The sizes do not wrap around for numbers of clusters that fit.
  lemma NoWrap(t: FsType, n: nat)
    requires SizeIsSmall(n)
    ensures var r := RequiredBytes(t, n);
            && r == (match t case Fat12 => n * 3 / 2 + n % 2 case Fat16 => n * 2 case Fat32 => n * 4)
            && r + 511 < 0x1_0000_0000 && Add32(r, 511) == r + 511
  {
    match t
    case Fat12 =>
      Small(n * 3);
      Small(n * 3 / 2 + n % 2);
      Small(n * 3 / 2 + n % 2 + 511);
    case Fat16 =>
      Small(n * 2);
      Small(n * 2 + 511);
    case Fat32 =>
      Small(n * 4);
      Small(n * 4 + 511);
  }

  lemma Small(x: nat)
    requires x < 0x1_0000_0000
    ensures x % 0x1_0000_0000 == x
  {
  }

  lemma RoundedUp(r: nat, fsize: nat)
    requires fsize >= (r + 511) / 512
    ensures r <= fsize * 512
  {
  }

  // Sizes that wrap around are accepted all the same: two FAT copies of 2^31 + 1 sectors count as two sectors.
  lemma WrappingSizesAccepted()
    ensures var b := Bpb(512, 0x8000_0001, 2, 1, 512, 2035, 1, 0, 0);
            Accepts(b) && Located(b, 0, 2035) && !LayoutOf(b, 0).Checked(2035)
  {
    var b := Bpb(512, 0x8000_0001, 2, 1, 512, 2035, 1, 0, 0);
    assert b.SystemSectors() == 35 && b.Clusters() == 2000;
    AcceptedIsChecked(b, 0, 2035);
  }

  // So is a FAT of one sector for 0x4000000F clusters, whose size in bytes wraps around.
  lemma WrappingFatAccepted()
    ensures var b := Bpb(512, 1, 1, 1, 0, 0x4000_0030, 32, 2, 1);
            && Accepts(b) && Located(b, 0, 0x4000_0030) && SizesFit(b)
            && LayoutOf(b, 0).nFatent == 0x4000_0011 && !LayoutOf(b, 0).Checked(0x4000_0030)
  {
    var b := Bpb(512, 1, 1, 1, 0, 0x4000_0030, 32, 2, 1);
    assert b.SystemSectors() == 33 && b.Clusters() == 0x4000_000F;
    AcceptedIsChecked(b, 0, 0x4000_0030);
  }

  // ----- the FSInfo sector

  // The FSInfo sector written for a free count and a last allocated cluster.
  function FsInfo(free: dword, last: dword): Sector {
    var s1 := StWord(ZeroSector(), 510, 0xAA55);
    var s2 := StDword(s1, 0, 0x4161_5252);
    var s3 := StDword(s2, 484, 0x6141_7272);
    var s4 := StDword(s3, 488, free);
    StDword(s4, 492, last)
  }

  predicate IsFsInfo(s: Sector) {
    LdWord(s, 510) == 0xAA55 && LdDword(s, 0) == 0x4161_5252 && LdDword(s, 484) == 0x6141_7272
  }

  lemma FsInfoReadsBack(free: dword, last: dword)
    ensures var s := FsInfo(free, last);
            IsFsInfo(s) && LdDword(s, 488) == free && LdDword(s, 492) == last
  {
    var s1 := StWord(ZeroSector(), 510, 0xAA55);
    var s2 := StDword(s1, 0, 0x4161_5252);
    var s3 := StDword(s2, 484, 0x6141_7272);
    var s4 := StDword(s3, 488, free);
    WordRoundTrip(ZeroSector(), 510, 0xAA55);
    DwordRoundTrip(s1, 0, 0x4161_5252);
    DwordRoundTrip(s2, 484, 0x6141_7272);
    DwordRoundTrip(s3, 488, free);
    DwordRoundTrip(s4, 492, last);
    DwordFrame(s2, 484, 0x6141_7272, 0);
    DwordFrame(s3, 488, free, 0);
    DwordFrame(s3, 488, free, 484);
    DwordFrame(s4, 492, last, 0);
    DwordFrame(s4, 492, last, 484);
    DwordFrame(s4, 492, last, 488);
  }

  // ----- mounting

  // What a sector is taken for: 0 a FAT boot record, 1 another boot record, 2 none, 3 unreadable.
  function RecordKind(disk: seq<Sector>, s: nat): nat {
    if s >= |disk| then 3
    else if LdWord(disk[s], 510) != 0xAA55 then 2
    else if LdDword(disk[s], 54) % 0x100_0000 == 0x54_4146 || LdDword(disk[s], 82) % 0x100_0000 == 0x54_4146 then 0
    else 1
  }

  // The sector of the boot record to use: sector 0, or the start of the first partition listed there.
  function BootSector(disk: seq<Sector>): dword {
    if RecordKind(disk, 0) == 1 && disk[0][450] != 0 then LdDword(disk[0], 454) else 0
  }

  datatype Outcome = Refused(res: FResult) | Mounted(layout: Layout, last: dword, free: dword)

  function MountOutcome(disk: seq<Sector>): Outcome {
    var bsect := BootSector(disk);
    var kind := RecordKind(disk, bsect);
    if kind == 3 then Refused(DiskErr)
    else if kind != 0 then Refused(NoFilesystem)
    else
      var b := ReadBpb(disk[bsect]);
      if !Accepts(b) then Refused(NoFilesystem)
      else
        var g := LayoutOf(b, bsect);
        if g.fsType == Fat32 && g.fsiSector < |disk| && IsFsInfo(disk[g.fsiSector])
        then Mounted(g, LdDword(disk[g.fsiSector], 492), LdDword(disk[g.fsiSector], 488))
        else Mounted(g, 0, 0xFFFF_FFFF)
  }

  method CheckFs(disk: Disk, win: array<byte>, s: dword) returns (kind: nat)
    requires win.Length == 512
    modifies win
    ensures kind == RecordKind(disk.sectors, s)
    ensures kind != 3 ==> win[..] == disk.sectors[s]
  {
    var ok := disk.Read(win, s);
    if !ok { return 3; }
    if LdWord(win[..], 510) != 0xAA55 { return 2; }
    if LdDword(win[..], 54) % 0x100_0000 == 0x54_4146 { return 0; }
    if LdDword(win[..], 82) % 0x100_0000 == 0x54_4146 { return 0; }
    return 1;
  }

  method ChkMounted(disk: Disk, win: array<byte>) returns (r: Outcome)
    requires win.Length == 512
    modifies win
    ensures r == MountOutcome(disk.sectors)
  {
    var bsect: dword := 0;
    var fmt := CheckFs(disk, win, bsect);
    if fmt == 1 {
      if win[450] != 0 {
        bsect := LdDword(win[..], 454);
        fmt := CheckFs(disk, win, bsect);
      }
    }
    if fmt == 3 { return Refused(DiskErr); }
    if fmt != 0 { return Refused(NoFilesystem); }
    var b := ReadBpb(win[..]);
    if !Accepts(b) { return Refused(NoFilesystem); }
    var g := LayoutOf(b, bsect);
    var last: dword, free: dword := 0, 0xFFFF_FFFF;
    if g.fsType == Fat32 {
      var ok := disk.Read(win, g.fsiSector);
      if ok && IsFsInfo(win[..]) {
        last := LdDword(win[..], 492);
        free := LdDword(win[..], 488);
      }
    }
    return Mounted(g, last, free);
  }
}
