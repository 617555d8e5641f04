/**
 Boot records byte by byte: which ones mounting accepts, and the layout, free count and last cluster it takes from them.
*/
module BootRecords {
  import opened Bytes
  import opened Geometry
  import opened DiskIO
  import opened Mount

  // ----- fields of a sector

  // Two and four bytes, least significant first.
  function Two(x: Sector, o: nat): int
    requires o + 2 <= 512
  {
    x[o] as int + 0x100 * (x[o + 1] as int)
  }

  function Four(x: Sector, o: nat): int
    requires o + 4 <= 512
  {
    x[o] as int + 0x100 * (x[o + 1] as int) + 0x1_0000 * (x[o + 2] as int) + 0x100_0000 * (x[o + 3] as int)
  }

  // The sector ends with the boot signature.
  predicate Signed(x: Sector) {
    x[510] == 0x55 && x[511] == 0xAA
  }

  // The letters FAT stand where a FAT12/16 or a FAT32 boot record has them.
  predicate SaysFat(x: Sector) {
    (x[54] == 0x46 && x[55] == 0x41 && x[56] == 0x54) || (x[82] == 0x46 && x[83] == 0x41 && x[84] == 0x54)
  }

  // The boot record of the volume is sector s: sector 0, or the start of the first partition listed there.
  predicate StartsAt(disk: seq<Sector>, s: nat) {
    && s < |disk| && Signed(disk[s]) && SaysFat(disk[s])
    && (s != 0 ==> Signed(disk[0]) && !SaysFat(disk[0]) && disk[0][450] != 0 && Four(disk[0], 454) == s)
  }

  // Sectors per FAT and sectors of the volume: the 16-bit field, or the 32-bit one if that is 0.
  function FatSizeIn(x: Sector): int {
    if Two(x, 22) != 0 then Two(x, 22) else Four(x, 36)
  }

  function TotalIn(x: Sector): int {
    if Two(x, 19) != 0 then Two(x, 19) else Four(x, 32)
  }

  // Boot record x in sector s describes the layout g.
  ghost predicate Describes(x: Sector, s: nat, g: Layout) {
    && Two(x, 11) == 512 && x[13] as int == g.csize && x[16] as int == g.nFats && Two(x, 17) == g.nRootdir
    && s < g.fatbase && Two(x, 14) == g.fatbase - s && FatSizeIn(x) == g.fsize
    && g.nFatent >= 2 && g.VolumeEnd() <= s + TotalIn(x) < g.VolumeEnd() + g.csize
    && if g.fsType == Fat32 then g.dirbase == Four(x, 44) && g.fsiSector == (s + Two(x, 48)) % 0x1_0000_0000
         else g.fsiSector == 0
  }

  // The sector has the three signatures of an FSInfo sector.
  predicate HasInfo(x: Sector) {
    && Signed(x) && x[0] == 0x52 && x[1] == 0x52 && x[2] == 0x61 && x[3] == 0x41
    && x[484] == 0x72 && x[485] == 0x72 && x[486] == 0x41 && x[487] == 0x61
  }

  // ----- what the accessors read

  lemma SignatureRead(x: Sector)
    ensures LdWord(x, 510) == 0xAA55 <==> Signed(x)
  {
  }

  lemma LettersRead(x: Sector, o: nat)
    requires o + 4 <= 512
    ensures LdDword(x, o) % 0x100_0000 == 0x54_4146 <==> x[o] == 0x46 && x[o + 1] == 0x41 && x[o + 2] == 0x54
  {
    var low := x[o] as int + 0x100 * (x[o + 1] as int) + 0x1_0000 * (x[o + 2] as int);
    DivModUnique(LdDword(x, o), 0x100_0000, x[o + 3], low);
  }

  lemma InfoRead(x: Sector)
    ensures IsFsInfo(x) <==> HasInfo(x)
    ensures LdDword(x, 488) == Four(x, 488) && LdDword(x, 492) == Four(x, 492)
  {
    SignatureRead(x);
  }

  // The FSInfo sector written for a free count and a last allocated cluster, byte by byte.
  lemma InfoInBytes(free: dword, last: dword)
    ensures var x := FsInfo(free, last);
            && HasInfo(x) && Four(x, 488) == free && Four(x, 492) == last
            && forall k :: 4 <= k < 484 || 496 <= k < 510 ==> x[k] == 0
  {
    FsInfoReadsBack(free, last);
    InfoRead(FsInfo(free, last));
  }

  lemma StartFound(disk: seq<Sector>, s: nat)
    requires StartsAt(disk, s) && s < 0x1_0000_0000
    ensures BootSector(disk) == s && RecordKind(disk, s) == 0
  {
    hide LdWord, LdDword;
    SignatureRead(disk[0]);
    SignatureRead(disk[s]);
    LettersRead(disk[0], 54);
    LettersRead(disk[0], 82);
    LettersRead(disk[s], 54);
    LettersRead(disk[s], 82);
    PartitionRead(disk[0]);
  }

  lemma PartitionRead(x: Sector)
    ensures LdDword(x, 454) == Four(x, 454)
  {
  }

  lemma FoundStarts(disk: seq<Sector>)
    requires MountOutcome(disk).Mounted?
    ensures StartsAt(disk, BootSector(disk)) && RecordKind(disk, BootSector(disk)) == 0
  {
    hide LdWord, LdDword, Accepts, LayoutOf, ReadBpb, IsFsInfo;
    var s := BootSector(disk);
    SignatureRead(disk[0]);
    SignatureRead(disk[s]);
    LettersRead(disk[0], 54);
    LettersRead(disk[0], 82);
    LettersRead(disk[s], 54);
    LettersRead(disk[s], 82);
    PartitionRead(disk[0]);
  }

  lemma FieldsRead(x: Sector)
    ensures var b := ReadBpb(x);
            && b.bytesPerSector == Two(x, 11) && b.fsize == FatSizeIn(x) && b.nFats == x[16] && b.csize == x[13]
            && b.nRootdir == Two(x, 17) && b.totalSectors == TotalIn(x) && b.reserved == Two(x, 14)
            && b.rootCluster == Four(x, 44) && b.fsInfo == Two(x, 48)
  {
  }

  // ----- described layouts are mounted

  // Fewer clusters than sectors.
  lemma CountBelow(g: Layout, limit: nat)
    requires g.Checked(limit)
    ensures g.nFatent < 0x1_0000_0000 && g.database < 0x1_0000_0000
  {
    TimesAtLeast(g.nFatent - 2, g.csize);
  }

  lemma WholeNumber(n: nat, c: nat, x: nat)
    requires c > 0 && Times(n, c) <= x < Times(n, c) + c
    ensures x / c == n
  {
    TimesIsProduct(n, c);
    DivModUnique(x, c, n, x - n * c);
  }

  lemma NeverMore(x: nat)
    ensures x % 0x1_0000_0000 <= x
  {
  }

  lemma RequiredAtMost(g: Layout, limit: nat)
    requires g.Checked(limit) && g.nFatent < 0x1_0000_0000
    ensures RequiredBytes(g.fsType, g.nFatent) <= g.FatBytes()
  {
    hide PowerOfTwo, Layout.VolumeEnd;
    match g.fsType
    case Fat12 =>
      NeverMore(g.nFatent * 3);
      NeverMore(g.nFatent * 3 % 0x1_0000_0000 / 2 + g.nFatent % 2);
    case Fat16 => NeverMore(g.nFatent * 2);
    case Fat32 => NeverMore(g.nFatent * 4);
  }

  lemma RoundedFits(r: dword, fsize: nat)
    requires r <= 512 * fsize
    ensures Add32(r, 511) / 512 <= fsize
  {
    NeverMore(r + 511);
  }

  // The sectors in front of the data area, and the clusters, are those of the layout.
  lemma DescribedSizes(x: Sector, s: dword, g: Layout, limit: nat)
    requires Describes(x, s, g) && g.Checked(limit)
    ensures var b := ReadBpb(x);
            && FatArea(b.fsize, b.nFats) == g.FatSectors() && b.SystemSectors() == g.database - s <= b.totalSectors
            && b.csize > 0 && b.Clusters() == g.nFatent - 2 && g.nFatent < 0x1_0000_0000
  {
    hide PowerOfTwo, Two, Four, ReadBpb, Layout.FatBytes, Times;
    FieldsRead(x);
    CountBelow(g, limit);
    var b := ReadBpb(x);
    assert FatArea(b.fsize, b.nFats) == g.FatSectors();
    assert b.SystemSectors() == g.database - s;
    WholeNumber(g.nFatent - 2, g.csize, b.totalSectors - b.SystemSectors());
  }

  lemma DescribedIsAccepted(x: Sector, s: dword, g: Layout, limit: nat)
    requires Describes(x, s, g) && g.Checked(limit)
    ensures Accepts(ReadBpb(x)) && LayoutOf(ReadBpb(x), s) == g
  {
    hide PowerOfTwo, BitAnd, Two, Four, ReadBpb, Bpb.Clusters, Bpb.SystemSectors, FatArea, RequiredBytes, Add32;
    hide Layout.VolumeEnd, Layout.FatBytes;
    DescribedSizes(x, s, g, limit);
    FieldsRead(x);
    var b := ReadBpb(x);
    ClusterSizeChecked(b);
    CountBelow(g, limit);
    g.FatsInside(limit);
    SmallSum(b.Clusters(), 2);
    SmallSum(s, b.reserved);
    SmallSum(s, b.SystemSectors());
    SmallSum(g.fatbase, g.FatSectors());
    RequiredAtMost(g, limit);
    RoundedFits(RequiredBytes(g.fsType, g.nFatent), g.fsize);
    InfoPlace(s, b.fsInfo);
  }

  lemma InfoPlace(s: dword, n: word)
    ensures Add32(s, n) == (s + n) % 0x1_0000_0000
  {
  }

  // Every layout in order is mounted from every boot record that describes it, wherever that lies. On FAT32 the last
  // allocated cluster and the free count are those of the FSInfo sector, if it has its three signatures; otherwise, and
  // for the other types, they are unknown.
  lemma DescribedIsMounted(disk: seq<Sector>, s: nat, g: Layout, limit: nat)
    requires StartsAt(disk, s) && Describes(disk[s], s, g) && g.Checked(limit)
    ensures var o := MountOutcome(disk);
            && o.Mounted? && o.layout == g
            && if g.fsType == Fat32 && g.fsiSector < |disk| && HasInfo(disk[g.fsiSector])
               then o.last == Four(disk[g.fsiSector], 492) && o.free == Four(disk[g.fsiSector], 488)
               else o.last == 0 && o.free == 0xFFFF_FFFF
  {
    hide Accepts, LayoutOf, ReadBpb, IsFsInfo, HasInfo, Two, Four, LdDword, LdWord, BootSector, RecordKind;
    g.FatsInside(limit);
    DescribedIsAccepted(disk[s], s, g, limit);
    StartFound(disk, s);
    if g.fsType == Fat32 && g.fsiSector < |disk| {
      InfoRead(disk[g.fsiSector]);
    }
  }

  // ----- and no others

  lemma AcceptedDescribes(x: Sector, s: dword, limit: nat)
    requires var b := ReadBpb(x); Accepts(b) && Located(b, s, limit) && LayoutOf(b, s).Checked(limit)
    ensures Describes(x, s, LayoutOf(ReadBpb(x), s))
  {
    hide PowerOfTwo, BitAnd, Two, Four, ReadBpb, Bpb.Clusters, Bpb.SystemSectors, FatArea, RequiredBytes, Add32;
    hide Layout.FatBytes, TypeOf, Times, SizesFit, FatFits;
    FieldsRead(x);
    var b := ReadBpb(x);
    AcceptedIsChecked(b, s, limit);
    ClustersCountable(b);
    SystemFits(b, s, limit);
    LastCluster(b);
    InfoPlace(s, b.fsInfo);
  }

  // What is left behind the last cluster is less than a cluster.
  lemma LastCluster(b: Bpb)
    requires b.csize > 0 && b.SystemSectors() <= b.totalSectors
    ensures b.totalSectors - b.SystemSectors() < Times(b.Clusters(), b.csize) + b.csize
  {
    hide Bpb.SystemSectors, Times;
    LessThanOne(b.totalSectors - b.SystemSectors(), b.csize);
  }

  lemma LessThanOne(x: nat, n: nat)
    requires n > 0
    ensures x < Times(x / n, n) + n
  {
    hide Times;
    TimesIsProduct(x / n, n);
    assert x == x / n * n + x % n;
  }

  // A volume that is mounted has a boot record where StartsAt looks for it; if the volume and the start of its FAT lie
  // on the disk and its layout is in order, the boot record describes that layout.
  lemma MountedIsDescribed(disk: seq<Sector>, limit: nat)
    requires MountOutcome(disk).Mounted?
    ensures var s, g := BootSector(disk), MountOutcome(disk).layout;
            && StartsAt(disk, s)
            && (s + TotalIn(disk[s]) <= limit && s + Two(disk[s], 14) < 0x1_0000_0000 && g.Checked(limit) ==>
                  Describes(disk[s], s, g))
  {
    hide Accepts, ReadBpb, IsFsInfo, Two, Four, LdDword, LdWord, BootSector, RecordKind, Describes, StartsAt;
    hide Layout.Checked;
    FoundStarts(disk);
    var s := BootSector(disk);
    StartOnDisk(disk, s);
    FieldsRead(disk[s]);
    var b := ReadBpb(disk[s]);
    assert MountOutcome(disk).layout == LayoutOf(b, s);
    if s + TotalIn(disk[s]) <= limit && s + Two(disk[s], 14) < 0x1_0000_0000 && LayoutOf(b, s).Checked(limit) {
      LimitIsSmall(LayoutOf(b, s), limit);
      AcceptedDescribes(disk[s], s, limit);
    }
  }

  lemma StartOnDisk(disk: seq<Sector>, s: nat)
    requires StartsAt(disk, s)
    ensures s < |disk|
  {
  }

  lemma LimitIsSmall(g: Layout, limit: nat)
    requires g.Checked(limit)
    ensures limit <= 0x1_0000_0000
  {
  }

  // The layout of a 3.5 inch diskette of 2880 sectors.
  const DISKETTE := Layout(Fat12, 1, 2, 224, 2849, 9, 1, 19, 33, 0)

  lemma DisketteIsInOrder()
    ensures DISKETTE.Sound(2880)
  {
    TimesIsProduct(2847, 1);
  }
}
