/**
 A directory extension that is not safe: for a while, the old contents of a freed cluster are
 part of the directory.
*/
module StaleEntries {
  import opened Bytes
  import opened Geometry
  import opened DiskIO
  import opened FatMap
  import opened WriteBehind
  import opened Volumes
  import opened Entries
  import opened Allocator
  import opened Directory
  import opened FileGrowth
  import opened Ordering
  import opened Extending
  import Chains

  // A FAT16 volume of 4086 one-sector clusters.
  const SMALL := Layout(Fat16, 1, 1, 16, 4088, 16, 1, 17, 18, 0)

  // A directory in cluster 2.
  function OneEntryFat(): Sector {
    StWord(ZeroSector(), 4, 0xFFFF)
  }

  // What was left in cluster 3 when it was freed: an entry that names cluster 4.
  function OldContents(): Sector {
    StWord(ZeroSector()[0 := 0x41], 26, 4)
  }

  function SmallSector(s: nat): Sector {
    if s == 1 then OneEntryFat() else if s == 19 then OldContents() else ZeroSector()
  }

  function SmallDisk(): (v: seq<Sector>)
    ensures |v| == 4104 && v[1] == OneEntryFat() && v[19] == OldContents()
    ensures forall s :: 0 <= s < 4104 && s != 1 && s != 19 ==> v[s] == ZeroSector()
  {
    seq(4104, (s: nat) => SmallSector(s))
  }

  lemma SmallIsSound()
    ensures SMALL.Sound(4104) && SMALL.VolumeEnd() == 4104
  {
    TimesIsProduct(4086, 1);
  }

  lemma SmallFat(c: nat)
    requires c < 4088
    ensures SMALL.Checked(4104) && FatOf(SMALL, SmallDisk())[c] == if c == 2 then 0xFFFF else 0
  {
    SmallIsSound();
    SMALL.Inside16(c, 4104);
    SmallEntry(c);
  }

  lemma SmallEntry(c: nat)
    requires c < 4088
    ensures LdWord(SmallDisk()[1 + c / 256], c * 2 % 512) == if c == 2 then 0xFFFF else 0
  {
    if c / 256 == 0 && c != 2 {
      WordFrame(ZeroSector(), 4, 0xFFFF, c * 2);
    }
    WordRoundTrip(ZeroSector(), 4, 0xFFFF);
  }

  lemma OldEntry()
    ensures Live(SlotAt(OldContents(), 0)) && StartCluster(SlotAt(OldContents(), 0)) == 4
  {
    var e := SlotAt(OldContents(), 0);
    assert e[0] == 0x41 && e[11] == 0 && e[20] == 0 && e[21] == 0 && e[26] == 4 && e[27] == 0;
  }

  // The only cluster of a directory is cluster 2.
  lemma OnlyTwo(p: seq<nat>)
    requires SMALL.Checked(4104) && Path(FatOf(SMALL, SmallDisk()), p) && p[0] == 2
    ensures |p| == 1
  {
    SmallFat(2);
    EndStops(FatOf(SMALL, SmallDisk()), p);
  }

  lemma EndStops(f: seq<nat>, p: seq<nat>)
    requires Path(f, p) && p[0] < |f| && f[p[0]] >= |f| && p != []
    ensures |p| == 1
  {
    hide Path;
    if |p| > 1 {
      LinkInPath(f, p);
    }
  }

  lemma LinkInPath(f: seq<nat>, p: seq<nat>)
    requires Path(f, p) && |p| > 1
    ensures Chains.IsCluster(f, f[p[0]])
  {
    assert f[p[0]] == p[0 + 1];
  }

  lemma SmallDirs(s: nat)
    requires SMALL.Checked(4104) && IsDirSector(SMALL, FatOf(SMALL, SmallDisk()), {2}, s)
    ensures s == 17 || s == 18
  {
    if !InRoot(SMALL, s) {
      var p: seq<nat> :| Path(FatOf(SMALL, SmallDisk()), p) && p[0] in {2} && OfCluster(SMALL, p[|p| - 1], s);
      OnlyTwo(p);
    }
  }

  lemma SmallIsSafe()
    ensures SMALL.Checked(4104) && ImageSafe(SMALL, SmallDisk(), {2})
  {
    SmallIsSound();
    var v := SmallDisk();
    var f := FatOf(SMALL, v);
    forall c | 2 <= c < |f|
      ensures !(2 <= f[c] < |f|)
    {
      SmallFat(c);
    }
    forall s: nat | s < |v| && IsDirSector(SMALL, f, {2}, s)
      ensures SectorLive(f, v[s])
    {
      SmallDirs(s);
      ZeroIsLive(f);
    }
  }

  lemma ThreeIsFree()
    requires SMALL.Checked(4104)
    ensures var f := FatOf(SMALL, SmallDisk());
            Eoc(SMALL) == 0xFFFF && Chains.Create(f, 0xFFFF, 2, 2) == Chains.Growth(3, true, f[3 := 0xFFFF][2 := 3], 3)
  {
    hide FatOf;
    SmallFat(2);
    SmallFat(3);
    var f := FatOf(SMALL, SmallDisk());
    assert Chains.Visit(4088, 2, 0) == 3 && Chains.Stop(f, 2, 0) == 0;
  }

  // The directory is extended: the images written on the way, from a safe one on, are not all safe.
  method ExtendStale() returns (fs: Volume, c: dword)
    ensures fs.Valid() && fs.g == SMALL && SMALL.Sound(4104)
    ensures |fs.disk.log| > 1 && fs.disk.log[0] == SmallDisk()
    ensures ImageSafe(SMALL, SmallDisk(), {2}) && c == 3
    ensures !ImagesSafe(SMALL, fs.disk.log, 1, {2})
  {
    hide FatOf, FatMap.Entry, ImageSafe, Layout.Checked, DirMeta, Volume.Valid, ClusterLive, Path;
    SmallIsSound();
    SmallIsSafe();
    MountIsInOrder(SMALL, SmallDisk(), {2});
    SmallStart();
    var disk := new Disk(SmallDisk());
    fs := new Volume(disk, SMALL, 2, 0xFFFF_FFFF, DirMeta(SMALL, SmallDisk(), {2}));
    FatFacts(fs);
    var res;
    res, c := ExtendDirectory(fs, 2, {2}, [2]);
    OldEntryDangles();
  }

  // The old contents of cluster 3 are not live when it is appended.
  lemma OldEntryDangles()
    requires SMALL.Checked(4104)
    ensures !ClusterLive(SMALL, FatOf(SMALL, SmallDisk())[3 := 0xFFFF], SmallDisk(), 3)
  {
    hide FatOf;
    SmallFat(4);
    OldEntry();
    assert SMALL.Clust2Sect(3) == 19 && SMALL.InCluster(3, 19) by { TimesIsProduct(1, 1); }
    assert !SlotLive(FatOf(SMALL, SmallDisk())[3 := 0xFFFF], SlotAt(OldContents(), 0));
  }

  // What extending the directory needs.
  lemma SmallStart()
    requires SMALL.Checked(4104)
    ensures var f := FatOf(SMALL, SmallDisk());
            && |f| == 4088 && SMALL.IsCluster(2) && f[2] >= 4088 && Path(f, [2]) && Eoc(SMALL) == 0xFFFF
            && Chains.Create(f, 0xFFFF, 2, 2) == Chains.Growth(3, true, f[3 := 0xFFFF][2 := 3], 3)
            && FreeIsUnused(SMALL, f, DirMeta(SMALL, SmallDisk(), {2}))
  {
    hide FatOf, DirMeta;
    ThreeIsFree();
    SmallFat(2);
    var f := FatOf(SMALL, SmallDisk());
    forall c: dword, s | SMALL.IsCluster(c) && f[c] == 0 && s in DirMeta(SMALL, SmallDisk(), {2})
      ensures !SMALL.InCluster(c, s)
    {
      SmallFat(c);
      InDirMeta(s);
      TimesIsProduct(c - 2, 1);
    }
  }

  lemma InDirMeta(s: nat)
    requires SMALL.Checked(4104) && s in DirMeta(SMALL, SmallDisk(), {2})
    ensures s <= 18
  {
    hide FatOf;
    if !SMALL.InFat(s) { SmallDirs(s); }
  }
}
