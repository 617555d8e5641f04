/**
 The layout of a mounted FAT volume: reserved area, FAT copies, static root directory
 and data area, and the mapping from clusters to sectors.
*/
module Geometry {
  import opened Bytes

  datatype FsType = Fat12 | Fat16 | Fat32

  const MIN_FAT16 := 4086
  const MIN_FAT32 := 65526
  // The largest number of FAT entries for which every cluster number fits 28 bits and stays below the end mark.
  const MAX_FATENT := 0x0FFF_FFFF

  datatype Layout = Layout(
    fsType: FsType,
    csize: nat,      // sectors per cluster
    nFats: nat,      // FAT copies
    nRootdir: nat,   // entries of the static root directory
    nFatent: nat,    // number of clusters + 2
    fsize: nat,      // sectors per FAT
    fatbase: nat,
    dirbase: nat,    // root directory: start sector, or start cluster on FAT32
    database: nat,
    fsiSector: nat)
  {
    function FatSectors(): nat {
      if nFats == 2 then 2 * fsize else fsize
    }

    // Bytes one FAT copy needs.
    function FatBytes(): nat {
      match fsType
      case Fat12 => nFatent * 3 / 2 + nFatent % 2
      case Fat16 => nFatent * 2
      case Fat32 => nFatent * 4
    }

    function VolumeEnd(): nat
      requires nFatent >= 2
    {
      database + Times(nFatent - 2, csize)
    }

    // What mounting a volume checks, for a volume that lies within the first `limit` sectors.
    ghost predicate Checked(limit: nat) {
      && limit <= 0x1_0000_0000
      && 1 <= csize <= 128 && PowerOfTwo(csize)
      && (nFats == 1 || nFats == 2)
      && nRootdir % 16 == 0 && nRootdir < 0x1_0000
      && nFatent >= 3
      && (fsType == Fat12 <==> nFatent - 2 < MIN_FAT16)
      && (fsType == Fat32 <==> nFatent - 2 >= MIN_FAT32)
      && fatbase >= 1
      && database == fatbase + FatSectors() + nRootdir / 16
      && (fsType == Fat32 <==> nRootdir == 0)
      && (fsType != Fat32 ==> dirbase == fatbase + FatSectors())
      && FatBytes() <= fsize * 512
      && VolumeEnd() <= limit
    }

    // Boot sector fields that mounting a FAT32 volume takes on trust.
    ghost predicate Trusted() {
      fsType == Fat32 ==>
        && nFatent <= MAX_FATENT
        && 2 <= dirbase < nFatent
        && fsiSector < fatbase
    }

    ghost predicate Sound(limit: nat) {
      Checked(limit) && Trusted()
    }

    predicate IsCluster(c: int) {
      2 <= c < nFatent
    }

    // Sector s belongs to the first FAT copy.
    predicate InFat(s: int) {
      fatbase <= s < fatbase + fsize
    }

    // Sector s belongs to some FAT copy.
    predicate InFats(s: int) {
      fatbase <= s < fatbase + FatSectors()
    }

    // Sectors that may be dirty in the window: FAT copy 1 and everything behind the last copy.
    predicate Cacheable(s: int) {
      InFat(s) || s >= fatbase + FatSectors()
    }

    // The first sector of a cluster, 0 for an invalid cluster number.
    function Clust2Sect(clst: dword): nat
      requires nFatent >= 2
    {
      if Sub32(clst, 2) >= nFatent - 2 then 0 else Times(Sub32(clst, 2), csize) + database
    }

    // Sector s is one of the sectors of cluster c.
    predicate InCluster(c: dword, s: int)
      requires nFatent >= 2
    {
      IsCluster(c) && Clust2Sect(c) <= s < Clust2Sect(c) + csize
    }

    lemma ClusterBlock(c: dword, limit: nat)
      requires Checked(limit) && IsCluster(c)
      ensures Clust2Sect(c) == Times(c - 2, csize) + database
      ensures database <= Clust2Sect(c) && Clust2Sect(c) + csize <= VolumeEnd() <= limit
    {
      assert Sub32(c, 2) == c - 2;
      TimesGap(nFatent - 2, c - 2, csize);
    }

    // Only an invalid cluster number maps to sector 0.
    lemma ZeroIffInvalid(c: dword, limit: nat)
      requires Checked(limit)
      ensures Clust2Sect(c) == 0 <==> !IsCluster(c)
    {
      if IsCluster(c) {
        ClusterBlock(c, limit);
      } else {
        TimesAtLeast(nFatent - 2, csize);
        ClusterBlock(2, limit);
      }
    }

    // Distinct clusters own disjoint blocks of csize sectors inside the data area.
    lemma ClustersDisjoint(c: dword, d: dword, s: int, t: int, limit: nat)
      requires Checked(limit) && InCluster(c, s) && InCluster(d, t)
      ensures database <= s < limit
      ensures s == t ==> c == d
    {
      ClusterBlock(c, limit);
      ClusterBlock(d, limit);
      if c < d {
        TimesGap(d - 2, c - 2, csize);
      } else if d < c {
        TimesGap(c - 2, d - 2, csize);
      }
    }

    // The clusters fill the data area in order of their numbers.
    lemma ClustersFollow(c: dword, d: dword, limit: nat)
      requires Checked(limit) && IsCluster(c) && d as int == c as int + 1
      ensures Clust2Sect(2) == database
      ensures if IsCluster(d) then Clust2Sect(d) == Clust2Sect(c) + csize else Clust2Sect(c) + csize == VolumeEnd()
    {
      ClusterBlock(2, limit);
      ClusterBlock(c, limit);
      if IsCluster(d) {
        ClusterBlock(d, limit);
      }
    }

    // Every FAT copy lies in front of the data area, inside the volume.
    lemma FatsInside(limit: nat)
      requires Checked(limit)
      ensures fatbase + FatSectors() <= database <= limit
    {
      ClusterBlock(2, limit);
    }

    // Every byte of every FAT entry lies in FAT copy 1.
    lemma Inside12(c: nat, limit: nat)
      requires Checked(limit) && fsType == Fat12 && c < nFatent
      ensures Offset12(c) / 512 < fsize && (Offset12(c) + 1) / 512 < fsize
      ensures fatbase + FatSectors() <= database <= limit
    {
      FatsInside(limit);
    }

    lemma Inside16(c: nat, limit: nat)
      requires Checked(limit) && fsType == Fat16 && c < nFatent
      ensures c / 256 < fsize && c * 2 % 512 + 2 <= 512
      ensures fatbase + FatSectors() <= database <= limit
    {
      FatsInside(limit);
    }

    lemma Inside32(c: nat, limit: nat)
      requires Checked(limit) && fsType == Fat32 && c < nFatent
      ensures c / 128 < fsize && c * 4 % 512 + 4 <= 512
      ensures fatbase + FatSectors() <= database <= limit
    {
      FatsInside(limit);
      Slot32(c);
    }
  }

  // The byte offset of a 12-bit entry in the FAT.
  function Offset12(c: nat): nat {
    c + c / 2
  }

  lemma Slot32(c: nat)
    ensures c * 4 % 512 == 4 * (c % 128)
  {
    assert c == 128 * (c / 128) + c % 128;
  }
}
