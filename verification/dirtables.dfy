/**
 The entries of a directory on the volume as one table, and where each of them lies.
*/
module DirTables {
  import opened Bytes
  import opened Geometry
  import opened DiskIO
  import opened FatMap
  import opened Entries
  import opened FileMap
  import opened Cursor
  import opened Directory
  import Chains

  // The chain cs is the table of the directory with start cluster sclust; the static root directory has none.
  ghost predicate TableChain(g: Layout, f: seq<nat>, sclust: dword, cs: seq<dword>)
    requires g.dirbase < 0x1_0000_0000
  {
    && |f| == g.nFatent && sclust != 1 && sclust < g.nFatent
    && (Start(g, sclust) == 0 <==> cs == [])
    && (cs != [] ==> Chains.IsChain(f, cs) && cs[0] == Start(g, sclust))
  }

  // The number of entries in the table.
  function Size(g: Layout, cs: seq<dword>): nat {
    if cs == [] then g.nRootdir else if 16 * Capacity(g, cs) < 0x1_0000 then 16 * Capacity(g, cs) else 0x1_0000
  }

  // The sector of entry i.
  function DirSector(g: Layout, cs: seq<dword>, i: nat): nat
    requires g.csize > 0 && g.nFatent >= 2 && (cs != [] ==> Ordinal(g, i / 16) < |cs|)
  {
    if cs == [] then g.dirbase + i / 16 else SectorAt(g, cs, i / 16)
  }

  // Sector s holds entries of the table.
  ghost predicate OnTable(g: Layout, cs: seq<dword>, s: nat)
    requires g.csize > 0 && g.nFatent >= 2
  {
    exists i: nat :: i < Size(g, cs) && (cs != [] ==> Ordinal(g, i / 16) < |cs|) && DirSector(g, cs, i) == s
  }

  lemma InTable(g: Layout, cs: seq<dword>, i: nat)
    requires g.csize > 0 && cs != []
    ensures i < 16 * Capacity(g, cs) <==> Ordinal(g, i / 16) < |cs|
  {
    InsideCapacity(g, cs, i / 16);
  }

  // Following a chain by entries leads to the cluster that holds the sector of the entry.
  lemma {:induction false} WalkChain(g: Layout, f: seq<nat>, cs: seq<dword>, k: nat, idx: nat)
    requires g.csize > 0 && |f| == g.nFatent <= 0x1_0000_0000 && Chains.IsChain(f, cs) && k < |cs|
    ensures var j, r := k + Ordinal(g, idx / 16), Walk(g, f, cs[k], idx);
            if j < |cs| then r.Cluster? && r.clust == cs[j] else r.Lost?
    decreases idx
  {
    Chains.ChainEntries(f, cs, k);
    WalkStep(g, idx);
    if idx >= PerCluster(g) && k + 1 < |cs| {
      assert f[cs[k]] == cs[k + 1];
      WalkChain(g, f, cs, k + 1, idx - PerCluster(g));
    }
  }

  lemma WalkStep(g: Layout, idx: nat)
    requires g.csize > 0
    ensures idx < PerCluster(g) ==> Ordinal(g, idx / 16) == 0
    ensures idx >= PerCluster(g) ==> Ordinal(g, idx / 16) == Ordinal(g, (idx - PerCluster(g)) / 16) + 1
  {
    if idx < PerCluster(g) {
      DivModUnique(idx / 16, g.csize, 0, idx / 16);
    } else {
      var i := (idx - PerCluster(g)) / 16;
      assert idx / 16 == i + g.csize;
      var q, r := i / g.csize, i % g.csize;
      assert i == q * g.csize + r;
      assert i + g.csize == (q + 1) * g.csize + r;
      DivModUnique(i + g.csize, g.csize, q + 1, r);
    }
  }

  // Seeking entry i of a table finds its sector, and fails behind the end of the table.
  lemma SeekInTable(g: Layout, f: seq<nat>, sclust: dword, cs: seq<dword>, i: word, limit: nat)
    requires g.Sound(limit) && 2 <= g.nFatent <= 0x1_0000_0000 && g.dirbase < 0x1_0000_0000
    requires TableChain(g, f, sclust, cs)
    ensures g.csize > 0
    ensures if i < Size(g, cs)
            then (cs != [] ==> Ordinal(g, i / 16) < |cs|)
                 && Seek(g, f, sclust, i) == At(Position(i, if cs == [] then 0
                      else cs[Ordinal(g, i / 16)], DirSector(g, cs, i), i % 16 * 32))
            else Seek(g, f, sclust, i) == Nowhere(IntErr)
  {
    if cs != [] {
      InTable(g, cs, i);
      WalkChain(g, f, cs, 0, i);
      if i < 16 * Capacity(g, cs) {
        WalkRest(g, f, cs[0], i);
      }
    }
  }

  // The sectors of a table lie behind the FAT, and different ones for entries that share no sector.
  lemma DirSectorPlace(g: Layout, cs: seq<dword>, i: nat, limit: nat)
    requires g.Checked(limit) && (g.fsType == Fat32 ==> cs != []) && Proper(g, cs) && i < Size(g, cs)
    ensures cs != [] ==> Ordinal(g, i / 16) < |cs|
    ensures g.fatbase + g.FatSectors() <= DirSector(g, cs, i) < limit
    ensures if cs == [] then DirSector(g, cs, i) < g.database
        else g.InCluster(cs[Ordinal(g, i / 16)], DirSector(g, cs, i))
  {
    g.FatsInside(limit);
    if cs != [] {
      InTable(g, cs, i);
      SectorPlace(g, cs, i / 16, limit);
    }
  }

  lemma DirSectorsDiffer(g: Layout, cs: seq<dword>, i: nat, j: nat, limit: nat)
    requires g.Checked(limit) && (g.fsType == Fat32 ==> cs != []) && Proper(g, cs) && i < Size(g, cs) && j < Size(g, cs)
    ensures cs != [] ==> Ordinal(g, i / 16) < |cs| && Ordinal(g, j / 16) < |cs|
    ensures DirSector(g, cs, i) == DirSector(g, cs, j) <==> i / 16 == j / 16
  {
    DirSectorPlace(g, cs, i, limit);
    DirSectorPlace(g, cs, j, limit);
    if cs != [] && i / 16 != j / 16 {
      SectorsDiffer(g, cs, i / 16, j / 16, limit);
    }
  }

  // Entry i of the table.
  function SlotOf(g: Layout, v: seq<Sector>, cs: seq<dword>, i: nat): Slot
    requires g.Checked(|v|) && (g.fsType == Fat32 ==> cs != []) && Proper(g, cs) && i < Size(g, cs)
  {
    DirSectorPlace(g, cs, i, |v|);
    SlotAt(v[DirSector(g, cs, i)], i % 16)
  }

  function Table(g: Layout, v: seq<Sector>, cs: seq<dword>): (t: seq<Slot>)
    requires g.Checked(|v|) && (g.fsType == Fat32 ==> cs != []) && Proper(g, cs)
    ensures |t| == Size(g, cs) && forall i :: 0 <= i < |t| ==> t[i] == SlotOf(g, v, cs, i)
  {
    seq(Size(g, cs), (i: nat) requires i < Size(g, cs) => SlotOf(g, v, cs, i))
  }

  // Changing a slot of the table's sectors changes one entry.
  lemma TableUpdated(g: Layout, v: seq<Sector>, cs: seq<dword>, i: nat, e: Slot)
    requires g.Checked(|v|) && (g.fsType == Fat32 ==> cs != []) && Proper(g, cs) && i < Size(g, cs)
    ensures cs != [] ==> Ordinal(g, i / 16) < |cs|
    ensures var s := DirSector(g, cs, i);
            s < |v| && Table(g, v[s := WithSlot(v[s], i % 16, e)], cs) == Table(g, v, cs)[i := e]
  {
    DirSectorPlace(g, cs, i, |v|);
    var s := DirSector(g, cs, i);
    var w := v[s := WithSlot(v[s], i % 16, e)];
    forall j | 0 <= j < Size(g, cs)
      ensures SlotOf(g, w, cs, j) == if j == i then e else SlotOf(g, v, cs, j)
    {
      DirSectorPlace(g, cs, j, |v|);
      DirSectorsDiffer(g, cs, i, j, |v|);
      WithSlotAt(v[s], i % 16, e, j % 16);
    }
  }

  // Extending the table by a zeroed cluster adds end marks.
  lemma TableStretched(g: Layout, v: seq<Sector>, w: seq<Sector>, cs: seq<dword>, c: dword)
    requires g.Checked(|v|) && cs != [] && Proper(g, cs) && Proper(g, cs + [c]) && Stretched(g, v, w, c)
    ensures Table(g, v, cs) <= Table(g, w, cs + [c])
    ensures forall i :: Size(g, cs) <= i < Size(g, cs + [c]) ==> Table(g, w, cs + [c])[i][0] == 0
  {
    var ds := cs + [c];
    assert Capacity(g, ds) == Capacity(g, cs) + g.csize;
    forall i | 0 <= i < Size(g, ds)
      ensures if i < Size(g, cs) then SlotOf(g, w, ds, i) == SlotOf(g, v, cs, i) else SlotOf(g, w, ds, i)[0] == 0
    {
      StretchedEntry(g, v, w, cs, c, i);
    }
  }

  lemma StretchedEntry(g: Layout, v: seq<Sector>, w: seq<Sector>, cs: seq<dword>, c: dword, i: nat)
    requires g.Checked(|v|) && cs != [] && Proper(g, cs) && Proper(g, cs + [c]) && Stretched(g, v, w, c)
    requires i < Size(g, cs + [c])
    ensures if i < Size(g, cs) then SlotOf(g, w, cs + [c], i) == SlotOf(g, v, cs, i)
        else SlotOf(g, w, cs + [c], i)[0] == 0
  {
    var ds := cs + [c];
    DirSectorPlace(g, ds, i, |v|);
    InTable(g, cs, i);
    var k, s := Ordinal(g, i / 16), DirSector(g, ds, i);
    g.FatsInside(|v|);
    if k < |cs| {
      assert ds[k] == cs[k] && cs[k] != ds[|cs|];
      if g.InCluster(c, s) {
        g.ClustersDisjoint(cs[k], c, s, s, |v|);
      }
    }
  }
}
