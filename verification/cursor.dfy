/**
 Positions in a directory table: where entry i lies, and what moving to the next entry does.
 A table is the static root directory of a FAT12/16 volume or the chain of a start cluster.
*/
module Cursor {
  import opened Bytes
  import opened Geometry
  import opened DiskIO
  import Chains

  // The place of an entry: its index, cluster (0 in the static table), sector and byte offset.
  datatype Position = Position(index: nat, clust: dword, sect: nat, off: nat)

  datatype Place = Nowhere(res: FResult) | At(pos: Position)

  // Entries per cluster.
  function PerCluster(g: Layout): nat {
    16 * g.csize
  }

  datatype Reached = Lost | Cluster(clust: dword, rest: nat)

  // Follow the links from cluster c until entry idx lies in the cluster reached.
  function Walk(g: Layout, f: seq<nat>, c: dword, idx: nat): (r: Reached)
    requires g.csize > 0 && |f| == g.nFatent <= 0x1_0000_0000
    ensures r.Cluster? && g.IsCluster(c) ==> g.IsCluster(r.clust)
    decreases idx
  {
    if idx < PerCluster(g) then Cluster(c, idx)
    else if !g.IsCluster(c) || !g.IsCluster(f[c]) then Lost
    else Walk(g, f, f[c], idx - PerCluster(g))
  }

  // Cluster 0 stands for the root directory, which FAT32 keeps in a chain of its own.
  function Start(g: Layout, sclust: dword): dword
    requires g.dirbase < 0x1_0000_0000
  {
    if sclust == 0 && g.fsType == Fat32 then g.dirbase else sclust
  }

  // Where entry idx of the table that starts in cluster sclust lies.
  function Seek(g: Layout, f: seq<nat>, sclust: dword, idx: word): Place
    requires g.csize > 0 && 2 <= |f| == g.nFatent <= 0x1_0000_0000 && g.dirbase < 0x1_0000_0000
  {
    if sclust == 1 || sclust >= g.nFatent then Nowhere(IntErr)
    else if Start(g, sclust) == 0 then
      if idx >= g.nRootdir then Nowhere(IntErr)
      else At(Position(idx, 0, g.dirbase + idx / 16, idx % 16 * 32))
    else
      var r := Walk(g, f, Start(g, sclust), idx);
      if r.Lost? then Nowhere(IntErr)
      else At(Position(idx, r.clust, g.Clust2Sect(r.clust) + r.rest / 16, r.rest % 16 * 32))
  }

  // The entry behind p opens another cluster of a chain.
  predicate CrossesCluster(g: Layout, p: Position)
    requires g.csize > 0
  {
    var i := p.index + 1;
    p.clust != 0 && i % 16 == 0 && BitAnd(i / 16, g.csize - 1) == 0
  }

  // Move to the next entry without extending the table.
  function Next(g: Layout, f: seq<nat>, p: Position): Place
    requires g.csize > 0 && 2 <= |f| == g.nFatent <= 0x1_0000_0000
  {
    var i := p.index + 1;
    if i >= 0x1_0000 || p.sect == 0 then Nowhere(NoFile)
    else if i % 16 != 0 then At(p.(index := i, off := i % 16 * 32))
    else if p.clust == 0 then
      if i >= g.nRootdir then Nowhere(NoFile) else At(Position(i, 0, p.sect + 1, 0))
    else if !CrossesCluster(g, p) then At(Position(i, p.clust, p.sect + 1, 0))
    else if !g.IsCluster(p.clust) || f[p.clust] <= 1 then Nowhere(IntErr)
    else if f[p.clust] >= g.nFatent then Nowhere(NoFile)
    else At(Position(i, f[p.clust], g.Clust2Sect(f[p.clust]), 0))
  }

  // ----- the two ways agree

  lemma RemainderStep(x: nat, c: nat)
    requires c > 0
    ensures (x + 1) % c == if x % c == c - 1 then 0 else x % c + 1
    ensures x >= c ==> (x - c) % c == x % c
  {
    var q, r := x / c, x % c;
    assert x == q * c + r;
    if r == c - 1 {
      assert x + 1 == (q + 1) * c + 0;
      DivModUnique(x + 1, c, q + 1, 0);
    } else {
      DivModUnique(x + 1, c, q, r + 1);
    }
    if x >= c {
      if q == 0 {
      } else {
        assert x - c == (q - 1) * c + r;
        DivModUnique(x - c, c, q - 1, r);
      }
    }
  }

  // How far entry idx lies into the cluster reached.
  lemma {:induction false} WalkRest(g: Layout, f: seq<nat>, c: dword, idx: nat)
    requires g.csize > 0 && |f| == g.nFatent <= 0x1_0000_0000 && Walk(g, f, c, idx).Cluster?
    ensures var j := Walk(g, f, c, idx).rest;
            j < PerCluster(g) && j % 16 == idx % 16 && j / 16 == idx / 16 % g.csize
    decreases idx
  {
    if idx < PerCluster(g) {
      InFirst(idx, g.csize);
    } else {
      WalkRest(g, f, f[c], idx - PerCluster(g));
      OneLess(idx, g.csize);
    }
  }

  lemma InFirst(idx: nat, c: nat)
    requires idx < 16 * c
    ensures c > 0 && idx / 16 == idx / 16 % c
  {
    DivModUnique(idx / 16, c, 0, idx / 16);
  }

  lemma OneLess(idx: nat, c: nat)
    requires c > 0 && idx >= 16 * c
    ensures (idx - 16 * c) % 16 == idx % 16 && (idx - 16 * c) / 16 % c == idx / 16 % c
  {
    assert (idx - 16 * c) / 16 == idx / 16 - c && (idx - 16 * c) % 16 == idx % 16;
    RemainderStep(idx / 16, c);
  }

  lemma {:induction false} WalkNext(g: Layout, f: seq<nat>, c: dword, idx: nat)
    requires g.csize > 0 && |f| == g.nFatent <= 0x1_0000_0000 && Walk(g, f, c, idx).Cluster?
    ensures var d, j := Walk(g, f, c, idx).clust, Walk(g, f, c, idx).rest;
            Walk(g, f, c, idx + 1) ==
            if j + 1 < PerCluster(g) then Cluster(d, j + 1)
            else if !g.IsCluster(d) || !g.IsCluster(f[d]) then Lost
            else Cluster(f[d], 0)
    decreases idx
  {
    if idx >= PerCluster(g) {
      WalkNext(g, f, f[c], idx - PerCluster(g));
    }
  }

  // A sound layout addresses its clusters, and the sector of its root directory, with 32 bits.
  lemma Bounds(g: Layout, limit: nat)
    requires g.Sound(limit)
    ensures 2 <= g.nFatent <= 0x1000_0000 && g.dirbase < 0x1_0000_0000 && 1 <= g.csize && g.nRootdir % 16 == 0
    ensures g.fsType != Fat32 ==> g.dirbase > 0
    ensures g.fsType == Fat32 ==> g.IsCluster(g.dirbase)
  {
    g.FatsInside(limit);
  }

  lemma NextInStaticTable(g: Layout, f: seq<nat>, sclust: dword, idx: word, limit: nat)
    requires g.Sound(limit) && |f| == g.nFatent <= 0x1_0000_0000 && g.dirbase < 0x1_0000_0000 && 2 <= g.nFatent
    requires Start(g, sclust) == 0 && Seek(g, f, sclust, idx).At? && idx + 1 < 0x1_0000
    ensures var p := Seek(g, f, sclust, idx).pos;
            && Next(g, f, p).At? == Seek(g, f, sclust, idx + 1).At?
            && (Next(g, f, p).At? ==> Next(g, f, p) == Seek(g, f, sclust, idx + 1))
  {
    hide Layout.Checked, BitAnd, Walk;
    Bounds(g, limit);
  }

  lemma NextInChain(g: Layout, f: seq<nat>, sclust: dword, idx: word, limit: nat)
    requires g.Sound(limit) && |f| == g.nFatent <= 0x1_0000_0000 && g.dirbase < 0x1_0000_0000 && 2 <= g.nFatent
    requires Start(g, sclust) != 0 && Seek(g, f, sclust, idx).At? && idx + 1 < 0x1_0000
    ensures var p := Seek(g, f, sclust, idx).pos;
            && Next(g, f, p).At? == Seek(g, f, sclust, idx + 1).At?
            && (Next(g, f, p).At? ==> Next(g, f, p) == Seek(g, f, sclust, idx + 1))
  {
    hide Layout.Sound, Layout.Checked, Layout.Clust2Sect, Walk, BitAnd, PowerOfTwo;
    Bounds(g, limit);
    var c, r := Start(g, sclust), Walk(g, f, Start(g, sclust), idx);
    MaskedIndex(g, idx + 1, limit);
    WalkRest(g, f, c, idx);
    RemainderStep(idx / 16, g.csize);
    NotInBoot(g, r.clust, limit);
    RestStep(idx, r.rest, idx / 16 % g.csize, g.csize);
    WalkNext(g, f, c, idx);
  }

  lemma MaskedIndex(g: Layout, i: nat, limit: nat)
    requires g.Sound(limit) && g.csize > 0
    ensures BitAnd(i / 16, g.csize - 1) == i / 16 % g.csize
  {
    MaskIsRemainder(i / 16, g.csize);
  }

  lemma NotInBoot(g: Layout, c: dword, limit: nat)
    requires g.Sound(limit) && g.nFatent >= 2
    ensures g.Clust2Sect(c) != 0 <==> g.IsCluster(c)
  {
    g.ZeroIffInvalid(c, limit);
  }

  // The offset in a cluster of csize * 16 entries, moved on by one entry.
  lemma RestStep(idx: nat, j: nat, k: nat, csize: nat)
    requires j % 16 == idx % 16 && j / 16 == k < csize
    ensures (idx + 1) % 16 == 0 <==> idx % 16 == 15
    ensures (idx + 1) % 16 != 0 ==> j + 1 < 16 * csize && (j + 1) / 16 == k && (j + 1) % 16 == (idx + 1) % 16
    ensures (idx + 1) % 16 == 0 ==>
            && (j + 1 < 16 * csize <==> k != csize - 1) && (j + 1) / 16 == k + 1
            && (j + 1) % 16 == 0
  {
  }

  // Moving from entry i to the next is possible exactly when entry i + 1 can be sought, and leads there:
  // cluster, sector and offset agree. This needs a cluster size that is a power of two.
  lemma NextIsSeek(g: Layout, f: seq<nat>, sclust: dword, idx: word, limit: nat)
    requires g.Sound(limit) && |f| == g.nFatent <= 0x1_0000_0000 && g.dirbase < 0x1_0000_0000 && 2 <= g.nFatent
    requires Seek(g, f, sclust, idx).At? && idx + 1 < 0x1_0000
    ensures var p := Seek(g, f, sclust, idx).pos;
            && Next(g, f, p).At? == Seek(g, f, sclust, idx + 1).At?
            && (Next(g, f, p).At? ==> Next(g, f, p) == Seek(g, f, sclust, idx + 1))
  {
    if Start(g, sclust) == 0 {
      NextInStaticTable(g, f, sclust, idx, limit);
    } else {
      NextInChain(g, f, sclust, idx, limit);
    }
  }

  // A sought entry never lies in sector 0.
  lemma SectorNotZero(g: Layout, f: seq<nat>, sclust: dword, idx: word, limit: nat)
    requires g.Sound(limit) && |f| == g.nFatent <= 0x1_0000_0000 && g.dirbase < 0x1_0000_0000 && 2 <= g.nFatent
    requires Seek(g, f, sclust, idx).At?
    ensures Seek(g, f, sclust, idx).pos.sect > 0
  {
    Bounds(g, limit);
    if Start(g, sclust) != 0 {
      g.ZeroIffInvalid(Walk(g, f, Start(g, sclust), idx).clust, limit);
    }
  }

  // Move on k times.
  function Advance(g: Layout, f: seq<nat>, p: Position, k: nat): Place
    requires g.csize > 0 && 2 <= |f| == g.nFatent <= 0x1_0000_0000
    decreases k
  {
    if k == 0 then At(p)
    else
      var q := Next(g, f, p);
      if q.Nowhere? then q else Advance(g, f, q.pos, k - 1)
  }

  lemma MoveInRange(g: Layout, f: seq<nat>, sclust: dword, idx: word)
    requires g.csize > 0 && 2 <= |f| == g.nFatent <= 0x1_0000_0000 && g.dirbase < 0x1_0000_0000
    requires Seek(g, f, sclust, idx).At? && Next(g, f, Seek(g, f, sclust, idx).pos).At?
    ensures idx + 1 < 0x1_0000
  {
    hide Walk, CrossesCluster, Start;
  }

  // Any number of successful moves from entry i ends where seeking that entry directly would.
  lemma {:induction false} AdvanceIsSeek(g: Layout, f: seq<nat>, sclust: dword, idx: word, k: nat, limit: nat)
    requires g.Sound(limit) && |f| == g.nFatent <= 0x1_0000_0000 && g.dirbase < 0x1_0000_0000 && 2 <= g.nFatent
    requires Seek(g, f, sclust, idx).At? && Advance(g, f, Seek(g, f, sclust, idx).pos, k).At?
    ensures idx + k < 0x1_0000 && Advance(g, f, Seek(g, f, sclust, idx).pos, k) == Seek(g, f, sclust, idx + k)
    decreases k
  {
    hide Seek, Next, Layout.Sound;
    Bounds(g, limit);
    if k > 0 {
      MoveInRange(g, f, sclust, idx);
      NextIsSeek(g, f, sclust, idx, limit);
      AdvanceIsSeek(g, f, sclust, idx + 1, k - 1, limit);
    }
  }

  // Links that exist stay: every entry that names a cluster is the same in both FATs.
  ghost predicate LinksKept(g: Layout, f: seq<nat>, h: seq<nat>) {
    |f| == |h| == g.nFatent && forall c :: 0 <= c < |f| && g.IsCluster(f[c]) ==> h[c] == f[c]
  }

  lemma {:induction false} WalkKept(g: Layout, f: seq<nat>, h: seq<nat>, c: dword, idx: nat)
    requires g.csize > 0 && g.nFatent <= 0x1_0000_0000 && LinksKept(g, f, h) && Walk(g, f, c, idx).Cluster?
    ensures Walk(g, h, c, idx) == Walk(g, f, c, idx)
    decreases idx
  {
    if idx >= PerCluster(g) {
      WalkKept(g, f, h, f[c], idx - PerCluster(g));
    }
  }

  // Positions stay valid as chains grow.
  lemma SeekKept(g: Layout, f: seq<nat>, h: seq<nat>, sclust: dword, idx: word)
    requires g.csize > 0 && 2 <= g.nFatent <= 0x1_0000_0000 && g.dirbase < 0x1_0000_0000 && LinksKept(g, f, h)
    requires Seek(g, f, sclust, idx).At?
    ensures Seek(g, h, sclust, idx) == Seek(g, f, sclust, idx)
  {
    if Start(g, sclust) != 0 {
      WalkKept(g, f, h, Start(g, sclust), idx);
    }
  }

  // A table whose chain ends behind entry idx is extended by a new last cluster c.
  lemma SeekStretched(g: Layout, f: seq<nat>, h: seq<nat>, sclust: dword, idx: word, c: dword, limit: nat)
    requires g.Sound(limit) && 2 <= g.nFatent <= 0x1_0000_0000 && g.dirbase < 0x1_0000_0000 && LinksKept(g, f, h)
    requires Seek(g, f, sclust, idx).At? && idx + 1 < 0x1_0000
    requires var p := Seek(g, f, sclust, idx).pos;
             p.sect != 0 && CrossesCluster(g, p) && g.IsCluster(p.clust) && h[p.clust] == c && g.IsCluster(c)
    ensures Seek(g, h, sclust, idx + 1) == At(Position(idx + 1, c, g.Clust2Sect(c), 0))
  {
    SeekKept(g, f, h, sclust, idx);
    NextIsSeek(g, h, sclust, idx, limit);
  }
}
