/**
 Overwriting an existing file: its directory entry is emptied first and its clusters are
 released second, so that no disk image shows an entry that leads to a free cluster.
*/
module Opening {
  import opened Bytes
  import opened Geometry
  import opened DiskIO
  import opened FatMap
  import opened WriteBehind
  import opened Volumes
  import opened Allocator
  import opened Entries
  import opened Ordering
  import opened FileMap
  import opened FileGrowth
  import Chains

  // Slot o of sector s is a directory entry of the volume.
  ghost predicate IsEntry(g: Layout, v: seq<Sector>, m: set<nat>, s: nat, o: nat) {
    o < 16 && s in m && s < |v| && !g.InFats(s)
  }

  // No other live entry names a cluster of cs.
  ghost predicate SoleOwner(g: Layout, v: seq<Sector>, m: set<nat>, s: nat, o: nat, cs: seq<nat>)
    requires forall t :: t in m ==> t < |v|
  {
    forall t, p :: t in m && !g.InFats(t) && 0 <= p < 16 && !(t == s && p == o) && Live(SlotAt(v[t], p)) ==>
                     StartCluster(SlotAt(v[t], p)) !in cs
  }

  // Once the entry is emptied, no entry names a cluster of its chain any more.
  lemma EmptiedAvoids(g: Layout, v: seq<Sector>, m: set<nat>, s: nat, o: nat, time: dword, cs: seq<nat>)
    requires (forall t :: t in m ==> t < |v|) && IsEntry(g, v, m, s, o) && SoleOwner(g, v, m, s, o, cs) && 0 !in cs
    ensures EntriesAvoid(g, Snapshot(v[s := WithSlot(v[s], o, Emptied(SlotAt(v[s], o), time))], m), cs)
  {
    var e := Emptied(SlotAt(v[s], o), time);
    var w := v[s := WithSlot(v[s], o, e)];
    EmptiedReadsBack(SlotAt(v[s], o), time);
    forall t, p | t in m && !g.InFats(t) && 0 <= p < 16 && Live(SlotAt(w[t], p))
      ensures StartCluster(SlotAt(w[t], p)) !in cs
    {
      if t == s {
        WithSlotAt(v[s], o, e, p);
      }
    }
  }

  lemma EntryInWindow(fs: Volume, o: nat)
    requires fs.Valid() && IsEntry(fs.g, fs.view, fs.meta, fs.winsect, o)
    ensures fs.winsect > 0 && fs.g.Cacheable(fs.winsect) && fs.win.Length == 512 && fs.win[..] == fs.view[fs.winsect]
  {
  }

  // Empty the entry in the window.
  method EmptyEntry(fs: Volume, o: nat, time: dword)
    requires fs.Valid() && IsEntry(fs.g, fs.view, fs.meta, fs.winsect, o)
    modifies fs, fs.win
    ensures fs.Valid() && fs.winsect == old(fs.winsect) && fs.wflag && fs.meta == old(fs.meta) && fs.fat == old(fs.fat)
    ensures var s := fs.winsect;
            fs.view == old(fs.view)[s := WithSlot(old(fs.view)[s], o, Emptied(SlotAt(old(fs.view)[s], o), time))]
    ensures fs.steps == old(fs.steps) + [Snapshot(fs.view, fs.meta)]
    ensures fs.lastClust == old(fs.lastClust) && fs.freeClust == old(fs.freeClust) && fs.fsiFlag == old(fs.fsiFlag)
    ensures InOrder(fs.g, old(fs.steps)) ==> InOrder(fs.g, fs.steps)
  {
    hide FatOf, Entry, InOrder, Agrees, Chronicle, Layout.Checked, Emptied, WithSlot;
    fs.LastStep();
    EntryInWindow(fs, o);
    ghost var s, v, steps := fs.winsect, fs.view, fs.steps;
    ghost var e := Emptied(SlotAt(v[s], o), time);
    EmptiedReadsBack(SlotAt(v[s], o), time);
    if InOrder(fs.g, steps) {
      SlotChangeIsSafe(fs.g, v, fs.meta, steps, s, o, e);
    }
    OtherThanFat(fs.g, v, s, WithSlot(v[s], o, e));
    StoreEmptied(fs.win, o, time);
    fs.MarkDirty();
  }

  // A chain that an entry names, and that nothing else leads to.
  ghost predicate OwnChain(fs: Volume, o: nat, cs: seq<nat>)
    requires fs.Valid() && IsEntry(fs.g, fs.view, fs.meta, fs.winsect, o)
    reads fs, fs.win, fs.disk
  {
    var cl := StartCluster(SlotAt(fs.view[fs.winsect], o));
    && (cs == [] <==> cl == 0)
    && (cs != [] ==> Chains.IsChain(fs.fat, cs) && cs[0] == cl)
    && OnlyChainLinks(fs.fat, cs) && SoleOwner(fs.g, fs.view, fs.meta, fs.winsect, o, cs)
  }

  // No cluster of cs holds metadata.
  ghost predicate NoMetaIn(g: Layout, m: set<nat>, cs: seq<nat>)
    requires g.nFatent >= 2
  {
    forall i, s :: 0 <= i < |cs| && s in m ==> !OfCluster(g, cs[i], s)
  }

  // Freeing such clusters leaves no free cluster with metadata.
  lemma FreedUnused(g: Layout, f: seq<nat>, m: set<nat>, cs: seq<nat>)
    requires g.nFatent >= 2 && |f| == g.nFatent
    ensures |Chains.Zeroed(f, cs)| == |f|
    ensures FreeIsUnused(g, f, m) && NoMetaIn(g, m, cs) ==> FreeIsUnused(g, Chains.Zeroed(f, cs), m)
  {
    if FreeIsUnused(g, f, m) && NoMetaIn(g, m, cs) {
      forall c: dword, s | g.IsCluster(c) && Chains.Zeroed(f, cs)[c] == 0 && s in m
        ensures !g.InCluster(c, s)
      {
        if c in cs {
          var i :| 0 <= i < |cs| && cs[i] == c;
          assert !OfCluster(g, cs[i], s);
        }
      }
    }
  }

  lemma OverwriteFacts(fs: Volume, o: nat, time: dword, cs: seq<nat>)
    requires fs.Valid() && IsEntry(fs.g, fs.view, fs.meta, fs.winsect, o) && OwnChain(fs, o, cs)
    ensures fs.win.Length == 512 && 0 < fs.winsect && fs.g.nFatent >= 2 && (forall t :: t in fs.meta ==> t < |fs.view|)
    ensures fs.g.Checked(|fs.view|) && fs.g.fatbase + fs.g.FatSectors() <= |fs.view| && |fs.fat| == fs.g.nFatent
    ensures var s, cl := fs.winsect, StartCluster(SlotAt(fs.win[..], o));
            && (cl == 0 ==> cs == [])
            && (cl != 0 ==> Chains.IsChain(fs.fat, cs) && cs[0] == cl && fs.g.IsCluster(cl))
            && OnlyChainLinks(fs.fat, cs)
            && EntriesAvoid(fs.g, Snapshot(fs.view[s := WithSlot(fs.view[s], o,
                 Emptied(SlotAt(fs.view[s], o), time))], fs.meta), cs)
    ensures Chains.Zeroed(fs.fat, []) == fs.fat && Increased(fs.freeClust, 0) == fs.freeClust
  {
    EntryInWindow(fs, o);
    hide Emptied, WithSlot, FatOf, Chronicle, Agrees;
    EmptiedAvoids(fs.g, fs.view, fs.meta, fs.winsect, o, time, cs);
  }

  // Empty the entry in the window and release the chain cs it named.
  method OverwriteFile(fs: Volume, o: nat, time: dword, ghost cs: seq<nat>) returns (res: FResult)
    requires fs.Valid() && IsEntry(fs.g, fs.view, fs.meta, fs.winsect, o) && OwnChain(fs, o, cs)
    modifies fs, fs.win, fs.disk
    ensures fs.Valid() && res == Ok && fs.winsect == old(fs.winsect) && fs.meta == old(fs.meta)
    ensures var s := fs.winsect;
            && s < |fs.view| == |old(fs.view)|
            && fs.view[s] == WithSlot(old(fs.view)[s], o, Emptied(SlotAt(old(fs.view)[s], o), time))
            && forall t :: 0 <= t < |fs.view| && t != s && !fs.g.InFats(t) ==> fs.view[t] == old(fs.view)[t]
    ensures fs.fat == Chains.Zeroed(old(fs.fat), cs) && fs.freeClust == Increased(old(fs.freeClust), |cs|)
    ensures cs != [] ==> fs.lastClust == cs[0] - 1
    ensures fs.g.nFatent >= 2 && |old(fs.fat)| == |fs.fat| == fs.g.nFatent
    ensures FreeIsUnused(fs.g, old(fs.fat), fs.meta) && NoMetaIn(fs.g, fs.meta, cs) ==>
              FreeIsUnused(fs.g, fs.fat, fs.meta)
    ensures InOrder(fs.g, old(fs.steps)) ==> InOrder(fs.g, fs.steps)
    ensures old(fs.disk.log) <= fs.disk.log && old(fs.steps) <= fs.steps
  {
    hide FatOf, Entry, InOrder, Agrees, Chronicle, Layout.Checked, Emptied, WithSlot, Volume.Valid, Chains.IsChain;
    hide OwnChain, SoleOwner;
    hide OnlyChainLinks, EntriesAvoid, Shows, Chains.Remove, Chains.RemovalTrace, Chains.Zeroed, Increased, NoMetaIn;
    hide FreeIsUnused;
    OverwriteFacts(fs, o, time, cs);
    ghost var v, f := fs.view, fs.fat;
    FreedUnused(fs.g, f, fs.meta, cs);
    var s := fs.winsect;
    var cl := StartCluster(SlotAt(fs.win[..], o));
    EmptyEntry(fs, o, time);
    res := Ok;
    if cl != 0 {
      ghost var w, steps := fs.view, fs.steps;
      fs.LastStep();
      Chains.RemoveFreesChain(f, cs);
      res := RemoveChain(fs, cl);
      if InOrder(fs.g, steps) {
        ReleaseIsSafe(fs.g, w, fs.meta, steps, fs.steps, cs);
      }
      if res == Ok {
        fs.lastClust := cl - 1;
        res := fs.MoveWindow(s);
      }
    }
  }
}
