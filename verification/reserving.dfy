/**
 Reserving entries in a directory table: when it succeeds, and how it fails, told from the table, the free clusters and
 the cluster size.
*/
module Reserving {
  import Bytes
  import opened DiskIO
  import opened Entries

  // An entry that may be used for a new object: an end mark, or one that was deleted.
  predicate Vacant(e: Slot) {
    e[0] == 0 || e[0] == 0xE5
  }

  // ne adjacent vacant entries from p on.
  predicate RunAt(t: seq<Slot>, p: nat, ne: nat) {
    p + ne <= |t| && forall q :: p <= q < p + ne ==> Vacant(t[q])
  }

  predicate HasRun(t: seq<Slot>, ne: nat) {
    exists p :: 0 <= p <= |t| && RunAt(t, p, ne)
  }

  // The number of vacant entries at the end of the table.
  function Trailing(t: seq<Slot>): (n: nat)
    ensures n <= |t| && forall q :: |t| - n <= q < |t| ==> Vacant(t[q])
    ensures n < |t| ==> !Vacant(t[|t| - n - 1])
  {
    if t == [] || !Vacant(t[|t| - 1]) then 0 else Trailing(t[..|t| - 1]) + 1
  }

  // The clusters of `per` entries that hold n entries.
  function ClustersFor(n: nat, per: nat): nat
    requires per > 0
  {
    (n + per - 1) / per
  }

  // The clusters a table of `size` entries may still be extended by.
  function ClustersLeft(size: nat, per: nat): nat
    requires per > 0 && size <= 0x1_0000
  {
    (0x1_0000 - size) / per
  }

  // What reserving ne entries comes to. Without ne adjacent vacant entries in the table it has to be extended behind
  // those at its end: by clusters of `per` entries, of which `free` can be had before the answer is `full`, and up to
  // 65536 entries. The static root directory cannot be extended.
  function Reservation(t: seq<Slot>, ne: nat, chained: bool, per: nat, free: nat, full: FResult): FResult
    requires per > 0 && |t| <= 0x1_0000
  {
    if HasRun(t, ne) then Ok
    else if !chained || Trailing(t) >= ne then NoFile
    else
      var need, room := ClustersFor(ne - Trailing(t), per), ClustersLeft(|t|, per);
      if need <= free && need <= room then Ok else if free < room then full else NoFile
  }

  // ----- step by step

  // Extending a table of `size` entries, the last `run` of which are vacant, cluster by cluster.
  function Growing(size: nat, run: nat, ne: nat, chained: bool, per: nat, free: nat, full: FResult): FResult
    decreases free
  {
    if run >= ne then Ok
    else if !chained || size >= 0x1_0000 then NoFile
    else if free == 0 then full
    else Growing(size + per, run + per, ne, chained, per, free - 1, full)
  }

  // Looking through the table from entry i on, behind n vacant entries.
  function Scanning(t: seq<Slot>, i: nat, n: nat, ne: nat, chained: bool, per: nat, free: nat, full: FResult): FResult
    requires i <= |t|
    decreases |t| - i
  {
    if i == |t| then Growing(|t|, n, ne, chained, per, free, full)
    else if !Vacant(t[i]) then Scanning(t, i + 1, 0, ne, chained, per, free, full)
    else if n + 1 == ne then Ok
    else Scanning(t, i + 1, n + 1, ne, chained, per, free, full)
  }

  lemma {:induction false} ScanningVacant(t: seq<Slot>, i: nat, n: nat, ne: nat, chained: bool, per: nat, free: nat,
                                          full: FResult)
    requires i <= |t| && n < ne && forall q :: i <= q < |t| ==> Vacant(t[q])
    ensures Scanning(t, i, n, ne, chained, per, free, full) == Growing(|t|, n + |t| - i, ne, chained, per, free, full)
    decreases |t| - i
  {
    if i < |t| && n + 1 < ne {
      ScanningVacant(t, i + 1, n + 1, ne, chained, per, free, full);
    }
  }

  // The table was extended by a cluster of vacant entries.
  lemma ScanningExtended(t: seq<Slot>, u: seq<Slot>, n: nat, ne: nat, per: nat, free: nat, full: FResult)
    requires n < ne && t <= u && |u| == |t| + per && |t| < 0x1_0000 && free > 0
    requires forall q :: |t| <= q < |u| ==> Vacant(u[q])
    ensures Scanning(t, |t|, n, ne, true, per, free, full) == Scanning(u, |t|, n, ne, true, per, free - 1, full)
  {
    ScanningVacant(u, |t|, n, ne, true, per, free - 1, full);
  }

  lemma {:induction false} TrailingRun(t: seq<Slot>, ne: nat)
    requires ne <= |t| && RunAt(t, |t| - ne, ne)
    ensures Trailing(t) >= ne
    decreases ne
  {
    if ne > 0 {
      assert Vacant(t[|t| - 1]);
      TrailingRun(t[..|t| - 1], ne - 1);
    }
  }

  // A run in a part of the table is one in the table, and one more entry makes at most a run that ends with it.
  lemma RunsIn(t: seq<Slot>, i: nat, ne: nat)
    requires i < |t| && ne > 0
    ensures HasRun(t[..i], ne) ==> HasRun(t[..i + 1], ne)
    ensures HasRun(t[..i + 1], ne) ==> HasRun(t[..i], ne) || Trailing(t[..i + 1]) >= ne
    ensures Trailing(t[..i + 1]) >= ne ==> HasRun(t[..i + 1], ne)
    ensures Trailing(t[..i + 1]) == if Vacant(t[i]) then Trailing(t[..i]) + 1 else 0
  {
    var s, r := t[..i], t[..i + 1];
    assert r[..|r| - 1] == s && r[|r| - 1] == t[i];
    if HasRun(s, ne) {
      var p :| 0 <= p <= |s| && RunAt(s, p, ne);
      assert RunAt(r, p, ne);
    }
    if HasRun(r, ne) {
      var p :| 0 <= p <= |r| && RunAt(r, p, ne);
      if p + ne <= i {
        assert RunAt(s, p, ne);
      } else {
        TrailingRun(r, ne);
      }
    }
    if Trailing(r) >= ne {
      assert RunAt(r, |r| - ne, ne);
    }
  }

  lemma {:induction false} RunStays(t: seq<Slot>, i: nat, ne: nat)
    requires i <= |t| && ne > 0 && HasRun(t[..i], ne)
    ensures HasRun(t, ne)
    decreases |t| - i
  {
    if i == |t| {
      assert t[..i] == t;
    } else {
      RunsIn(t, i, ne);
      RunStays(t, i + 1, ne);
    }
  }

  // Where the scan stands after i entries without a run.
  lemma {:induction false} ScanningOn(t: seq<Slot>, i: nat, ne: nat, chained: bool, per: nat, free: nat, full: FResult)
    requires i <= |t| && ne > 0 && !HasRun(t[..i], ne) && Trailing(t[..i]) < ne
    ensures Scanning(t, i, Trailing(t[..i]), ne, chained, per, free, full)
         == if HasRun(t, ne) then Ok else Growing(|t|, Trailing(t), ne, chained, per, free, full)
    decreases |t| - i
  {
    if i == |t| {
      assert t[..i] == t;
    } else {
      RunsIn(t, i, ne);
      if Trailing(t[..i + 1]) >= ne {
        RunStays(t, i + 1, ne);
      } else {
        ScanningOn(t, i + 1, ne, chained, per, free, full);
      }
    }
  }

  lemma ClustersStep(n: nat, per: nat)
    requires per > 0 && n > 0
    ensures ClustersFor(n, per) >= 1
    ensures n > per ==> ClustersFor(n, per) == ClustersFor(n - per, per) + 1
    ensures n <= per ==> ClustersFor(n, per) == 1
  {
    var q, r := (n + per - 1) / per, (n + per - 1) % per;
    assert n + per - 1 == q * per + r;
    if n > per {
      assert n - per + per - 1 == (q - 1) * per + r;
      assert q >= 1;
      Bytes.DivModUnique(n - 1, per, q - 1, r);
    } else {
      Bytes.DivModUnique(n + per - 1, per, 1, n - 1);
    }
  }

  lemma RoomStep(size: nat, per: nat)
    requires per > 0 && size < 0x1_0000 && size % per == 0 && 0x1_0000 % per == 0
    ensures size + per <= 0x1_0000 && (size + per) % per == 0
    ensures ClustersLeft(size, per) == ClustersLeft(size + per, per) + 1
  {
    var a, b := 0x1_0000 / per, size / per;
    assert 0x1_0000 == a * per && size == b * per;
    if a <= b {
      Bytes.MulGap(b + 1, a, per);
    }
    Bytes.MulGap(a, b, per);
    assert (a - b) * per == a * per - b * per && (a - b - 1) * per == (a - b) * per - per;
    Bytes.DivModUnique(0x1_0000 - size, per, a - b, 0);
    Bytes.DivModUnique(0x1_0000 - (size + per), per, a - b - 1, 0);
    Bytes.DivModUnique(size + per, per, b + 1, 0);
  }

  lemma NoneLeft(per: nat)
    requires per > 0
    ensures ClustersLeft(0x1_0000, per) == 0
  {
  }

  // Extending step by step fails or succeeds as the numbers say.
  lemma {:induction false} GrowingIs(size: nat, run: nat, ne: nat, per: nat, free: nat, full: FResult)
    requires per > 0 && run < ne && size <= 0x1_0000 && size % per == 0 && 0x1_0000 % per == 0
    ensures var need, room := ClustersFor(ne - run, per), ClustersLeft(size, per);
            Growing(size, run, ne, true, per, free, full)
            == if need <= free && need <= room then Ok else if free < room then full else NoFile
    decreases free
  {
    hide ClustersFor, ClustersLeft;
    ClustersStep(ne - run, per);
    NoneLeft(per);
    if size < 0x1_0000 {
      RoomStep(size, per);
      if free > 0 && run + per < ne {
        GrowingIs(size + per, run + per, ne, per, free - 1, full);
      }
    }
  }

  // The scan comes to the reservation.
  lemma ScanningIs(t: seq<Slot>, ne: nat, chained: bool, per: nat, free: nat, full: FResult)
    requires ne > 0 && per > 0 && |t| <= 0x1_0000
    requires chained ==> |t| % per == 0 && 0x1_0000 % per == 0
    ensures Scanning(t, 0, 0, ne, chained, per, free, full) == Reservation(t, ne, chained, per, free, full)
  {
    assert t[..0] == [] && !HasRun([], ne);
    ScanningOn(t, 0, ne, chained, per, free, full);
    if !HasRun(t, ne) {
      if Trailing(t) >= ne {
        assert RunAt(t, |t| - ne, ne);
      } else if chained {
        GrowingIs(|t|, Trailing(t), ne, per, free, full);
      }
    }
  }
}
