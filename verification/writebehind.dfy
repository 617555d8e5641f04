/**
 The order in which cached metadata reaches the disk: every disk image equals, on the
 metadata sectors, the logical metadata at some earlier step.
*/
module WriteBehind {
  import opened Bytes

  // The logical sectors after a step, and the sectors that hold metadata then.
  datatype Snapshot = Snapshot(sectors: seq<Sector>, meta: set<nat>)

  ghost predicate Agrees(img: seq<Sector>, st: Snapshot) {
    |img| == |st.sectors| && forall s :: s in st.meta ==> s < |img| && img[s] == st.sectors[s]
  }

  // No sector stops holding metadata: not those that did at first, nor any later one.
  ghost predicate MetaGrows(steps: seq<Snapshot>, first: set<nat>, meta: set<nat>) {
    forall j :: 0 <= j < |steps| ==> first <= steps[j].meta <= meta
  }

  // The image shows the metadata of some recorded step.
  ghost predicate Explained(steps: seq<Snapshot>, img: seq<Sector>) {
    exists j :: 0 <= j < |steps| && Agrees(img, steps[j])
  }

  // Every image of the log does.
  ghost predicate Chronicle(steps: seq<Snapshot>, log: seq<seq<Sector>>)
    decreases |log|
  {
    |log| == 0 || (Explained(steps, log[|log| - 1]) && Chronicle(steps, log[..|log| - 1]))
  }

  // One of the images logged from the i-th one on is img.
  ghost predicate Logged(log: seq<seq<Sector>>, i: nat, img: seq<Sector>) {
    exists k :: i <= k < |log| && log[k] == img
  }

  lemma LastIsLogged(log: seq<seq<Sector>>, i: nat)
    requires i < |log|
    ensures Logged(log, i, log[|log| - 1])
  {
  }

  lemma StaysLogged(log: seq<seq<Sector>>, i: nat, img: seq<Sector>, later: seq<seq<Sector>>)
    requires Logged(log, i, img) && log <= later
    ensures Logged(later, i, img)
  {
  }

  lemma {:induction false} ChronicleAt(steps: seq<Snapshot>, log: seq<seq<Sector>>, k: nat)
    requires Chronicle(steps, log) && k < |log|
    ensures Explained(steps, log[k])
    decreases |log|
  {
    if k < |log| - 1 {
      ChronicleAt(steps, log[..|log| - 1], k);
    }
  }

  lemma {:induction false} ChronicleStep(steps: seq<Snapshot>, log: seq<seq<Sector>>, st: Snapshot)
    requires Chronicle(steps, log)
    ensures Chronicle(steps + [st], log)
    decreases |log|
  {
    if |log| > 0 {
      var j :| 0 <= j < |steps| && Agrees(log[|log| - 1], steps[j]);
      assert (steps + [st])[j] == steps[j];
      ChronicleStep(steps, log[..|log| - 1], st);
    }
  }

  lemma ChronicleWrite(steps: seq<Snapshot>, log: seq<seq<Sector>>, img: seq<Sector>, j: nat)
    requires Chronicle(steps, log) && j < |steps| && Agrees(img, steps[j])
    ensures Chronicle(steps, log + [img])
  {
    assert (log + [img])[..|log|] == log;
  }
}
