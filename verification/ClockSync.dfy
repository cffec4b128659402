/** The clock check across nodes: each node reports its time in milliseconds, and the reports are compared with
    the one that arrived first. */
module ClockSync {
  import opened Common
  import FanIn

  /** maxDelta. */
  const MAX_DELTA := 200.0

  function Abs(x: real): real {
    if x < 0.0 then -x else x
  }

  predicate Near(a: real, b: real) {
    Abs(a - b) <= MAX_DELTA
  }

  predicate InRange(values: seq<real>) {
    forall i :: 1 <= i < |values| ==> Near(values[0], values[i])
  }

  /** timeInRange. */
  method TimeInRange(values: seq<real>) returns (ok: bool)
    ensures ok <==> InRange(values)
    ensures ok <==> forall i :: 1 <= i < |values| ==> -200.0 <= values[0] - values[i] <= 200.0
  {
    if |values| < 2 {
      return true;
    }
    var d0 := values[0];
    for i := 1 to |values|
      invariant forall k :: 1 <= k < i ==> Near(values[0], values[k])
    {
      if Abs(d0 - values[i]) > MAX_DELTA {
        assert !Near(values[0], values[i]);
        return false;
      }
    }
    ok := true;
  }

  ghost predicate PairwiseNear(clocks: seq<real>) {
    forall i, j :: 0 <= i < j < |clocks| ==> Near(clocks[i], clocks[j])
  }

  lemma SameMembers(a: seq<real>, b: seq<real>, x: real)
    requires multiset(a) == multiset(b)
    ensures x in a <==> x in b
  {
    assert x in multiset(a) <==> x in multiset(b);
  }

  /** Whatever the arrival order, acceptance bounds every two clocks by twice the allowed difference. */
  lemma AcceptedWithinTwice(clocks: seq<real>, arrived: seq<real>, i: nat, j: nat)
    requires multiset(arrived) == multiset(clocks) && InRange(arrived) && i < |clocks| && j < |clocks|
    ensures Abs(clocks[i] - clocks[j]) <= 2.0 * MAX_DELTA
  {
    SameMembers(arrived, clocks, clocks[i]);
    SameMembers(arrived, clocks, clocks[j]);
    var a :| 0 <= a < |arrived| && arrived[a] == clocks[i];
    var b :| 0 <= b < |arrived| && arrived[b] == clocks[j];
  }

  function MoveFirst(clocks: seq<real>, k: nat): seq<real>
    requires k < |clocks|
  {
    [clocks[k]] + Without(clocks, k)
  }

  lemma PairwiseNearIsAccepted(clocks: seq<real>, arrived: seq<real>)
    requires PairwiseNear(clocks) && multiset(arrived) == multiset(clocks)
    ensures InRange(arrived)
  {
    forall i | 1 <= i < |arrived| ensures Near(arrived[0], arrived[i]) {
      SameMembers(arrived, clocks, arrived[0]);
      SameMembers(arrived, clocks, arrived[i]);
      var a :| 0 <= a < |clocks| && clocks[a] == arrived[0];
      var b :| 0 <= b < |clocks| && clocks[b] == arrived[i];
      assert a < b ==> Near(clocks[a], clocks[b]);
      assert b < a ==> Near(clocks[b], clocks[a]);
    }
  }

  /** The order in which clock i arrives first rejects the clocks if clock j is too far from it. */
  lemma FarPairIsRejected(clocks: seq<real>, i: nat, j: nat)
    requires i < j < |clocks| && !Near(clocks[i], clocks[j])
    ensures multiset(MoveFirst(clocks, i)) == multiset(clocks) && !InRange(MoveFirst(clocks, i))
  {
    MultisetWithout(clocks, i);
    assert MoveFirst(clocks, i)[j] == clocks[j];
  }

  ghost predicate AcceptedInEveryOrder(clocks: seq<real>) {
    forall arrived :: multiset(arrived) == multiset(clocks) ==> InRange(arrived)
  }

  /** The clocks are accepted in every arrival order exactly when they are pairwise within the allowed difference. */
  lemma AcceptedInEveryOrderIff(clocks: seq<real>)
    ensures AcceptedInEveryOrder(clocks) <==> PairwiseNear(clocks)
  {
    if PairwiseNear(clocks) {
      forall arrived: seq<real> | multiset(arrived) == multiset(clocks) ensures InRange(arrived) {
        PairwiseNearIsAccepted(clocks, arrived);
      }
    } else {
      var i, j :| 0 <= i < j < |clocks| && !Near(clocks[i], clocks[j]);
      FarPairIsRejected(clocks, i, j);
    }
  }

  /** The verdict depends on the arrival order: the same three clocks are accepted and rejected. */
  lemma VerdictDependsOnOrder()
    ensures multiset([200.0, 0.0, 400.0]) == multiset([0.0, 200.0, 400.0])
    ensures InRange([200.0, 0.0, 400.0]) && !InRange([0.0, 200.0, 400.0])
  {
    var early: seq<real> := [0.0, 200.0, 400.0];
    assert !Near(early[0], early[2]);
  }

  /** The check over the whole protocol: when Collect accepts the reports and the range check accepts them, every
      node answered and every two clocks are within twice the allowed difference; clocks that are pairwise near
      are never rejected. */
  lemma CheckOverCollect(setup: FanIn.Setup<real>, actions: seq<FanIn.Action>, s: FanIn.State<real>)
    requires setup.withValues && FanIn.Reachable(setup, actions, s) && s.verdict.Accepted?
    ensures forall i :: 0 <= i < |setup.work| ==> setup.work[i].err == None
    ensures InRange(s.verdict.values) ==>
      forall i, j :: 0 <= i < |setup.work| && 0 <= j < |setup.work| ==>
        Abs(setup.work[i].value - setup.work[j].value) <= 2.0 * MAX_DELTA
    ensures PairwiseNear(FanIn.Values(setup.work)) ==> InRange(s.verdict.values)
  {
    FanIn.AcceptedMeansAllSucceeded(setup, actions, s);
    var clocks := FanIn.Values(setup.work);
    if InRange(s.verdict.values) {
      forall i, j | 0 <= i < |setup.work| && 0 <= j < |setup.work|
        ensures Abs(setup.work[i].value - setup.work[j].value) <= 2.0 * MAX_DELTA
      {
        AcceptedWithinTwice(clocks, s.verdict.values, i, j);
      }
    }
    if PairwiseNear(clocks) {
      PairwiseNearIsAccepted(clocks, s.verdict.values);
    }
  }
}
