/** The timestamp conditions that forward and backward queries put on a path. */
module QueryFilters {

  /** Forward: for i from 1 on, not before its predecessor and not after `end`. */
  predicate Forward(ts: seq<int>, end: int) {
    forall i :: 1 <= i <= |ts| - 1 ==> ts[i] >= ts[i - 1] && ts[i] <= end
  }

  /** Backward: for i from 1 on, not after its predecessor and not before `start`. */
  predicate Backward(ts: seq<int>, start: int) {
    forall i :: 1 <= i <= |ts| - 1 ==> ts[i] <= ts[i - 1] && ts[i] >= start
  }

  lemma {:induction false} ForwardSorted(ts: seq<int>, end: int, i: nat, j: nat)
    requires Forward(ts, end) && i <= j < |ts|
    ensures ts[i] <= ts[j]
    decreases j
  {
    if i < j { ForwardSorted(ts, end, i, j - 1); }
  }

  lemma {:induction false} BackwardSorted(ts: seq<int>, start: int, i: nat, j: nat)
    requires Backward(ts, start) && i <= j < |ts|
    ensures ts[j] <= ts[i]
    decreases j
  {
    if i < j { BackwardSorted(ts, start, i, j - 1); }
  }

  /** What the forward filter accepts: times that never decrease and, from two edges
      on, a last time not after the end. */
  lemma ForwardIff(ts: seq<int>, end: int)
    ensures Forward(ts, end)
       <==> && (forall i, j :: 0 <= i < j < |ts| ==> ts[i] <= ts[j])
            && (|ts| >= 2 ==> ts[|ts| - 1] <= end)
  {
    if Forward(ts, end) {
      forall i, j | 0 <= i < j < |ts| ensures ts[i] <= ts[j] { ForwardSorted(ts, end, i, j); }
    }
  }

  /** The mirror image. */
  lemma BackwardIff(ts: seq<int>, start: int)
    ensures Backward(ts, start)
       <==> && (forall i, j :: 0 <= i < j < |ts| ==> ts[j] <= ts[i])
            && (|ts| >= 2 ==> start <= ts[|ts| - 1])
  {
    if Backward(ts, start) {
      forall i, j | 0 <= i < j < |ts| ensures ts[j] <= ts[i] { BackwardSorted(ts, start, i, j); }
    }
  }

  /** The promise that no event after the end is involved holds for an accepted
      path exactly when it has at least two edges or its only edge is in time:
      the condition never looks at a single edge. */
  lemma ForwardEndIff(ts: seq<int>, end: int)
    requires ts != [] && Forward(ts, end)
    ensures (forall i :: 0 <= i < |ts| ==> ts[i] <= end) <==> |ts| >= 2 || ts[0] <= end
  {
    if |ts| >= 2 {
      assert ts[1] >= ts[0] && ts[1] <= end;
    }
  }

  lemma BackwardStartIff(ts: seq<int>, start: int)
    requires ts != [] && Backward(ts, start)
    ensures (forall i :: 0 <= i < |ts| ==> ts[i] >= start) <==> |ts| >= 2 || ts[0] >= start
  {
    if |ts| >= 2 {
      assert ts[1] <= ts[0] && ts[1] >= start;
    }
  }

  /** Both ends of the documented interval: what an accepted forward path must
      meet besides. The filter never looks at `start`. */
  lemma ForwardIntervalIff(ts: seq<int>, start: int, end: int)
    requires ts != [] && Forward(ts, end)
    ensures (forall i :: 0 <= i < |ts| ==> start <= ts[i] <= end)
       <==> start <= ts[0] && (|ts| >= 2 || ts[0] <= end)
  {
    ForwardEndIff(ts, end);
    forall i | 0 <= i < |ts| ensures ts[0] <= ts[i] { ForwardSorted(ts, end, 0, i); }
  }

  /** The mirror image: a backward filter never looks at `end`. */
  lemma BackwardIntervalIff(ts: seq<int>, start: int, end: int)
    requires ts != [] && Backward(ts, start)
    ensures (forall i :: 0 <= i < |ts| ==> start <= ts[i] <= end)
       <==> ts[0] <= end && (|ts| >= 2 || start <= ts[0])
  {
    BackwardStartIff(ts, start);
    forall i | 0 <= i < |ts| ensures ts[i] <= ts[0] { BackwardSorted(ts, start, 0, i); }
  }

  /** For every interval, accepted forward paths with an event before it and with
      an event after it, and the same backwards. */
  lemma OutsideAccepted(start: int, end: int)
    requires start <= end
    ensures Forward([start - 1, start], end) && Forward([end + 1], end)
    ensures Backward([end + 1, end], start) && Backward([start - 1], start)
  {
  }

  function Reverse(ts: seq<int>): (r: seq<int>)
    ensures |r| == |ts| && forall i :: 0 <= i < |ts| ==> r[i] == ts[|ts| - 1 - i]
  {
    seq(|ts|, i requires 0 <= i < |ts| => ts[|ts| - 1 - i])
  }

  /** A path accepted backwards within [start, end] is one accepted forwards when
      walked in the other direction, and conversely, for paths whose times all lie
      in the interval. */
  lemma BackwardIsForwardReversed(ts: seq<int>, start: int, end: int)
    requires forall i :: 0 <= i < |ts| ==> start <= ts[i] <= end
    ensures Backward(ts, start) <==> Forward(Reverse(ts), end)
  {
    var r := Reverse(ts);
    if Backward(ts, start) {
      forall i | 1 <= i <= |r| - 1 ensures r[i] >= r[i - 1] && r[i] <= end {
        var k := |ts| - i;
        assert ts[k] <= ts[k - 1];
      }
    }
    if Forward(r, end) {
      forall i | 1 <= i <= |ts| - 1 ensures ts[i] <= ts[i - 1] && ts[i] >= start {
        var k := |ts| - i;
        assert r[k] >= r[k - 1];
      }
    }
  }
}
