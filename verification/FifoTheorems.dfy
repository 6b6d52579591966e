/** What every run of the FIFO cache keeps: sets do not interfere, a line has one
    place, how long a line stays, and when a repeated or a first visit hits. */
module FifoTheorems {
  import opened Bits
  import opened Geometry
  import opened CacheSets
  import opened FifoCache

  // ----- Sets do not interfere -----

  /** The events that concern set i of n: visits of its lines, and every clear. */
  ghost function Project(es: seq<Event>, i: nat, n: nat): (r: seq<Event>)
    requires n >= 1
    decreases |es|
  {
    if es == [] then []
    else if es[0].Clear? || es[0].tag % n == i then [es[0]] + Project(es[1..], i, n)
    else Project(es[1..], i, n)
  }

  /** After any run, set i holds what one set alone, run on its own events, holds. */
  lemma {:induction false} TraceDecomposition(c: Queues, es: seq<Event>, i: nat)
    requires Ok(c) && i < |c|
    ensures RunEvents(c, es).0[i] == RunQueue(c[i], Project(es, i, |c|))
    decreases |es|
  {
    if es != [] {
      TraceDecomposition(StepEvent(c, es[0]).0, es[1..], i);
      var rest := Project(es[1..], i, |c|);
      assert ([es[0]] + rest)[1..] == rest;
    }
  }

  // ----- A line has one place -----

  /** Every stored line is in the set its number selects, and nowhere twice. */
  ghost predicate Placed(c: Queues) {
    && (forall i, p :: 0 <= i < |c| && 0 <= p < |c[i]| && c[i][p] != 0 ==> c[i][p] % |c| == i)
    && (forall i, p, q :: 0 <= i < |c| && 0 <= p < q < |c[i]| && c[i][p] != 0 ==> c[i][p] != c[i][q])
  }

  lemma PlacedStep(c: Queues, e: Event)
    requires Ok(c) && Placed(c)
    ensures Placed(StepEvent(c, e).0)
  {
  }

  lemma {:induction false} PlacedAlways(c: Queues, es: seq<Event>)
    requires Ok(c) && Placed(c)
    ensures Placed(RunEvents(c, es).0)
    decreases |es|
  {
    if es != [] {
      PlacedStep(c, es[0]);
      PlacedAlways(StepEvent(c, es[0]).0, es[1..]);
    }
  }

  /** After any run from a placed state a line occupies at most one slot of the
      whole cache. */
  lemma OneSlotPerLine(c: Queues, es: seq<Event>)
    requires Ok(c) && Placed(c)
    ensures var d := RunEvents(c, es).0;
            forall i, p, j, q ::
              0 <= i < |d| && 0 <= p < |d[i]| && 0 <= j < |d| && 0 <= q < |d[j]| && d[i][p] == d[j][q] != 0 ==>
                i == j && p == q
  {
    PlacedAlways(c, es);
    var d := RunEvents(c, es).0;
    forall i, p, j, q | 0 <= i < |d| && 0 <= p < |d[i]| && 0 <= j < |d| && 0 <= q < |d[j]| && d[i][p] == d[j][q] != 0
      ensures i == j && p == q
    {
      assert d[i][p] % |d| == i && d[j][q] % |d| == j;
    }
  }

  // ----- How long a line stays -----

  /** How many of the events insert a line into the queue. */
  ghost function Insertions(q: seq<Address>, es: seq<Event>): nat
    requires |q| >= 1
    decreases |es|
  {
    if es == [] then 0
    else (if es[0].Visit? && es[0].allocate && es[0].tag !in q then 1 else 0)
         + Insertions(StepQueue(q, es[0]).0, es[1..])
  }

  ghost predicate OnlyVisits(es: seq<Event>) {
    forall i :: 0 <= i < |es| ==> es[i].Visit?
  }

  /** t stands at position p of q and nowhere else. */
  ghost predicate OnlyAt(q: seq<Address>, t: Address, p: nat) {
    p < |q| && forall k :: 0 <= k < |q| ==> (q[k] == t <==> k == p)
  }

  /** Whatever hits intervene, an entry moves one place per insertion, until the
      insertion that finds it in front removes it. */
  lemma {:induction false} EntryAges(q: seq<Address>, t: Address, p: nat, es: seq<Event>)
    requires OnlyAt(q, t, p) && OnlyVisits(es) && Insertions(q, es) <= p
    ensures OnlyAt(RunQueue(q, es), t, p - Insertions(q, es))
    decreases |es|
  {
    if es != [] {
      var q1 := StepQueue(q, es[0]).0;
      if es[0].allocate && es[0].tag !in q {
        assert q[p] == t && es[0].tag != t;
        assert OnlyAt(q1, t, p - 1) by {
          forall k | 0 <= k < |q1| ensures q1[k] == t <==> k == p - 1 {
            if k < |q| - 1 { assert q1[k] == q[k + 1]; }
          }
        }
        EntryAges(q1, t, p - 1, es[1..]);
      } else {
        EntryAges(q1, t, p, es[1..]);
      }
    }
  }

  /** A line inserted by a miss stays through the next ways-1 insertions into its
      set and is gone right after the next one, whatever else happens. */
  lemma ExactLifetime(c: Queues, t: Address, es: seq<Event>, last: Address)
    requires Ok(c) && OnlyVisits(es)
    requires t !in c[t % |c|] && last % |c| == t % |c|
    ensures var i, born := t % |c|, StepEvent(c, Visit(t, true)).0;
            var others := Insertions(born[i], Project(es, i, |c|));
            && (others < |c[i]| ==> t in RunEvents(born, es).0[i])
            && (others == |c[i]| - 1 && last !in RunEvents(born, es).0[i] ==>
                t !in RunEvents(born, es + [Visit(last, true)]).0[i])
  {
    var i, born := t % |c|, StepEvent(c, Visit(t, true)).0;
    var mine := Project(es, i, |c|);
    var others := Insertions(born[i], mine);
    TraceDecomposition(born, es, i);
    ProjectOnlyVisits(es, i, |c|);
    assert OnlyAt(born[i], t, |c[i]| - 1);
    if others < |c[i]| {
      EntryAges(born[i], t, |c[i]| - 1, mine);
      var end := RunEvents(born, es).0;
      assert end[i][|c[i]| - 1 - others] == t;
      if others == |c[i]| - 1 && last !in end[i] {
        RunEventsConcat(born, es, [Visit(last, true)]);
        RunOne(end, Visit(last, true));
        assert forall k :: 0 < k < |end[i]| ==> end[i][k] != t;
        assert last != t;
      }
    }
  }

  lemma {:induction false} ProjectOnlyVisits(es: seq<Event>, i: nat, n: nat)
    requires n >= 1 && OnlyVisits(es)
    ensures OnlyVisits(Project(es, i, n))
    decreases |es|
  {
    if es != [] { ProjectOnlyVisits(es[1..], i, n); }
  }

  // ----- A repeated visit hits -----

  /** The lines fall into pairwise different sets. */
  ghost predicate DistinctSets(tags: seq<Address>, n: nat)
    requires n >= 1
  {
    forall a, b :: 0 <= a < b < |tags| ==> tags[a] % n != tags[b] % n
  }

  /** All the lines are in their sets. */
  ghost predicate Resident(c: Queues, tags: seq<Address>)
    requires |c| >= 1
  {
    forall a :: 0 <= a < |tags| ==> tags[a] in c[tags[a] % |c|]
  }

  /** Visits leave the sets of other lines alone. */
  lemma {:induction false} OtherSetsKept(c: Queues, tags: seq<Address>, allocate: bool, i: nat)
    requires Ok(c) && i < |c| && forall a :: 0 <= a < |tags| ==> tags[a] % |c| != i
    ensures RunEvents(c, Visits(tags, allocate)).0[i] == c[i]
    decreases |tags|
  {
    if tags != [] {
      assert Visits(tags, allocate)[1..] == Visits(tags[1..], allocate);
      OtherSetsKept(StepEvent(c, Visit(tags[0], allocate)).0, tags[1..], allocate, i);
    }
  }

  lemma {:induction false} VisitsMakeResident(c: Queues, tags: seq<Address>)
    requires Ok(c) && DistinctSets(tags, |c|)
    ensures Resident(RunEvents(c, Visits(tags, true)).0, tags)
    decreases |tags|
  {
    if tags != [] {
      var e := Visit(tags[0], true);
      var c1 := StepEvent(c, e).0;
      assert Visits(tags, true)[1..] == Visits(tags[1..], true);
      VisitsMakeResident(c1, tags[1..]);
      var i := tags[0] % |c|;
      OtherSetsKept(c1, tags[1..], true, i);
      assert tags[0] in c1[i];
      var d := RunEvents(c, Visits(tags, true)).0;
      forall a | 0 <= a < |tags| ensures tags[a] in d[tags[a] % |d|] {
        if a > 0 { assert tags[a] == tags[1..][a - 1]; }
      }
    }
  }

  lemma {:induction false} ResidentVisitsHit(c: Queues, tags: seq<Address>, allocate: bool)
    requires Ok(c) && Resident(c, tags)
    ensures RunEvents(c, Visits(tags, allocate)) == (c, true)
    decreases |tags|
  {
    if tags != [] {
      assert Visits(tags, allocate)[1..] == Visits(tags[1..], allocate);
      var i := tags[0] % |c|;
      assert c[i := c[i]] == c;
      assert StepEvent(c, Visit(tags[0], allocate)) == (c, true);
      ResidentVisitsHit(c, tags[1..], allocate);
    }
  }

  /** In a one-way set, a line of [lo, hi) can only be replaced by another one
      while only such lines are visited. */
  lemma {:induction false} OneWayStaysInRange(c: Queues, tags: seq<Address>, i: nat, lo: nat, hi: nat)
    requires Ok(c) && i < |c| && |c[i]| == 1 && lo <= c[i][0] < hi
    requires forall a :: 0 <= a < |tags| ==> lo <= tags[a] < hi
    ensures lo <= RunEvents(c, Visits(tags, true)).0[i][0] < hi
    decreases |tags|
  {
    if tags != [] {
      assert Visits(tags, true)[1..] == Visits(tags[1..], true);
      OneWayStaysInRange(StepEvent(c, Visit(tags[0], true)).0, tags[1..], i, lo, hi);
    }
  }

  /** Visiting x and other lines of [lo, hi) leaves one of them in x's one-way set. */
  lemma OneWayTakenOver(c: Queues, tags: seq<Address>, k: nat, lo: nat, hi: nat)
    requires Ok(c) && k < |tags| && |c[tags[k] % |c|]| == 1
    requires forall a :: k <= a < |tags| ==> lo <= tags[a] < hi
    ensures lo <= RunEvents(c, Visits(tags, true)).0[tags[k] % |c|][0] < hi
  {
    var before, after := Visits(tags[..k], true), Visits(tags[k + 1..], true);
    var e := Visit(tags[k], true);
    assert Visits(tags, true) == (before + [e]) + after;
    RunEventsConcat(c, before + [e], after);
    RunEventsConcat(c, before, [e]);
    RunOne(RunEvents(c, before).0, e);
    OneWayStaysInRange(RunEvents(c, before + [e]).0, tags[k + 1..], tags[k] % |c|, lo, hi);
  }

  // ----- First visits miss, and nothing else does -----

  ghost function SeenIn(seen: set<Address>, i: nat, n: nat): set<Address>
    requires n >= 1
  {
    set t | t in seen && t % n == i
  }

  /** A queue that holds exactly the lines of `mine`, behind its empty entries. */
  ghost predicate FillingSet(q: seq<Address>, ways: nat, mine: set<Address>) {
    && |q| == ways
    && (forall k :: 0 <= k < ways - |mine| ==> q[k] == 0)
    && (forall t: Address :: t != 0 ==> (t in mine <==> t in q))
  }

  ghost predicate Filling(c: Queues, ways: nat, seen: set<Address>) {
    Ok(c) && 0 !in seen && forall i :: 0 <= i < |c| ==> FillingSet(c[i], ways, SeenIn(seen, i, |c|))
  }

  ghost predicate FitsWays(tags: set<Address>, n: nat, ways: nat)
    requires n >= 1
  {
    forall i :: 0 <= i < n ==> |SeenIn(tags, i, n)| <= ways
  }

  lemma SubsetSize<T>(a: set<T>, b: set<T>)
    requires a <= b
    ensures |a| <= |b|
  {
    assert b == a + (b - a);
    assert |b| == |a| + |b - a|;
  }

  /** A line not seen before takes an empty entry of its set. */
  lemma FillingSetStep(q: seq<Address>, ways: nat, mine: set<Address>, t: Address)
    requires FillingSet(q, ways, mine) && t != 0 && t !in mine && |mine| < ways
    ensures FillingSet(q[1..] + [t], ways, mine + {t})
  {
  }

  lemma FillingStep(c: Queues, ways: nat, seen: set<Address>, t: Address)
    requires Filling(c, ways, seen) && t != 0
    requires t !in seen ==> |SeenIn(seen + {t}, t % |c|, |c|)| <= ways
    ensures var (d, hit) := StepEvent(c, Visit(t, true));
            Filling(d, ways, seen + {t}) && (hit <==> t in seen)
  {
    var i, n := t % |c|, |c|;
    var d := StepEvent(c, Visit(t, true)).0;
    assert t in seen <==> t in SeenIn(seen, i, n);
    if t in seen {
      assert c[i := c[i]] == c;
      assert seen + {t} == seen;
    } else {
      var mine := SeenIn(seen, i, n);
      assert SeenIn(seen + {t}, i, n) == mine + {t};
      FillingSetStep(c[i], ways, mine, t);
      forall j | 0 <= j < n ensures FillingSet(d[j], ways, SeenIn(seen + {t}, j, n)) {
        if j != i { assert SeenIn(seen + {t}, j, n) == SeenIn(seen, j, n); }
      }
    }
  }

  ghost function Tags(es: seq<Event>): set<Address>
    requires OnlyVisits(es)
  {
    set k | 0 <= k < |es| :: es[k].tag
  }

  lemma TagsSplit(es: seq<Event>)
    requires es != [] && OnlyVisits(es)
    ensures Tags(es) == {es[0].tag} + Tags(es[1..])
  {
  }

  /** How many of the visits miss. */
  ghost function Misses(c: Queues, es: seq<Event>): nat
    requires Ok(c)
    decreases |es|
  {
    if es == [] then 0
    else (if StepEvent(c, es[0]).1 then 0 else 1) + Misses(StepEvent(c, es[0]).0, es[1..])
  }

  /** While the lines fit, exactly the first visits miss; only line 0 never does,
      because its set keeps an empty entry, which looks like line 0. */
  lemma {:induction false} OnlyFirstVisitsMiss(c: Queues, ways: nat, seen: set<Address>, es: seq<Event>)
    requires Filling(c, ways, seen) && OnlyVisits(es)
    requires forall k :: 0 <= k < |es| ==> es[k].allocate
    requires FitsWays(seen + Tags(es), |c|, ways)
    ensures Misses(c, es) == |Tags(es) - seen - {0}|
    decreases |es|
  {
    if es == [] {
      assert Tags(es) - seen - {0} == {};
    } else {
      var t, rest := es[0].tag, es[1..];
      TagsSplit(es);
      assert es[0] == Visit(t, true);
      RoomFor(|c|, ways, seen, Tags(rest), t);
      var seen' := if t == 0 then seen else seen + {t};
      FirstVisitStep(c, ways, seen, t);
      OnlyFirstVisitsMiss(StepEvent(c, es[0]).0, ways, seen', rest);
      NewTags(Tags(rest), seen, t);
    }
  }

  /** Afterwards the lines visited are among those the queues hold. */
  lemma {:induction false} FillingAfter(c: Queues, ways: nat, seen: set<Address>, es: seq<Event>)
    requires Filling(c, ways, seen) && OnlyVisits(es)
    requires forall k :: 0 <= k < |es| ==> es[k].allocate
    requires FitsWays(seen + Tags(es), |c|, ways)
    ensures Filling(RunEvents(c, es).0, ways, seen + Tags(es) - {0})
    decreases |es|
  {
    if es == [] {
      assert seen + Tags(es) - {0} == seen;
    } else {
      var t, rest := es[0].tag, es[1..];
      TagsSplit(es);
      assert es[0] == Visit(t, true);
      RoomFor(|c|, ways, seen, Tags(rest), t);
      var seen' := if t == 0 then seen else seen + {t};
      FirstVisitStep(c, ways, seen, t);
      FillingAfter(StepEvent(c, es[0]).0, ways, seen', rest);
      SameSeen(seen, Tags(rest), t);
    }
  }

  lemma SameSeen(seen: set<Address>, rest: set<Address>, t: Address)
    ensures (if t == 0 then seen else seen + {t}) + rest - {0} == seen + ({t} + rest) - {0}
  {
  }

  /** What fits with t fits without it, and t's own set has room for it. */
  lemma RoomFor(n: nat, ways: nat, seen: set<Address>, rest: set<Address>, t: Address)
    requires n >= 1 && FitsWays(seen + ({t} + rest), n, ways)
    ensures |SeenIn(seen + {t}, t % n, n)| <= ways
    ensures FitsWays((if t == 0 then seen else seen + {t}) + rest, n, ways)
  {
    var all := seen + ({t} + rest);
    SubsetSize(SeenIn(seen + {t}, t % n, n), SeenIn(all, t % n, n));
    FitsPart((if t == 0 then seen else seen + {t}) + rest, all, n, ways);
  }

  lemma FirstVisitStep(c: Queues, ways: nat, seen: set<Address>, t: Address)
    requires Filling(c, ways, seen) && |SeenIn(seen + {t}, t % |c|, |c|)| <= ways
    ensures var (d, hit) := StepEvent(c, Visit(t, true));
            && Filling(d, ways, if t == 0 then seen else seen + {t})
            && (hit <==> t in seen || t == 0)
  {
    if t == 0 { ZeroHits(c, ways, seen); } else { FillingStep(c, ways, seen, t); }
  }

  lemma FitsPart(part: set<Address>, all: set<Address>, n: nat, ways: nat)
    requires n >= 1 && part <= all && FitsWays(all, n, ways)
    ensures FitsWays(part, n, ways)
  {
    forall i | 0 <= i < n ensures |SeenIn(part, i, n)| <= ways {
      SubsetSize(SeenIn(part, i, n), SeenIn(all, i, n));
    }
  }

  /** A visit to line 0 hits while its set has an empty entry, and changes nothing. */
  lemma ZeroHits(c: Queues, ways: nat, seen: set<Address>)
    requires Filling(c, ways, seen) && |SeenIn(seen + {0}, 0, |c|)| <= ways
    ensures StepEvent(c, Visit(0, true)) == (c, true)
  {
    var mine := SeenIn(seen, 0, |c|);
    assert SeenIn(seen + {0}, 0, |c|) == mine + {0};
    assert FillingSet(c[0], ways, mine);
    assert c[0][0] == 0;
    assert c[0 := c[0]] == c;
  }

  lemma NewTags(rest: set<Address>, seen: set<Address>, t: Address)
    ensures |({t} + rest) - seen - {0}|
         == |rest - (if t == 0 then seen else seen + {t}) - {0}| + (if t in seen || t == 0 then 0 else 1)
  {
    if t in seen || t == 0 {
      assert ({t} + rest) - seen - {0} == rest - (if t == 0 then seen else seen + {t}) - {0};
    } else {
      assert ({t} + rest) - seen - {0} == (rest - (seen + {t}) - {0}) + {t};
    }
  }
}
