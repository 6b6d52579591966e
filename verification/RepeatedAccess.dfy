/** When the same access hits entirely the second time, for any number of ways. */
module RepeatedAccess {
  import opened Bits
  import opened Geometry
  import opened CacheSets
  import opened CacheModel
  import opened AccessLoop
  import opened FifoCache
  import opened FifoTheorems
  import opened CacheTheorems

  ghost function AsSet(v: seq<Address>): set<Address> { set t | t in v }

  // ----- At most n * ways consecutive lines fit -----

  ghost predicate Spread(v: seq<Address>, n: nat)
    requires n >= 1
  {
    forall a, b :: 0 <= a < b < |v| && b - a < n ==> v[a] % n != v[b] % n
  }

  lemma AtMostOne(v: seq<Address>, n: nat, i: nat)
    requires n >= 1 && Spread(v, n) && |v| <= n
    ensures |SeenIn(AsSet(v), i, n)| <= 1
  {
    var s := SeenIn(AsSet(v), i, n);
    if s != {} {
      var x :| x in s;
      forall y | y in s ensures y == x {
        var a :| 0 <= a < |v| && v[a] == x;
        var b :| 0 <= b < |v| && v[b] == y;
        assert v[a] % n == v[b] % n;
        assert !(a < b) && !(b < a);
      }
      assert s == {x};
    }
  }

  lemma UnionSize<T>(a: set<T>, b: set<T>)
    ensures |a + b| <= |a| + |b|
  {
    assert a + b == a + (b - a);
    assert |a + (b - a)| == |a| + |b - a|;
    SubsetSize(b - a, b);
  }

  lemma {:induction false} ClassSize(v: seq<Address>, n: nat, ways: nat, i: nat)
    requires n >= 1 && Spread(v, n) && |v| <= n * ways
    ensures |SeenIn(AsSet(v), i, n)| <= ways
    decreases ways
  {
    if ways == 0 {
      assert SeenIn(AsSet(v), i, n) == {};
    } else {
      var m := if |v| > n then |v| - n else 0;
      var head, tail := v[..m], v[m..];
      assert n * ways == n * (ways - 1) + n;
      assert m == 0 ==> m <= n * (ways - 1) by { MulNonNegative(n, ways - 1); }
      ClassSize(head, n, ways - 1, i);
      AtMostOne(tail, n, i);
      SeenInSplit(v, m, n, i);
      UnionSize(SeenIn(AsSet(head), i, n), SeenIn(AsSet(tail), i, n));
    }
  }

  lemma MulNonNegative(a: nat, b: nat)
    ensures 0 <= a * b
  {
  }

  lemma SeenInSplit(v: seq<Address>, m: nat, n: nat, i: nat)
    requires n >= 1 && m <= |v|
    ensures SeenIn(AsSet(v), i, n) == SeenIn(AsSet(v[..m]), i, n) + SeenIn(AsSet(v[m..]), i, n)
  {
    assert v == v[..m] + v[m..];
  }

  /** The lines of a range fit the ways if there are at most NumSets() * ways. */
  lemma VisitedFits(cfg: Config, addr: Address, high: Address, ways: nat)
    requires cfg.Valid() && IsPow2(cfg.numSets) && high <= WORD64 - cfg.LineSize()
    requires |Visited(cfg, addr, high)| <= cfg.numSets * ways
    ensures FitsWays(AsSet(Visited(cfg, addr, high)), cfg.numSets, ways)
  {
    var v, n := Visited(cfg, addr, high), cfg.numSets;
    VisitedAt(cfg, addr, high);
    LinesMultiple(cfg);
    forall a, b | 0 <= a < b < |v| && b - a < n ensures v[a] % n != v[b] % n {
      ResiduesApart(v, cfg.Lines(), n, a, b);
    }
    forall i | 0 <= i < n ensures |SeenIn(AsSet(v), i, n)| <= ways { ClassSize(v, n, ways, i); }
  }

  /** What fitted into an empty cache is all there afterwards: line 0, which is never
      entered, by the empty entry left for it. */
  lemma FittingResident(c: Queues, ways: nat, tags: seq<Address>)
    requires Filling(c, ways, AsSet(tags) - {0}) && FitsWays(AsSet(tags), |c|, ways)
    ensures Resident(c, tags)
  {
    forall a | 0 <= a < |tags| ensures tags[a] in c[tags[a] % |c|] {
      LineResident(c, ways, AsSet(tags), tags[a]);
    }
  }

  lemma LineResident(c: Queues, ways: nat, lines: set<Address>, t: Address)
    requires Filling(c, ways, lines - {0}) && FitsWays(lines, |c|, ways) && t in lines
    ensures t in c[t % |c|]
  {
    var n := |c|;
    var i := t % n;
    var mine := SeenIn(lines - {0}, i, n);
    assert FillingSet(c[i], ways, mine);
    if t == 0 {
      assert SeenIn(lines, i, n) == mine + {0};
      assert |mine| < ways && c[i][0] == 0;
    } else {
      assert t in mine;
    }
  }

  // ----- No more than n * ways lines are resident at once -----

  ghost function Stored(c: Queues, k: nat): set<Address>
    requires k <= |c|
  {
    if k == 0 then {} else Stored(c, k - 1) + AsSet(c[k - 1])
  }

  lemma {:induction false} SeqSize(v: seq<Address>)
    ensures |AsSet(v)| <= |v|
  {
    if v != [] {
      SeqSize(v[1..]);
      assert AsSet(v) == {v[0]} + AsSet(v[1..]) by { assert v == [v[0]] + v[1..]; }
      UnionSize({v[0]}, AsSet(v[1..]));
    }
  }

  lemma {:induction false} StoredSize(c: Queues, k: nat, ways: nat)
    requires k <= |c| && forall i :: 0 <= i < |c| ==> |c[i]| == ways
    ensures |Stored(c, k)| <= k * ways
  {
    if k > 0 {
      StoredSize(c, k - 1, ways);
      SeqSize(c[k - 1]);
      UnionSize(Stored(c, k - 1), AsSet(c[k - 1]));
      assert k * ways == (k - 1) * ways + ways;
    }
  }

  lemma {:induction false} InStored(c: Queues, k: nat, i: nat, t: Address)
    requires i < k <= |c| && t in c[i]
    ensures t in Stored(c, k)
  {
    if i < k - 1 { InStored(c, k - 1, i, t); }
  }

  lemma {:induction false} DistinctSize(v: seq<Address>)
    requires forall a, b :: 0 <= a < b < |v| ==> v[a] != v[b]
    ensures |AsSet(v)| == |v|
  {
    if v != [] {
      DistinctSize(v[1..]);
      assert v == [v[0]] + v[1..];
      assert v[0] !in v[1..];
      assert AsSet(v) == {v[0]} + AsSet(v[1..]);
    }
  }

  /** All resident at once means that there are slots for them all. */
  lemma ResidentBound(c: Queues, tags: seq<Address>, ways: nat)
    requires Ok(c) && Resident(c, tags) && forall i :: 0 <= i < |c| ==> |c[i]| == ways
    requires forall a, b :: 0 <= a < b < |tags| ==> tags[a] != tags[b]
    ensures |tags| <= |c| * ways
  {
    forall t | t in AsSet(tags) ensures t in Stored(c, |c|) {
      var a :| 0 <= a < |tags| && tags[a] == t;
      InStored(c, |c|, t % |c|, t);
    }
    DistinctSize(tags);
    SubsetSize(AsSet(tags), Stored(c, |c|));
    StoredSize(c, |c|, ways);
  }

  lemma {:induction false} HitsMeanResident(c: Queues, tags: seq<Address>, allocate: bool)
    requires Ok(c) && RunEvents(c, Visits(tags, allocate)).1
    ensures Resident(c, tags)
    decreases |tags|
  {
    if tags != [] {
      assert Visits(tags, allocate)[1..] == Visits(tags[1..], allocate);
      var i := tags[0] % |c|;
      assert StepEvent(c, Visit(tags[0], allocate)).1 && c[i := c[i]] == c;
      HitsMeanResident(c, tags[1..], allocate);
      forall a | 0 <= a < |tags| ensures tags[a] in c[tags[a] % |c|] {
        if a > 0 { assert tags[a] == tags[1..][a - 1]; }
      }
    }
  }

  /** From every state, an access that hits entirely visits no more lines than the
      cache has slots. */
  lemma HitsBound(cfg: Config, st: CacheState, addr: Address, size: Word32, kind: AccessType, ways: nat)
    requires cfg.Valid() && SetsOk(cfg, st.sets) && Halts(cfg, addr, size)
    requires forall i :: 0 <= i < cfg.numSets ==> st.sets[i].Ways() == ways
    requires Step(cfg, st, Access(addr, size, kind)).1
    ensures |Visited(cfg, addr, HighAddr(addr, size))| <= cfg.numSets * ways
  {
    var v, c := Visited(cfg, addr, HighAddr(addr, size)), QueuesOf(cfg, st.sets);
    StepRefines(cfg, st, Access(addr, size, kind));
    HitsMeanResident(c, v, cfg.Allocates(kind));
    VisitedAt(cfg, addr, HighAddr(addr, size));
    ResidentBound(c, v, ways);
  }

  /** From an empty cache with any number of ways, the same access hits entirely the
      second time if and only if it visits at most NumSets() * ways lines. */
  lemma RepeatIff(cfg: Config, st: CacheState, addr: Address, size: Word32, kind: AccessType, again: AccessType, ways: nat)
    requires cfg.Valid() && IsPow2(cfg.numSets) && SetsOk(cfg, st.sets) && Halts(cfg, addr, size)
    requires (kind == Load || cfg.allocateOnStore) && Empty(cfg, st.sets, ways)
    ensures var st1 := Step(cfg, st, Access(addr, size, kind)).0;
            (Step(cfg, st1, Access(addr, size, again)).1
             <==> |Visited(cfg, addr, HighAddr(addr, size))| <= cfg.numSets * ways)
  {
    var v := Visited(cfg, addr, HighAddr(addr, size));
    var st1 := Step(cfg, st, Access(addr, size, kind)).0;
    StepRefines(cfg, st, Access(addr, size, kind));
    var c1 := QueuesOf(cfg, st1.sets);
    if |v| <= cfg.numSets * ways {
      FilledByVisits(cfg, st.sets, ways, v, addr, HighAddr(addr, size));
      StepRefines(cfg, st1, Access(addr, size, again));
      ResidentVisitsHit(c1, v, cfg.Allocates(again));
    } else if Step(cfg, st1, Access(addr, size, again)).1 {
      forall i | 0 <= i < cfg.numSets ensures st1.sets[i].Ways() == ways {
        assert |c1[i]| == |QueuesOf(cfg, st.sets)[i]|;
      }
      HitsBound(cfg, st1, addr, size, again, ways);
    }
  }

  lemma FilledByVisits(cfg: Config, sets: seq<SetState>, ways: nat, v: seq<Address>, addr: Address, high: Address)
    requires cfg.Valid() && IsPow2(cfg.numSets) && SetsOk(cfg, sets) && Empty(cfg, sets, ways)
    requires high <= WORD64 - cfg.LineSize() && v == Visited(cfg, addr, high) && |v| <= cfg.numSets * ways
    ensures Resident(RunEvents(QueuesOf(cfg, sets), Visits(v, true)).0, v)
  {
    var c, es := QueuesOf(cfg, sets), Visits(v, true);
    VisitedFits(cfg, addr, high, ways);
    EmptyIsFilling(cfg, sets, ways);
    assert Tags(es) == AsSet(v) by { TagsOfVisits(v); }
    assert {} + Tags(es) == AsSet(v) && {} + Tags(es) - {0} == AsSet(v) - {0};
    FillingAfter(c, ways, {}, es);
    FittingResident(RunEvents(c, es).0, ways, v);
  }

  lemma TagsOfVisits(v: seq<Address>)
    ensures OnlyVisits(Visits(v, true)) && Tags(Visits(v, true)) == AsSet(v)
  {
    var es := Visits(v, true);
    forall t | t in AsSet(v) ensures t in Tags(es) {
      var k :| 0 <= k < |v| && v[k] == t;
      assert es[k].tag == t;
    }
  }
}
