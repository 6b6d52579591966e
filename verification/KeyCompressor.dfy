/** The key compressor of pin_profile.H: dense indices in first-seen order, with
    a vector of counters behind them whose capacity grows by doubling. */
module KeyCompressor {
  import opened Basics

  /** The distinct keys so far in the order of their first use, and the vector's
      length and capacity. */
  datatype Profile<K> = Profile(keys: seq<K>, size: nat, capacity: nat)

  /** `reserve(n)`: capacity grows to n, never shrinks; the length stays. */
  function Reserve(capacity: nat, n: nat): nat {
    if n > capacity then n else capacity
  }

  function IndexOf<K(==)>(keys: seq<K>, key: K): (i: nat)
    requires key in keys
    ensures i < |keys| && keys[i] == key && key !in keys[..i]
  {
    if keys[0] == key then 0 else 1 + IndexOf(keys[1..], key)
  }

  /** One call of Map: the new state and the index returned. */
  function StepMap<K(==)>(p: Profile<K>, key: K): (r: (Profile<K>, nat)) {
    var keys := if key in p.keys then p.keys else p.keys + [key];
    var index := if key in p.keys then IndexOf(p.keys, key) else |p.keys|;
    (Profile(keys, p.size, if index + 1 >= p.capacity then Reserve(p.capacity, 2 * p.capacity) else p.capacity), index)
  }

  function RunMap<K(==)>(p: Profile<K>, ks: seq<K>): (r: (Profile<K>, seq<nat>))
    ensures |r.1| == |ks|
    decreases |ks|
  {
    if ks == [] then (p, [])
    else
      var (p1, i) := StepMap(p, ks[0]);
      var (p2, ids) := RunMap(p1, ks[1..]);
      (p2, [i] + ids)
  }

  /** The vector as constructed: `size` counters, capacity equal to size. */
  function NewProfile<K>(size: nat): Profile<K> {
    Profile([], size, size)
  }

  ghost predicate Distinct<K>(keys: seq<K>) {
    forall a, b :: 0 <= a < b < |keys| ==> keys[a] != keys[b]
  }

  /** The keys of ks that are not in `seen`, each once, in order of appearance. */
  ghost function FirstSeen<K>(seen: seq<K>, ks: seq<K>): seq<K>
    decreases |ks|
  {
    if ks == [] then []
    else if ks[0] in seen then FirstSeen(seen, ks[1..])
    else [ks[0]] + FirstSeen(seen + [ks[0]], ks[1..])
  }

  /** After any calls the keys are those used, in first-seen order, all distinct. */
  lemma {:induction false} KeysAreFirstSeen<K>(p: Profile<K>, ks: seq<K>)
    requires Distinct(p.keys)
    ensures RunMap(p, ks).0.keys == p.keys + FirstSeen(p.keys, ks)
    ensures Distinct(RunMap(p, ks).0.keys)
    decreases |ks|
  {
    if ks == [] {
      assert p.keys + [] == p.keys;
    } else {
      StepKeys(p, ks[0]);
      var p1 := StepMap(p, ks[0]).0;
      KeysAreFirstSeen(p1, ks[1..]);
      ConcatAssociates(p.keys, [ks[0]], FirstSeen(p1.keys, ks[1..]));
    }
  }

  /** Every call returned the place of its key in that order, then and for good. */
  lemma {:induction false} IndicesAreFirstSeenOrder<K>(p: Profile<K>, ks: seq<K>)
    requires Distinct(p.keys)
    ensures var (q, ids) := RunMap(p, ks);
            forall j :: 0 <= j < |ks| ==> ids[j] < |q.keys| && q.keys[ids[j]] == ks[j]
    decreases |ks|
  {
    if ks != [] {
      var (p1, i) := StepMap(p, ks[0]);
      StepKeys(p, ks[0]);
      KeysAreFirstSeen(p1, ks[1..]);
      IndicesAreFirstSeenOrder(p1, ks[1..]);
      var (q, ids) := RunMap(p1, ks[1..]);
      assert q.keys[i] == p1.keys[i];
      var all := [i] + ids;
      forall j | 0 <= j < |ks| ensures all[j] < |q.keys| && q.keys[all[j]] == ks[j] {
        if j > 0 { assert ks[j] == ks[1..][j - 1] && all[j] == ids[j - 1]; }
      }
    }
  }

  lemma StepKeys<K>(p: Profile<K>, key: K)
    requires Distinct(p.keys)
    ensures var (p1, i) := StepMap(p, key);
            && Distinct(p1.keys) && i < |p1.keys| && p1.keys[i] == key
            && p1.keys == p.keys + (if key in p.keys then [] else [key])
  {
  }

  /** So two calls return the same index exactly when their keys are the same,
      and every index below the number of keys is returned. */
  lemma StableBijection<K>(size: nat, ks: seq<K>)
    ensures var (q, ids) := RunMap(NewProfile<K>(size), ks);
            && (forall a, b :: 0 <= a < |ks| && 0 <= b < |ks| ==> (ids[a] == ids[b] <==> ks[a] == ks[b]))
            && (forall i :: 0 <= i < |q.keys| ==> i in ids)
  {
    var (q, ids) := RunMap(NewProfile<K>(size), ks);
    KeysAreFirstSeen(NewProfile<K>(size), ks);
    IndicesAreFirstSeenOrder(NewProfile<K>(size), ks);
    forall a, b | 0 <= a < |ks| && 0 <= b < |ks| ensures ids[a] == ids[b] <==> ks[a] == ks[b] {
      assert q.keys[ids[a]] == ks[a] && q.keys[ids[b]] == ks[b];
    }
    forall i | 0 <= i < |q.keys| ensures i in ids {
      EveryIndexUsed(q.keys, ids, ks, i);
    }
  }

  lemma EveryIndexUsed<K>(keys: seq<K>, ids: seq<nat>, ks: seq<K>, i: nat)
    requires Distinct(keys) && keys == FirstSeen([], ks) && |ids| == |ks| && i < |keys|
    requires forall j :: 0 <= j < |ks| ==> ids[j] < |keys| && keys[ids[j]] == ks[j]
    ensures i in ids
  {
    FirstSeenOccurs([], ks, keys[i]);
    var j :| 0 <= j < |ks| && ks[j] == keys[i];
    assert ids[j] == i;
  }

  lemma {:induction false} FirstSeenOccurs<K>(seen: seq<K>, ks: seq<K>, key: K)
    requires key in FirstSeen(seen, ks)
    ensures key in ks
    decreases |ks|
  {
    if ks[0] in seen {
      FirstSeenOccurs(seen, ks[1..], key);
    } else if key != ks[0] {
      assert key in FirstSeen(seen + [ks[0]], ks[1..]);
      FirstSeenOccurs(seen + [ks[0]], ks[1..], key);
    }
  }

  /** From an initial capacity of at least one, capacity stays above the number
      of keys and within twice that number; from zero it stays zero. The length
      never changes. */
  lemma {:induction false} CapacityBounds<K>(init: nat, p: Profile<K>, ks: seq<K>)
    requires p.size == init && Distinct(p.keys)
    requires if init == 0 then p.capacity == 0 else |p.keys| < p.capacity <= Max(init, 2 * |p.keys|)
    ensures var q := RunMap(p, ks).0;
            && q.size == init
            && if init == 0 then q.capacity == 0 else |q.keys| < q.capacity <= Max(init, 2 * |q.keys|)
    decreases |ks|
  {
    if ks != [] { CapacityBounds(init, StepMap(p, ks[0]).0, ks[1..]); }
  }

  function Max(a: nat, b: nat): nat { if a >= b then a else b }

  /** The vector holds a counter for every mapped key exactly as long as the keys
      fit in its initial length: reserving room adds no counters. */
  lemma CountersForAllKeysIff<K>(init: nat, ks: seq<K>)
    ensures var (q, ids) := RunMap(NewProfile<K>(init), ks);
            (forall j :: 0 <= j < |ks| ==> ids[j] < q.size) <==> |FirstSeen([], ks)| <= init
  {
    var (q, ids) := RunMap(NewProfile<K>(init), ks);
    KeysAreFirstSeen(NewProfile<K>(init), ks);
    IndicesAreFirstSeenOrder(NewProfile<K>(init), ks);
    assert [] + FirstSeen([], ks) == FirstSeen([], ks);
    CapacityBounds(init, NewProfile<K>(init), ks);
    if |q.keys| > init {
      StableBijection(init, ks);
      assert init in ids;
    }
  }

  lemma {:induction false} FirstSeenAll<K>(seen: seq<K>, ks: seq<K>)
    requires Distinct(ks) && forall j :: 0 <= j < |ks| ==> ks[j] !in seen
    ensures FirstSeen(seen, ks) == ks
    decreases |ks|
  {
    if ks != [] {
      FirstSeenAll(seen + [ks[0]], ks[1..]);
      assert [ks[0]] + ks[1..] == ks;
    }
  }

  /** Whatever the initial length, one key more than that and some key has no
      counter, although the class comment guarantees one for each. */
  lemma KeyWithoutCounter(init: nat, ks: seq<nat>)
    requires |ks| == init + 1 && forall j :: 0 <= j < |ks| ==> ks[j] == j
    ensures var (q, ids) := RunMap(NewProfile<nat>(init), ks); exists j :: 0 <= j < |ks| && ids[j] >= q.size
  {
    FirstSeenAll([], ks);
    CountersForAllKeysIff(init, ks);
  }

  // ----- The report -----

  /** Every key has an index and a counter under it. */
  ghost predicate AllCounted<K>(order: seq<K>, indices: map<K, nat>, counters: seq<nat>) {
    forall i :: 0 <= i < |order| ==> order[i] in indices && indices[order[i]] < |counters|
  }

  /** The keys with their counters, in the given order. */
  ghost function Entries<K>(order: seq<K>, indices: map<K, nat>, counters: seq<nat>): (es: seq<(K, nat)>)
    requires AllCounted(order, indices, counters)
    ensures |es| == |order| && forall i :: 0 <= i < |es| ==> es[i] == (order[i], counters[indices[order[i]]])
  {
    seq(|order|, i requires 0 <= i < |order| => (order[i], counters[indices[order[i]]]))
  }

  /** The item, if its counter reaches the threshold. */
  function IfReached<K>(threshold: nat): ((K, nat)) -> Option<(K, nat)> {
    (e: (K, nat)) => if threshold <= e.1 then Some(e) else None
  }

  /** The items whose counter reaches the threshold, in order. */
  function Selected<K>(entries: seq<(K, nat)>, threshold: nat): seq<(K, nat)> {
    Gathered(IfReached(threshold), entries)
  }

  lemma SelectedExact<K>(entries: seq<(K, nat)>, threshold: nat, e: (K, nat))
    ensures e in Selected(entries, threshold) <==> e in entries && threshold <= e.1
  {
    GatheredExact(IfReached(threshold), entries, e);
  }

  /** The report is in order, and an item is in it once if its counter reaches the
      threshold, and not otherwise. */
  lemma SelectedInOrder<K>(before: seq<(K, nat)>, e: (K, nat), after: seq<(K, nat)>, threshold: nat)
    ensures Selected(before + [e] + after, threshold)
         == Selected(before, threshold) + (if threshold <= e.1 then [e] else []) + Selected(after, threshold)
  {
    GatheredAt(IfReached(threshold), before, e, after);
  }

  class CompressorCounter<K(==)> {
    var indices: map<K, nat>
    var nextIndex: nat
    var counters: seq<nat>
    var capacity: nat
    ghost var keys: seq<K>

    ghost predicate Valid()
      reads this
    {
      && Distinct(keys) && nextIndex == |keys|
      && (forall k :: k in indices ==> k in keys)
      && (forall i :: 0 <= i < |keys| ==> keys[i] in indices && indices[keys[i]] == i)
    }

    ghost function State(): Profile<K>
      reads this
    {
      Profile(keys, |counters|, capacity)
    }

    constructor (initCounterSize: nat)
      ensures Valid() && State() == NewProfile(initCounterSize)
    {
      indices, nextIndex, keys := map[], 0, [];
      counters := seq(initCounterSize, _ => 0);
      capacity := initCounterSize;
    }

    /** `COMPRESSOR::Map`. */
    method MapKey(key: K) returns (index: nat)
      requires Valid()
      modifies `indices, `nextIndex, `keys
      ensures Valid() && keys == (if key in old(keys) then old(keys) else old(keys) + [key])
      ensures index < |keys| && keys[index] == key
    {
      if key in indices {
        index := indices[key];
        assert key in keys;
      } else {
        indices := indices[key := nextIndex];
        index := nextIndex;
        nextIndex := nextIndex + 1;
        keys := keys + [key];
      }
    }

    /** `COMPRESSOR_COUNTER::Map`: map, then reserve when the index reaches the
        capacity. */
    method Map(key: K) returns (index: nat)
      requires Valid()
      modifies this
      ensures Valid() && (State(), index) == StepMap(old(State()), key) && counters == old(counters)
    {
      index := MapKey(key);
      if key in old(keys) {
        assert keys[IndexOf(keys, key)] == key;
      }
      if index + 1 >= capacity {
        capacity := Reserve(capacity, 2 * capacity);
      }
    }

    /** `StringLong`: two passes over the map, in its key order. The first counts the
        items that the second prints. */
    method StringLong(order: seq<K>, threshold: nat) returns (numItems: nat, items: seq<(K, nat)>)
      requires Valid() && nextIndex <= |counters|
      requires Distinct(order) && (forall i :: 0 <= i < |order| ==> order[i] in indices) && |order| == |indices|
      ensures AllCounted(order, indices, counters)
      ensures numItems == |items| && items == Selected(Entries(order, indices, counters), threshold)
    {
      assert AllCounted(order, indices, counters) by {
        forall i | 0 <= i < |order| ensures order[i] in indices && indices[order[i]] < |counters| {
          assert order[i] in keys;
        }
      }
      ghost var all := Entries(order, indices, counters);
      numItems, items := 0, [];
      for i := 0 to |order|
        invariant numItems == |Selected(all[..i], threshold)|
      {
        assert all[i].0 == order[i] && all[..i] + [all[i]] == all[..i + 1];
        GatheredNext(IfReached(threshold), all[..i], all[i]);
        if threshold <= counters[indices[order[i]]] { numItems := numItems + 1; }
      }
      for i := 0 to |order|
        invariant items == Selected(all[..i], threshold)
      {
        assert all[i].0 == order[i] && all[..i] + [all[i]] == all[..i + 1];
        GatheredNext(IfReached(threshold), all[..i], all[i]);
        var counter := counters[indices[order[i]]];
        if threshold <= counter { items := items + [(order[i], counter)]; }
      }
      assert all[..|order|] == all;
    }
  }
}
