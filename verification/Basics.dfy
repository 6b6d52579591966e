/** A value that may be missing, laws of concatenation, and gathering the results
    of a partial function. */
module Basics {

  datatype Option<+T> = None | Some(value: T)

  lemma ConcatAssociates<T>(a: seq<T>, b: seq<T>, c: seq<T>)
    ensures (a + b) + c == a + (b + c)
  {
  }

  lemma ExistsConcat<T>(ok: T -> bool, a: seq<T>, b: seq<T>)
    ensures (exists k :: 0 <= k < |a + b| && ok((a + b)[k]))
       <==> (exists k :: 0 <= k < |a| && ok(a[k])) || (exists k :: 0 <= k < |b| && ok(b[k]))
  {
    var c := a + b;
    if k :| 0 <= k < |a| && ok(a[k]) { assert ok(c[k]); }
    if k :| 0 <= k < |b| && ok(b[k]) { assert ok(c[|a| + k]); }
    if k :| 0 <= k < |c| && ok(c[k]) && k >= |a| { assert ok(b[k - |a|]); }
  }

  /** The results of f on the elements, one behind the other. */
  function Flattened<A, B>(f: A -> seq<B>, xs: seq<A>): seq<B> {
    if xs == [] then []
    else
      var n := |xs| - 1;
      Flattened(f, xs[..n]) + f(xs[n])
  }

  lemma FlattenedNext<A, B>(f: A -> seq<B>, xs: seq<A>, x: A)
    ensures Flattened(f, xs + [x]) == Flattened(f, xs) + f(x)
  {
    assert (xs + [x])[..|xs|] == xs;
  }

  lemma {:induction false} FlattenedConcat<A, B>(f: A -> seq<B>, a: seq<A>, b: seq<A>)
    ensures Flattened(f, a + b) == Flattened(f, a) + Flattened(f, b)
    decreases |b|
  {
    if b == [] {
      assert a + b == a;
    } else {
      var n := |b| - 1;
      FlattenedConcat(f, a, b[..n]);
      FlattenedNext(f, a + b[..n], b[n]);
      assert (a + b[..n]) + [b[n]] == a + b;
      ConcatAssociates(Flattened(f, a), Flattened(f, b[..n]), f(b[n]));
    }
  }

  function AsSeq<T>(x: Option<T>): seq<T> {
    match x
    case Some(v) => [v]
    case None => []
  }

  /** The results of f on the elements that it has one for, in order. */
  function Gathered<A, B>(f: A -> Option<B>, xs: seq<A>): seq<B> {
    Flattened(x => AsSeq(f(x)), xs)
  }

  lemma GatheredNext<A, B>(f: A -> Option<B>, xs: seq<A>, x: A)
    ensures Gathered(f, xs + [x]) == Gathered(f, xs) + AsSeq(f(x))
  {
    FlattenedNext(x => AsSeq(f(x)), xs, x);
  }

  lemma GatheredConcat<A, B>(f: A -> Option<B>, a: seq<A>, b: seq<A>)
    ensures Gathered(f, a + b) == Gathered(f, a) + Gathered(f, b)
  {
    FlattenedConcat(x => AsSeq(f(x)), a, b);
  }

  /** Where the result of one element stands: right behind those before it. */
  lemma GatheredAt<A, B>(f: A -> Option<B>, before: seq<A>, x: A, after: seq<A>)
    ensures Gathered(f, before + [x] + after) == Gathered(f, before) + AsSeq(f(x)) + Gathered(f, after)
  {
    GatheredNext(f, before, x);
    GatheredConcat(f, before + [x], after);
  }

  lemma {:induction false} GatheredExact<A, B>(f: A -> Option<B>, xs: seq<A>, y: B)
    ensures y in Gathered(f, xs) <==> exists k :: 0 <= k < |xs| && f(xs[k]) == Some(y)
  {
    if xs != [] {
      var n := |xs| - 1;
      GatheredExact(f, xs[..n], y);
      GatheredNext(f, xs[..n], xs[n]);
      assert xs[..n] + [xs[n]] == xs;
      FoundBefore(f, xs[..n], xs[n], xs, y);
    }
  }

  lemma FoundBefore<A, B>(f: A -> Option<B>, part: seq<A>, x: A, xs: seq<A>, y: B)
    requires xs == part + [x]
    ensures (exists k :: 0 <= k < |xs| && f(xs[k]) == Some(y))
       <==> (exists k :: 0 <= k < |part| && f(part[k]) == Some(y)) || f(x) == Some(y)
  {
    if k :| 0 <= k < |part| && f(part[k]) == Some(y) { assert f(xs[k]) == Some(y); }
    if k :| 0 <= k < |xs| && f(xs[k]) == Some(y) && k < |part| { assert f(part[k]) == Some(y); }
    assert xs[|part|] == x;
  }
}
