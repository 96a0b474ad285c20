/** Sequences processed element by element: a flat map and a left fold, with
    the facts the crawl needs about running them over two parts in turn. */
module Sequences {

  /** `f` applied to each element, the results joined in order. */
  function FlatMap<A, T>(f: A -> seq<T>, xs: seq<A>): seq<T>
    decreases |xs|
  {
    if |xs| == 0 then [] else f(xs[0]) + FlatMap(f, xs[1..])
  }

  /** `step` applied to each element in turn, starting from `s`. */
  function FoldLeft<S, A>(step: (S, A) -> S, s: S, xs: seq<A>): S
    decreases |xs|
  {
    if |xs| == 0 then s else FoldLeft(step, step(s, xs[0]), xs[1..])
  }

  lemma FlatMapSingle<A, T>(f: A -> seq<T>, x: A)
    ensures FlatMap(f, [x]) == f(x)
  {
    assert [x][1..] == [];
    assert f(x) + [] == f(x);
  }

  lemma FoldLeftSingle<S, A>(step: (S, A) -> S, s: S, x: A)
    ensures FoldLeft(step, s, [x]) == step(s, x)
  {
    assert [x][1..] == [];
  }

  lemma {:induction false} FlatMapAppend<A, T>(f: A -> seq<T>, a: seq<A>, b: seq<A>)
    ensures FlatMap(f, a + b) == FlatMap(f, a) + FlatMap(f, b)
    decreases |a|
  {
    if |a| == 0 {
      assert a + b == b;
    } else {
      assert (a + b)[0] == a[0];
      assert (a + b)[1..] == a[1..] + b;
      FlatMapAppend(f, a[1..], b);
    }
  }

  lemma {:induction false} FoldLeftAppend<S, A>(step: (S, A) -> S, s: S, a: seq<A>, b: seq<A>)
    ensures FoldLeft(step, s, a + b) == FoldLeft(step, FoldLeft(step, s, a), b)
    decreases |a|
  {
    if |a| == 0 {
      assert a + b == b;
    } else {
      assert (a + b)[0] == a[0];
      assert (a + b)[1..] == a[1..] + b;
      FoldLeftAppend(step, step(s, a[0]), a[1..], b);
    }
  }

  /** A fold whose every step appends `f` of the element to what `view` sees
      appends the flat map of `f` over the whole sequence. */
  lemma {:induction false} FoldLeftAppends<S, A, T>(step: (S, A) -> S, view: S -> seq<T>, f: A -> seq<T>, s: S, xs: seq<A>)
    requires forall s', x :: view(step(s', x)) == view(s') + f(x)
    ensures view(FoldLeft(step, s, xs)) == view(s) + FlatMap(f, xs)
    decreases |xs|
  {
    if |xs| == 0 {
      assert view(s) + [] == view(s);
    } else {
      FoldLeftAppends(step, view, f, step(s, xs[0]), xs[1..]);
      assert view(s) + f(xs[0]) + FlatMap(f, xs[1..]) == view(s) + (f(xs[0]) + FlatMap(f, xs[1..]));
    }
  }
}
