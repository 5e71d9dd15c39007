/** Small shared datatypes and the generic sequence operations the core uses. */
module Common {

  /** A JavaScript value that may be `null`/`undefined` (None) or present (Some). */
  datatype Option<+T> = None | Some(value: T) {
    function GetOr(default: T): T {
      match this
      case Some(v) => v
      case None => default
    }
  }

  /**
   * `xs.filter(p)`, and a SQL `WHERE` over rows taken in their given order:
   * the elements that satisfy `p`, and nothing else.
   */
  function Filter<T(!new)>(xs: seq<T>, p: T -> bool): (r: seq<T>)
    ensures forall x :: x in r <==> x in xs && p(x)
    ensures |r| <= |xs|
  {
    if xs == [] then []
    else
      var rest := Filter(xs[1..], p);
      assert forall x :: x in xs <==> x == xs[0] || x in xs[1..];
      if p(xs[0]) then [xs[0]] + rest else rest
  }

  /** Each element that satisfies `p` is kept as often as it occurs; the others are gone. */
  lemma {:induction false} FilterCounts<T(!new)>(xs: seq<T>, p: T -> bool)
    ensures forall x :: p(x) ==> multiset(Filter(xs, p))[x] == multiset(xs)[x]
    ensures forall x :: !p(x) ==> multiset(Filter(xs, p))[x] == 0
    ensures multiset(Filter(xs, p)) <= multiset(xs)
    decreases |xs|
  {
    if xs != [] {
      FilterCounts(xs[1..], p);
      assert xs == [xs[0]] + xs[1..];
      assert multiset(xs) == multiset{xs[0]} + multiset(xs[1..]);
      if p(xs[0]) {
        assert Filter(xs, p) == [xs[0]] + Filter(xs[1..], p);
        assert multiset(Filter(xs, p)) == multiset{xs[0]} + multiset(Filter(xs[1..], p));
      }
    }
  }

  /** Filtering keeps the order: the filter of a concatenation is the concatenation of the filters. */
  lemma {:induction false} FilterConcat<T(!new)>(xs: seq<T>, ys: seq<T>, p: T -> bool)
    ensures Filter(xs + ys, p) == Filter(xs, p) + Filter(ys, p)
    decreases |xs|
  {
    if xs != [] {
      var zs := xs + ys;
      var head := if p(xs[0]) then [xs[0]] else [];
      assert zs[0] == xs[0] && zs[1..] == xs[1..] + ys;
      assert Filter(zs, p) == head + Filter(xs[1..] + ys, p);
      assert Filter(xs, p) == head + Filter(xs[1..], p);
      FilterConcat(xs[1..], ys, p);
      assert head + (Filter(xs[1..], p) + Filter(ys, p)) == (head + Filter(xs[1..], p)) + Filter(ys, p);
    } else {
      assert xs + ys == ys;
    }
  }

  /** `[f(0), ..., f(n - 1)]`: what a loop that pushes `f(i)` for `i` from 0 to n - 1 builds. */
  function Tabulate<T>(f: nat --> T, n: nat): (s: seq<T>)
    requires forall k: nat :: k < n ==> f.requires(k)
    ensures |s| == n
    ensures forall k :: 0 <= k < n ==> s[k] == f(k)
  {
    if n == 0 then [] else Tabulate(f, n - 1) + [f(n - 1)]
  }
}
