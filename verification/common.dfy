/**
  Shared building blocks: optional values, results, small arithmetic helpers
  and the order-preserving filter that the route handler, the client page and
  the validator all use (JavaScript's `Array.prototype.filter`).
 */
module Common {

  /** An optional value, standing for JavaScript's `null`/`undefined`. */
  datatype Option<+T> = None | Some(value: T)

  /** The outcome of an operation that may fail with an error value. */
  datatype Result<+T, +E> = Ok(value: T) | Err(error: E)

  function Min(a: int, b: int): int {
    if a <= b then a else b
  }

  function Max(a: int, b: int): int {
    if a >= b then a else b
  }

  /** JavaScript truthiness of an optional string: absent and "" are falsy. */
  predicate Truthy(s: Option<string>) {
    s.Some? && s.value != ""
  }

  /** `xs.filter(p)`: the elements satisfying `p`, in their original order. */
  function Filter<T(!new)>(xs: seq<T>, p: T -> bool): (r: seq<T>)
    ensures |r| <= |xs|
  {
    if |xs| == 0 then []
    else (if p(xs[0]) then [xs[0]] else []) + Filter(xs[1..], p)
  }

  /**
    Every element is kept or dropped as a whole, so membership and
    multiplicity in the result are determined by `p` alone.
   */
  lemma {:induction false} FilterContents<T(!new)>(xs: seq<T>, p: T -> bool)
    ensures forall x :: x in Filter(xs, p) <==> x in xs && p(x)
    ensures forall x :: multiset(Filter(xs, p))[x] == if p(x) then multiset(xs)[x] else 0
  {
    if |xs| > 0 {
      FilterContents(xs[1..], p);
      assert xs == [xs[0]] + xs[1..];
    }
  }

  /** Filtering commutes with concatenation: relative order is preserved. */
  lemma {:induction false} FilterAppend<T(!new)>(a: seq<T>, b: seq<T>, p: T -> bool)
    ensures Filter(a + b, p) == Filter(a, p) + Filter(b, p)
  {
    if |a| == 0 {
      assert a + b == b;
    } else {
      var head := if p(a[0]) then [a[0]] else [];
      assert (a + b)[0] == a[0];
      assert (a + b)[1..] == a[1..] + b;
      FilterAppend(a[1..], b, p);
      assert Filter(a + b, p) == head + Filter(a[1..] + b, p);
    }
  }

  /** A filter that every element passes is the identity. */
  lemma {:induction false} FilterKeepsAll<T(!new)>(xs: seq<T>, p: T -> bool)
    requires forall i :: 0 <= i < |xs| ==> p(xs[i])
    ensures Filter(xs, p) == xs
  {
    if |xs| > 0 {
      FilterKeepsAll(xs[1..], p);
    }
  }

  /** Filtering out one rejected element keeps its neighbours, in order, when they all pass. */
  lemma FilterDropsOne<T(!new)>(before: seq<T>, x: T, after: seq<T>, p: T -> bool)
    requires !p(x)
    requires forall i :: 0 <= i < |before| ==> p(before[i])
    requires forall i :: 0 <= i < |after| ==> p(after[i])
    ensures Filter(before + [x] + after, p) == before + after
  {
    var one := [x];
    assert one[1..] == [];
    FilterAppend(before + one, after, p);
    FilterAppend(before, one, p);
    FilterKeepsAll(before, p);
    FilterKeepsAll(after, p);
    assert Filter(one, p) == [] + Filter(one[1..], p) == [];
    calc {
      Filter(before + one + after, p);
      Filter(before + one, p) + Filter(after, p);
      (Filter(before, p) + Filter(one, p)) + Filter(after, p);
      (before + []) + after;
      { assert before + [] == before; }
      before + after;
    }
  }
}
