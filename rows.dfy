/** The two ways the pages update their local copy of a table after a
    successful remote write: `rows.filter(r => r.id !== id)` and
    `rows.map(r => r.id === id ? f(r) : r)`. */
module Rows {

  /** The rows whose key differs from `id`, in their original order. */
  function Without<T, K(==)>(xs: seq<T>, key: T -> K, id: K): (r: seq<T>)
    ensures |r| <= |xs|
  {
    if xs == [] then []
    else (if key(xs[0]) == id then [] else [xs[0]]) + Without(xs[1..], key, id)
  }

  /** Exactly the rows whose key differs from `id` are kept. */
  lemma {:induction false} WithoutMembers<T, K>(xs: seq<T>, key: T -> K, id: K)
    ensures forall x :: x in Without(xs, key, id) <==> x in xs && key(x) != id
  {
    if xs != [] {
      WithoutMembers(xs[1..], key, id);
      assert xs == [xs[0]] + xs[1..];
      assert forall x :: x in xs <==> x == xs[0] || x in xs[1..];
    }
  }

  /** Filtering distributes over concatenation, so the rows that are kept
      keep their relative order. */
  lemma {:induction false} WithoutAppend<T, K>(xs: seq<T>, ys: seq<T>, key: T -> K, id: K)
    ensures Without(xs + ys, key, id) == Without(xs, key, id) + Without(ys, key, id)
  {
    if xs == [] {
      assert xs + ys == ys;
    } else {
      var head := if key(xs[0]) == id then [] else [xs[0]];
      assert (xs + ys)[0] == xs[0] && (xs + ys)[1..] == xs[1..] + ys;
      assert Without(xs + ys, key, id) == head + Without(xs[1..] + ys, key, id);
      WithoutAppend(xs[1..], ys, key, id);
      assert Without(xs, key, id) == head + Without(xs[1..], key, id);
      assert head + (Without(xs[1..], key, id) + Without(ys, key, id))
          == (head + Without(xs[1..], key, id)) + Without(ys, key, id);
    }
  }

  /** Removing a key that no row has leaves the rows as they were. */
  lemma {:induction false} WithoutAbsent<T, K>(xs: seq<T>, key: T -> K, id: K)
    requires forall i :: 0 <= i < |xs| ==> key(xs[i]) != id
    ensures Without(xs, key, id) == xs
  {
    if xs != [] {
      WithoutAbsent(xs[1..], key, id);
    }
  }

  /** The rows whose key is `id` go through `f`; every other row stays. */
  function Update<T, K(==)>(xs: seq<T>, key: T -> K, id: K, f: T -> T): (r: seq<T>)
    ensures |r| == |xs|
    ensures forall i :: 0 <= i < |xs| ==> r[i] == if key(xs[i]) == id then f(xs[i]) else xs[i]
  {
    if xs == [] then []
    else [if key(xs[0]) == id then f(xs[0]) else xs[0]] + Update(xs[1..], key, id, f)
  }

}
