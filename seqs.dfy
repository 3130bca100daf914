/** `Array.prototype.filter`, `find` and `every`, shared by the pages and handlers that keep
    some elements of a list in order. */
module Seqs {
  import opened Text

  /** `xs.filter(p)`: the elements satisfying p, in their original order. */
  function Filter<T>(p: T -> bool, xs: seq<T>): (r: seq<T>)
    ensures |r| <= |xs|
    ensures forall i :: 0 <= i < |r| ==> p(r[i]) && r[i] in xs
    ensures forall x :: x in xs && p(x) ==> x in r
  {
    if xs == [] then []
    else (if p(xs[0]) then [xs[0]] else []) + Filter(p, xs[1..])
  }

  /** Filtering keeps the order: it works piece by piece on a concatenation. */
  lemma {:induction false} FilterAppend<T>(p: T -> bool, a: seq<T>, b: seq<T>)
    ensures Filter(p, a + b) == Filter(p, a) + Filter(p, b)
  {
    if a == [] {
      assert a + b == b;
    } else {
      assert (a + b)[0] == a[0];
      assert (a + b)[1..] == a[1..] + b;
      FilterAppend(p, a[1..], b);
    }
  }

  /** A list whose every element passes comes through unchanged; one with none passing gives []. */
  lemma {:induction false} FilterAllOrNone<T>(p: T -> bool, xs: seq<T>)
    ensures (forall i :: 0 <= i < |xs| ==> p(xs[i])) ==> Filter(p, xs) == xs
    ensures (forall i :: 0 <= i < |xs| ==> !p(xs[i])) ==> Filter(p, xs) == []
  {
    if xs != [] {
      FilterAllOrNone(p, xs[1..]);
      assert forall i :: 0 <= i < |xs[1..]| ==> xs[1..][i] == xs[i + 1];
    }
  }

  /** `xs.find(p)`: the first element satisfying p, if any. */
  function Find<T>(p: T -> bool, xs: seq<T>): (r: Option<T>)
    ensures r.None? <==> forall i :: 0 <= i < |xs| ==> !p(xs[i])
    ensures r.Some? ==> p(r.value) && r.value in xs
  {
    if xs == [] then None
    else if p(xs[0]) then Some(xs[0])
    else
      var r := Find(p, xs[1..]);
      assert forall i :: 1 <= i < |xs| ==> xs[i] == xs[1..][i - 1];
      r
  }

  /** The element `find` returns is the first passing one: everything before it fails. */
  lemma {:induction false} FindFirst<T>(p: T -> bool, xs: seq<T>) returns (k: nat)
    requires Find(p, xs).Some?
    ensures k < |xs| && xs[k] == Find(p, xs).value
    ensures forall i :: 0 <= i < k ==> !p(xs[i])
  {
    if p(xs[0]) {
      k := 0;
    } else {
      var j := FindFirst(p, xs[1..]);
      k := j + 1;
    }
  }

  /** `xs.every(p)`, taken from the last element back: the prefix passes and so does the last. */
  predicate Every<T>(p: T -> bool, xs: seq<T>)
    decreases |xs|
  {
    xs == [] || (Every(p, xs[..|xs| - 1]) && p(xs[|xs| - 1]))
  }

  /** `every` holds exactly when each element passes. */
  lemma {:induction false} EveryIff<T>(p: T -> bool, xs: seq<T>)
    ensures Every(p, xs) <==> forall i :: 0 <= i < |xs| ==> p(xs[i])
    decreases |xs|
  {
    if xs != [] {
      var init := xs[..|xs| - 1];
      EveryIff(p, init);
      assert forall i :: 0 <= i < |init| ==> init[i] == xs[i];
    }
  }

  /** What passes `every` has every prefix passing too. */
  lemma {:induction false} EveryPrefix<T>(p: T -> bool, xs: seq<T>, n: nat)
    requires n <= |xs| && Every(p, xs)
    ensures Every(p, xs[..n])
    decreases |xs|
  {
    if n < |xs| {
      assert xs[..|xs| - 1][..n] == xs[..n];
      EveryPrefix(p, xs[..|xs| - 1], n);
    } else {
      assert xs[..n] == xs;
    }
  }
}
