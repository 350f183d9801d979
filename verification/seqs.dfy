/** Order-preserving selection and de-duplication over sequences: the shapes
    behind `Array.prototype.filter` and `Array.from(new Set(xs))`. */
module Seqs {

  /** Keeps, in order, the elements of `s` that satisfy `p`. */
  function Filter<T(!new)>(p: T -> bool, s: seq<T>): (r: seq<T>)
    ensures |r| <= |s|
    ensures forall x :: x in r <==> x in s && p(x)
    decreases |s|
  {
    if s == [] then []
    else
      var init := Filter(p, s[..|s| - 1]);
      var last := s[|s| - 1];
      assert s == s[..|s| - 1] + [last];
      if p(last) then init + [last] else init
  }

  /** `idx` places every element of `a` at a strictly increasing position of `b`. */
  ghost predicate Embedding<T>(idx: seq<int>, a: seq<T>, b: seq<T>) {
    && |idx| == |a|
    && (forall k :: 0 <= k < |idx| ==> 0 <= idx[k] < |b| && b[idx[k]] == a[k])
    && (forall k, l :: 0 <= k < l < |idx| ==> idx[k] < idx[l])
  }

  /** `a` is obtained from `b` by deleting elements, keeping the order of the rest. */
  ghost predicate IsSubsequence<T>(a: seq<T>, b: seq<T>) {
    exists idx :: Embedding(idx, a, b)
  }

  /** A filter never reorders: its result is a subsequence of its input. */
  lemma {:induction false} FilterIsSubsequence<T(!new)>(p: T -> bool, s: seq<T>)
    ensures IsSubsequence(Filter(p, s), s)
    decreases |s|
  {
    if s == [] {
      assert Embedding([], Filter(p, s), s);
    } else {
      var init := s[..|s| - 1];
      var last := s[|s| - 1];
      FilterIsSubsequence(p, init);
      var idx :| Embedding(idx, Filter(p, init), init);
      assert Embedding(idx, Filter(p, init), s);
      if p(last) {
        assert Embedding(idx + [|s| - 1], Filter(p, init) + [last], s);
      }
    }
  }

  /** Filtering a concatenation filters each part: the choice for an element
      depends on that element alone. */
  lemma {:induction false} FilterAppend<T(!new)>(p: T -> bool, a: seq<T>, b: seq<T>)
    ensures Filter(p, a + b) == Filter(p, a) + Filter(p, b)
    decreases |b|
  {
    if b == [] {
      assert a + b == a;
    } else {
      var n := |b| - 1;
      assert (a + b)[..|a + b| - 1] == a + b[..n];
      assert (a + b)[|a + b| - 1] == b[n];
      FilterAppend(p, a, b[..n]);
    }
  }

  /** Selecting with a predicate nothing satisfies yields nothing. */
  lemma {:induction false} FilterNone<T(!new)>(p: T -> bool, s: seq<T>)
    requires forall x :: x in s ==> !p(x)
    ensures Filter(p, s) == []
    decreases |s|
  {
    if s != [] {
      FilterNone(p, s[..|s| - 1]);
      assert s[|s| - 1] in s;
    }
  }

  /** Selecting with a predicate everything satisfies keeps everything. */
  lemma {:induction false} FilterAll<T(!new)>(p: T -> bool, s: seq<T>)
    requires forall x :: x in s ==> p(x)
    ensures Filter(p, s) == s
    decreases |s|
  {
    if s != [] {
      var init := s[..|s| - 1];
      assert forall x :: x in init ==> x in s;
      FilterAll(p, init);
      assert s[|s| - 1] in s;
      assert s == init + [s[|s| - 1]];
    }
  }

  /** Position of the first occurrence of `x` in `s`. */
  function IndexOf<T(==)>(s: seq<T>, x: T): (i: nat)
    requires x in s
    ensures i < |s| && s[i] == x
    ensures forall k :: 0 <= k < i ==> s[k] != x
  {
    if s[0] == x then 0 else 1 + IndexOf(s[1..], x)
  }

  /** Appending an element does not move the first occurrence of an element already present. */
  lemma IndexOfSnoc<T>(s: seq<T>, y: T, x: T)
    requires x in s
    ensures x in s + [y] && IndexOf(s + [y], x) == IndexOf(s, x)
  {
    var i := IndexOf(s, x);
    var j := IndexOf(s + [y], x);
    assert (s + [y])[i] == x;
    assert j <= i;
    assert s[j] == (s + [y])[j];
  }

  /** No element occurs twice. */
  predicate Distinct<T(==)>(s: seq<T>) {
    forall i, j :: 0 <= i < j < |s| ==> s[i] != s[j]
  }

  /** `Array.from(new Set(s))`: each value once, at the place it first occurred. */
  function Dedupe<T(==,!new)>(s: seq<T>): (r: seq<T>)
    ensures Distinct(r)
    ensures forall x :: x in r <==> x in s
    ensures forall i, j :: 0 <= i < j < |r| ==> IndexOf(s, r[i]) < IndexOf(s, r[j])
    decreases |s|
  {
    if s == [] then []
    else
      var init := s[..|s| - 1];
      var last := s[|s| - 1];
      assert s == init + [last];
      var d := Dedupe(init);
      forall x | x in init
        ensures IndexOf(s, x) == IndexOf(init, x)
      {
        IndexOfSnoc(init, last, x);
      }
      if last in d then d
      else
        assert last !in init;
        assert IndexOf(s, last) == |s| - 1;
        d + [last]
  }

  /** Applies `f` to every element. */
  function Map<T, U>(f: T -> U, s: seq<T>): (r: seq<U>)
    ensures |r| == |s|
    ensures forall i :: 0 <= i < |s| ==> r[i] == f(s[i])
  {
    seq(|s|, i requires 0 <= i < |s| => f(s[i]))
  }

  /** Mapping an injective function commutes with de-duplication. */
  lemma {:induction false} DedupeMapInjective<T(!new), U(!new)>(f: T -> U, s: seq<T>)
    requires forall x, y :: f(x) == f(y) ==> x == y
    ensures Dedupe(Map(f, s)) == Map(f, Dedupe(s))
    decreases |s|
  {
    if s != [] {
      var init := s[..|s| - 1];
      var last := s[|s| - 1];
      DedupeMapInjective(f, init);
      assert Map(f, s)[..|s| - 1] == Map(f, init);
      var d := Dedupe(init);
      assert f(last) in Map(f, d) <==> last in d by {
        if f(last) in Map(f, d) {
          var k :| 0 <= k < |Map(f, d)| && Map(f, d)[k] == f(last);
          assert d[k] == last;
        }
        if last in d {
          var k :| 0 <= k < |d| && d[k] == last;
          assert Map(f, d)[k] == f(last);
        }
      }
      if last !in d {
        assert Map(f, d + [last]) == Map(f, d) + [f(last)];
      }
    }
  }

  /** `s.forEach(x => out.push(...f(x)))`: the lists `f` gives for each
      element, one after another. */
  function FlatMap<T, U>(f: T -> seq<U>, s: seq<T>): seq<U>
    decreases |s|
  {
    if s == [] then [] else FlatMap(f, s[..|s| - 1]) + f(s[|s| - 1])
  }

  /** Some element of `s` has `x` in its list. */
  predicate Produces<T, U(==)>(f: T -> seq<U>, s: seq<T>, x: U) {
    exists i :: 0 <= i < |s| && x in f(s[i])
  }

  /** A value is in the flattened list exactly when some element's list holds it. */
  lemma {:induction false} FlatMapMembers<T, U>(f: T -> seq<U>, s: seq<T>, x: U)
    ensures x in FlatMap(f, s) <==> Produces(f, s, x)
    decreases |s|
  {
    if s != [] {
      var n := |s| - 1;
      FlatMapMembers(f, s[..n], x);
      if Produces(f, s[..n], x) {
        var i :| 0 <= i < n && x in f(s[..n][i]);
        assert s[i] == s[..n][i];
      }
      if Produces(f, s, x) && x !in f(s[n]) {
        var i :| 0 <= i < |s| && x in f(s[i]);
        assert s[..n][i] == s[i];
      }
    }
  }
}
