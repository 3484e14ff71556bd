/**
  Generic helpers shared by the model: optional values, results, and the two
  sequence operations the Go code spells out by hand — "keep the elements that
  convert" and "remove an element by moving the last one into its slot".
 */
module Basics {

  /** Go's nil pointer / present value. */
  datatype Option<+T> = None | Some(value: T)

  /** A value or the error that replaced it. */
  datatype Result<+T, +E> = Success(value: T) | Failure(error: E)

  /** Keeps, in order, the converted form of every element that converts. */
  function FilterMap<A(!new), B(!new)>(s: seq<A>, f: A -> Option<B>): (r: seq<B>)
    ensures |r| <= |s|
    ensures forall y :: y in r <==> exists x :: x in s && f(x) == Some(y)
  {
    if |s| == 0 then []
    else
      var rest := FilterMap(s[1..], f);
      assert forall x :: x in s <==> x == s[0] || x in s[1..];
      match f(s[0])
      case Some(y) => [y] + rest
      case None => rest
  }

  /** FilterMap distributes over concatenation: it keeps the order of its input. */
  lemma {:induction false} FilterMapAppend<A(!new), B(!new)>(a: seq<A>, b: seq<A>, f: A -> Option<B>)
    ensures FilterMap(a + b, f) == FilterMap(a, f) + FilterMap(b, f)
  {
    if |a| == 0 {
      assert a + b == b;
    } else {
      assert (a + b)[1..] == a[1..] + b;
      FilterMapAppend(a[1..], b, f);
    }
  }

  /** When every element converts, nothing is dropped and positions line up. */
  lemma {:induction false} FilterMapTotal<A(!new), B(!new)>(s: seq<A>, f: A -> Option<B>)
    requires forall i :: 0 <= i < |s| ==> f(s[i]).Some?
    ensures |FilterMap(s, f)| == |s|
    ensures forall i :: 0 <= i < |s| ==> FilterMap(s, f)[i] == f(s[i]).value
  {
    if |s| > 0 {
      FilterMapTotal(s[1..], f);
    }
  }

  /** Position of the first occurrence of `x`. */
  function FirstIndex<T(==)>(s: seq<T>, x: T): (i: nat)
    requires x in s
    ensures i < |s| && s[i] == x
    ensures forall j :: 0 <= j < i ==> s[j] != x
  {
    if s[0] == x then 0
    else
      assert s == [s[0]] + s[1..];
      1 + FirstIndex(s[1..], x)
  }

  /** Overwriting slot `i` with the last element and dropping the last slot
      removes exactly one copy of `s[i]`. */
  lemma SwapRemoveMultiset<T>(s: seq<T>, i: nat)
    requires i < |s|
    ensures multiset(s[i := s[|s| - 1]][..|s| - 1]) == multiset(s) - multiset{s[i]}
  {
    var n := |s|;
    var last := s[n - 1];
    if i == n - 1 {
      assert s[i := last] == s;
      assert s == s[..n - 1] + [last];
    } else {
      var t := s[i := last];
      assert t[..n - 1] == s[..i] + [last] + s[i + 1..n - 1];
      assert s == s[..i] + [s[i]] + s[i + 1..n - 1] + [last];
    }
  }

  /** Removes the first occurrence of `x` the way the controller does: the
      last element takes its slot and the sequence shrinks by one. Every other
      element keeps its multiplicity; only the order may change. */
  function SwapRemove<T(==,!new)>(s: seq<T>, x: T): (r: seq<T>)
    requires x in s
    ensures |r| == |s| - 1
    ensures multiset(r) == multiset(s) - multiset{x}
    ensures forall y :: y != x ==> (y in r <==> y in s)
  {
    var i := FirstIndex(s, x);
    SwapRemoveMultiset(s, i);
    var r := s[i := s[|s| - 1]][..|s| - 1];
    assert forall y :: y in r <==> multiset(r)[y] > 0;
    assert forall y :: y in s <==> multiset(s)[y] > 0;
    r
  }

  /** Index of the first element not in `excluded`, if there is one. */
  function FirstOutside<T(==)>(s: seq<T>, excluded: set<T>): (r: Option<nat>)
    ensures r.Some? ==> r.value < |s| && s[r.value] !in excluded
    ensures r.Some? ==> forall j :: 0 <= j < r.value ==> s[j] in excluded
    ensures r.None? <==> forall j :: 0 <= j < |s| ==> s[j] in excluded
  {
    if |s| == 0 then None
    else if s[0] !in excluded then Some(0)
    else
      match FirstOutside(s[1..], excluded)
      case Some(k) => Some(k + 1)
      case None => None
  }
}
