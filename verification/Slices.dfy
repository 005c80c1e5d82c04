/** The two in-place removals of Go slices used by the registrar: the elements
    are shifted within the backing array, and the slice is the array's prefix. */
module Slices {

  /** The elements that satisfy keep, in order. */
  function Filter<T>(s: seq<T>, keep: T -> bool): seq<T> {
    if s == [] then []
    else Filter(s[..|s| - 1], keep) + if keep(s[|s| - 1]) then [s[|s| - 1]] else []
  }

  /** append(list[:i], list[i+1:]...) over the first n elements of a. */
  method RemoveAt<T>(a: array<T>, n: nat, i: nat) returns (m: nat)
    requires i < n <= a.Length
    modifies a
    ensures m == n - 1 && a[..m] == old(a[..i]) + old(a[i + 1..n])
    ensures a[n..] == old(a[n..])
  {
    var j := i;
    while j + 1 < n
      invariant i <= j < n
      invariant a[..i] == old(a[..i])
      invariant forall k :: i <= k < j ==> a[k] == old(a[k + 1])
      invariant forall k :: j < k < a.Length ==> a[k] == old(a[k])
    {
      a[j] := a[j + 1];
      j := j + 1;
    }
    m := n - 1;
  }

  /** kept := list[:0], then appending the elements to keep: the write index never
      passes the read index, so nothing is overwritten before it is read. */
  method KeepInPlace<T>(a: array<T>, n: nat, keep: T -> bool) returns (m: nat)
    requires n <= a.Length
    modifies a
    ensures m <= n && a[..m] == Filter(old(a[..n]), keep)
    ensures a[n..] == old(a[n..])
  {
    ghost var was := a[..];
    m := 0;
    for i := 0 to n
      invariant m <= i && a[..m] == Filter(was[..i], keep)
      invariant a[i..] == was[i..]
    {
      assert a[i] == a[i..][0] == was[i];
      assert was[..i + 1][..i] == was[..i];
      if keep(a[i]) {
        a[m] := a[i];
        m := m + 1;
        assert a[..m] == a[..m - 1] + [was[i]];
      }
      assert a[i + 1..] == a[i..][1..];
    }
    assert was[..n] == old(a[..n]);
  }

  /** Filtering keeps exactly the satisfying elements, each as often as it occurred. */
  lemma FilterKeepsExactly<T>(s: seq<T>, keep: T -> bool)
    ensures forall x :: x in Filter(s, keep) <==> x in s && keep(x)
    ensures forall x :: keep(x) ==> multiset(Filter(s, keep))[x] == multiset(s)[x]
  {
    if s != [] {
      FilterKeepsExactly(s[..|s| - 1], keep);
      assert s == s[..|s| - 1] + [s[|s| - 1]];
    }
  }

  lemma {:induction false} FilterConcat<T>(a: seq<T>, b: seq<T>, keep: T -> bool)
    ensures Filter(a + b, keep) == Filter(a, keep) + Filter(b, keep)
  {
    if b == [] {
      assert a + b == a;
    } else {
      assert (a + b)[..|a + b| - 1] == a + b[..|b| - 1];
      FilterConcat(a, b[..|b| - 1], keep);
    }
  }

  lemma FilterOne<T>(x: T, keep: T -> bool)
    ensures Filter([x], keep) == if keep(x) then [x] else []
  {
    assert [x][..0] == [];
  }

  lemma {:induction false} FilterTwice<T>(s: seq<T>, keep: T -> bool, further: T -> bool)
    requires forall x :: further(x) ==> keep(x)
    ensures Filter(Filter(s, keep), further) == Filter(s, further)
  {
    if s != [] {
      var n := |s| - 1;
      FilterTwice(s[..n], keep, further);
      FilterConcat(Filter(s[..n], keep), if keep(s[n]) then [s[n]] else [], further);
      FilterOne(s[n], further);
    }
  }

  /** The positions of the elements kept: all that satisfy keep, in increasing order. */
  lemma {:induction false} FilterIsSubsequence<T>(s: seq<T>, keep: T -> bool) returns (at: seq<nat>)
    ensures forall i :: 0 <= i < |at| ==> at[i] < |s|
    ensures forall i, j :: 0 <= i < j < |at| ==> at[i] < at[j]
    ensures forall k: nat :: k in at <==> k < |s| && keep(s[k])
    ensures Filter(s, keep) == seq(|at|, i requires 0 <= i < |at| => s[at[i]])
  {
    if s == [] {
      at := [];
    } else {
      var n := |s| - 1;
      var before := FilterIsSubsequence(s[..n], keep);
      at := before + if keep(s[n]) then [n] else [];
    }
  }
}
