/** Order-preserving filtering, shared by the calendar's day lists and the spreadsheet column list. */
module Sequences {

  /** `a` can be obtained from `b` by deleting elements, keeping the order of the rest. */
  predicate IsSubsequence<T(==)>(a: seq<T>, b: seq<T>)
    decreases |b|
  {
    if a == [] then true
    else if b == [] then false
    else (a[0] == b[0] && IsSubsequence(a[1..], b[1..])) || IsSubsequence(a, b[1..])
  }

  predicate Distinct<T(==)>(s: seq<T>) {
    forall i, j :: 0 <= i < j < |s| ==> s[i] != s[j]
  }

  /** The elements of `s` that satisfy `keep`, in their order in `s`
      (JavaScript `Array.prototype.filter`, a Python list comprehension with an `if`). */
  function Filter<T(==)>(s: seq<T>, keep: T -> bool): (r: seq<T>)
    ensures |r| <= |s|
    ensures forall i :: 0 <= i < |r| ==> r[i] in s && keep(r[i])
    ensures forall i :: 0 <= i < |s| && keep(s[i]) ==> s[i] in r
    ensures IsSubsequence(r, s)
    ensures Distinct(s) ==> Distinct(r)
    ensures multiset(r) <= multiset(s)
    ensures forall x :: x in s && keep(x) ==> multiset(r)[x] == multiset(s)[x]
  {
    if s == [] then []
    else
      var rest := Filter(s[1..], keep);
      var r := if keep(s[0]) then [s[0]] + rest else rest;
      KeptShape(s, keep, rest, r);
      KeptCounts(s, keep, rest, r);
      r
  }

  /** `Filter` looks at one element at a time. */
  lemma FilterCons<T>(s: seq<T>, keep: T -> bool)
    requires s != []
    ensures Filter(s, keep) == (if keep(s[0]) then [s[0]] else []) + Filter(s[1..], keep)
  {
  }

  /** One step of `Filter`'s order and membership: putting back the head when it is kept. */
  lemma KeptShape<T>(s: seq<T>, keep: T -> bool, rest: seq<T>, r: seq<T>)
    requires s != []
    requires |rest| <= |s[1..]|
    requires forall i :: 0 <= i < |rest| ==> rest[i] in s[1..] && keep(rest[i])
    requires forall i :: 0 <= i < |s[1..]| && keep(s[1..][i]) ==> s[1..][i] in rest
    requires IsSubsequence(rest, s[1..])
    requires Distinct(s[1..]) ==> Distinct(rest)
    requires r == if keep(s[0]) then [s[0]] + rest else rest
    ensures |r| <= |s|
    ensures forall i :: 0 <= i < |r| ==> r[i] in s && keep(r[i])
    ensures forall i :: 0 <= i < |s| && keep(s[i]) ==> s[i] in r
    ensures IsSubsequence(r, s)
    ensures Distinct(s) ==> Distinct(r)
  {
    assert s == [s[0]] + s[1..];
    if keep(s[0]) {
      assert r[1..] == rest;
      if Distinct(s) {
        assert s[0] !in s[1..];
        assert forall j :: 0 < j < |r| ==> r[j] == rest[j - 1] && r[j] != r[0];
      }
    }
  }

  /** One step of `Filter`'s multiplicities: putting back the head when it is kept. */
  lemma KeptCounts<T>(s: seq<T>, keep: T -> bool, rest: seq<T>, r: seq<T>)
    requires s != []
    requires multiset(rest) <= multiset(s[1..])
    requires forall x :: x in s[1..] && keep(x) ==> multiset(rest)[x] == multiset(s[1..])[x]
    requires r == if keep(s[0]) then [s[0]] + rest else rest
    ensures multiset(r) <= multiset(s)
    ensures forall x :: x in s && keep(x) ==> multiset(r)[x] == multiset(s)[x]
  {
    assert s == [s[0]] + s[1..];
    assert multiset(s) == multiset{s[0]} + multiset(s[1..]);
    forall x | x in s && keep(x)
      ensures multiset(r)[x] == multiset(s)[x]
    {
      if x !in s[1..] {
        assert multiset(rest)[x] == 0;
      }
    }
  }
}
