/** Sequences without repetition, and the outcome of a loop that collects a list. */
module Sequences {
  import opened Wrappers

  ghost predicate Distinct<T(!new)>(s: seq<T>) {
    forall i, j :: 0 <= i < j < |s| ==> s[i] != s[j]
  }

  lemma DistinctSnoc<T(!new)>(s: seq<T>, x: T)
    requires Distinct(s) && x !in s
    ensures Distinct(s + [x])
  {
  }

  /** Each element of a sequence without repetition occurs once. */
  lemma {:induction false} DistinctCount<T(!new)>(s: seq<T>, x: T)
    requires Distinct(s)
    ensures multiset(s)[x] == if x in s then 1 else 0
  {
    if s == [] {
    } else {
      var t := s[..|s| - 1];
      assert s == t + [s[|s| - 1]];
      DistinctCount(t, x);
    }
  }

  /** The sequence without its i-th element. */
  function Without<T>(s: seq<T>, i: nat): (r: seq<T>)
    requires i < |s|
    ensures |r| == |s| - 1 && forall j :: 0 <= j < |r| ==> r[j] == if j < i then s[j] else s[j + 1]
  {
    s[..i] + s[i + 1..]
  }

  lemma WithoutKeeps<T>(s: seq<T>, i: nat, x: T)
    requires i < |s| && x in s && x != s[i]
    ensures x in Without(s, i)
  {
    var j :| 0 <= j < |s| && s[j] == x;
    assert Without(s, i)[if j < i then j else j - 1] == x;
  }

  lemma DistinctWithout<T(!new)>(s: seq<T>, i: nat)
    requires Distinct(s) && i < |s|
    ensures Distinct(Without(s, i)) && s[i] !in Without(s, i)
  {
    var r := Without(s, i);
    forall j | 0 <= j < |r| ensures r[j] != s[i] {
      assert r[j] == s[if j < i then j else j + 1];
    }
  }

  // ---- Collecting loops ----

  /** What the elements so far make of the outcome for the rest. */
  ghost function After<T>(xs: seq<T>, rest: Result<seq<T>>): Result<seq<T>> {
    if rest.Ok? then Ok(xs + rest.value) else rest
  }

  lemma AfterNothing<T>(rest: Result<seq<T>>, xs: seq<T>)
    ensures After([], rest) == rest && After(xs, Ok([])) == Ok(xs)
  {
    if rest.Ok? { assert [] + rest.value == rest.value; }
    assert xs + [] == xs;
  }

  lemma AfterOne<T>(xs: seq<T>, x: T, rest: Result<seq<T>>)
    ensures rest.Ok? ==> After(xs, Ok([x] + rest.value)) == After(xs + [x], rest)
    ensures rest.Err? ==> After(xs + [x], rest) == rest == After(xs, rest)
  {
    if rest.Ok? { assert xs + ([x] + rest.value) == xs + [x] + rest.value; }
  }
}
