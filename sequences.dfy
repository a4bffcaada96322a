/**
 * Sequence operations that stand for the Java stream pipelines of the
 * controller: `filter(p).findFirst()` and `filter(p).collect(toList())`.
 */
module Sequences {

  /** A value that may be absent; stands for a Java reference that may be null. */
  datatype Option<+T> = None | Some(value: T)

  /** Index of the first element of `s` satisfying `p`, if any. */
  function FirstIndex<T>(s: seq<T>, p: T -> bool): (r: Option<nat>)
    ensures r.Some? ==> r.value < |s| && p(s[r.value])
    ensures r.Some? ==> forall j :: 0 <= j < r.value ==> !p(s[j])
    ensures r.None? ==> forall j :: 0 <= j < |s| ==> !p(s[j])
  {
    if |s| == 0 then None
    else if p(s[0]) then Some(0)
    else
      match FirstIndex(s[1..], p)
      case None => None
      case Some(i) => Some(i + 1)
  }

  /** `s.stream().filter(p).findFirst().orElse(null)`. */
  function FindFirst<T>(s: seq<T>, p: T -> bool): (r: Option<T>)
    ensures r.None? <==> forall j :: 0 <= j < |s| ==> !p(s[j])
    ensures r.Some? ==>
      exists i :: 0 <= i < |s| && s[i] == r.value && p(s[i]) && forall j :: 0 <= j < i ==> !p(s[j])
  {
    match FirstIndex(s, p)
    case None => None
    case Some(i) => Some(s[i])
  }

  /** `r` can be obtained from `s` by deleting elements, keeping the order of the rest. */
  predicate IsSubsequence<T(==)>(r: seq<T>, s: seq<T>)
  {
    if r == [] then true
    else if s == [] then false
    else (r[0] == s[0] && IsSubsequence(r[1..], s[1..])) || IsSubsequence(r, s[1..])
  }

  /**
   * `s.stream().filter(p).collect(toList())`: the elements of `s` satisfying
   * `p`, in their original order. FilterKeepsOrder and FilterCounts state
   * what it keeps, and FilterUnique that this determines it.
   */
  function Filter<T(==)>(s: seq<T>, p: T -> bool): (r: seq<T>)
    ensures forall x :: x in r ==> p(x)
  {
    if |s| == 0 then []
    else if p(s[0]) then [s[0]] + Filter(s[1..], p)
    else Filter(s[1..], p)
  }

  /** The filter's result is a subsequence of its input. */
  lemma {:induction false} FilterKeepsOrder<T>(s: seq<T>, p: T -> bool)
    ensures IsSubsequence(Filter(s, p), s)
  {
    if |s| > 0 {
      FilterKeepsOrder(s[1..], p);
    }
  }

  /** The filter keeps every copy of an element satisfying `p` and no other element. */
  lemma {:induction false} FilterCounts<T(!new)>(s: seq<T>, p: T -> bool)
    ensures forall x :: multiset(Filter(s, p))[x] == if p(x) then multiset(s)[x] else 0
  {
    if |s| > 0 {
      assert s == [s[0]] + s[1..];
      FilterCounts(s[1..], p);
    }
  }

  /** `Filter` unfolded once on an element put in front. */
  lemma FilterCons<T>(x: T, s: seq<T>, p: T -> bool)
    ensures Filter([x] + s, p) == if p(x) then [x] + Filter(s, p) else Filter(s, p)
  {
    assert ([x] + s)[1..] == s;
  }

  /** Filtering distributes over concatenation. */
  lemma {:induction false} FilterAppend<T>(a: seq<T>, b: seq<T>, p: T -> bool)
    ensures Filter(a + b, p) == Filter(a, p) + Filter(b, p)
  {
    if a == [] {
      assert a + b == b;
      assert Filter(a, p) == [];
    } else {
      var x, rest := a[0], a[1..];
      FilterAppend(rest, b, p);
      FilterAppendCons(x, rest, b, p);
      assert a == [x] + rest;
      assert a + b == [x] + (rest + b);
    }
  }

  /** The inductive step of FilterAppend: one more element in front. */
  lemma FilterAppendCons<T>(x: T, rest: seq<T>, b: seq<T>, p: T -> bool)
    requires Filter(rest + b, p) == Filter(rest, p) + Filter(b, p)
    ensures Filter([x] + (rest + b), p) == Filter([x] + rest, p) + Filter(b, p)
  {
    FilterCons(x, rest + b, p);
    FilterCons(x, rest, p);
    if p(x) {
      var fr, fb := Filter(rest, p), Filter(b, p);
      assert [x] + (fr + fb) == ([x] + fr) + fb;
    }
  }

  /** A subsequence never has more elements than the sequence it comes from. */
  lemma {:induction false} SubsequenceLength<T>(r: seq<T>, s: seq<T>)
    requires IsSubsequence(r, s)
    ensures |r| <= |s|
  {
    if r != [] {
      if r[0] == s[0] && IsSubsequence(r[1..], s[1..]) {
        SubsequenceLength(r[1..], s[1..]);
      } else {
        SubsequenceLength(r, s[1..]);
      }
    }
  }

  /**
   * Any ordered selection of `s` that keeps exactly the elements satisfying
   * `p`, with their multiplicities, is the filter of `s` by `p`.
   */
  lemma {:induction false} FilterUnique<T(!new)>(s: seq<T>, p: T -> bool, r: seq<T>)
    requires IsSubsequence(r, s)
    requires forall x :: multiset(r)[x] == if p(x) then multiset(s)[x] else 0
    ensures r == Filter(s, p)
  {
    if s == [] {
      assert multiset(r) == multiset{};
    } else {
      assert s == [s[0]] + s[1..];
      var x := s[0];
      if r != [] && r[0] == s[0] && IsSubsequence(r[1..], s[1..]) {
        assert r == [r[0]] + r[1..];
        assert multiset(r)[x] > 0;
        assert p(x);
        forall y ensures multiset(r[1..])[y] == if p(y) then multiset(s[1..])[y] else 0 {
          assert multiset(r)[y] == multiset{x}[y] + multiset(r[1..])[y];
          assert multiset(s)[y] == multiset{x}[y] + multiset(s[1..])[y];
        }
        FilterUnique(s[1..], p, r[1..]);
      } else {
        assert IsSubsequence(r, s[1..]);
        SubsequenceLength(r, s[1..]);
        InSubsequence(r, s[1..], x);
        if p(x) {
          // `r` keeps every copy of `x` in `s`, but draws only from `s[1..]`.
          assert multiset(r)[x] == multiset(s)[x] == multiset(s[1..])[x] + 1;
          SubsequenceCount(r, s[1..], x);
          assert false;
        }
        forall y ensures multiset(r)[y] == if p(y) then multiset(s[1..])[y] else 0 {
          assert multiset(s)[y] == multiset{x}[y] + multiset(s[1..])[y];
        }
        FilterUnique(s[1..], p, r);
      }
    }
  }

  /** A subsequence of `s` is a subsequence of `[x] + s`. */
  lemma SubsequenceOfCons<T>(r: seq<T>, s: seq<T>, x: T)
    requires IsSubsequence(r, s)
    ensures IsSubsequence(r, [x] + s)
  {
    assert ([x] + s)[1..] == s;
  }

  /** An element of a subsequence is an element of the sequence. */
  lemma {:induction false} InSubsequence<T>(r: seq<T>, s: seq<T>, x: T)
    requires IsSubsequence(r, s)
    ensures x in r ==> x in s
  {
    if r != [] {
      if r[0] == s[0] && IsSubsequence(r[1..], s[1..]) {
        InSubsequence(r[1..], s[1..], x);
        assert r == [r[0]] + r[1..];
      } else {
        InSubsequence(r, s[1..], x);
      }
    }
  }

  /** A subsequence has no more copies of any element than the sequence. */
  lemma {:induction false} SubsequenceCount<T>(r: seq<T>, s: seq<T>, x: T)
    requires IsSubsequence(r, s)
    ensures multiset(r)[x] <= multiset(s)[x]
  {
    if r != [] {
      assert s == [s[0]] + s[1..];
      if r[0] == s[0] && IsSubsequence(r[1..], s[1..]) {
        assert r == [r[0]] + r[1..];
        SubsequenceCount(r[1..], s[1..], x);
      } else {
        SubsequenceCount(r, s[1..], x);
      }
    }
  }

  /** Changing elements without changing which of them satisfy `p` keeps the first match. */
  lemma {:induction false} FirstIndexStable<T>(s: seq<T>, t: seq<T>, p: T -> bool)
    requires |s| == |t|
    requires forall j :: 0 <= j < |s| ==> p(s[j]) == p(t[j])
    ensures FirstIndex(s, p) == FirstIndex(t, p)
  {
    if |s| > 0 && !p(s[0]) {
      FirstIndexStable(s[1..], t[1..], p);
    }
  }

  /** Appending an element never moves an existing first match. */
  lemma {:induction false} FirstIndexAppend<T>(s: seq<T>, x: T, p: T -> bool)
    ensures FirstIndex(s + [x], p) ==
      if FirstIndex(s, p).Some? then FirstIndex(s, p)
      else if p(x) then Some(|s|)
      else None
  {
    if |s| > 0 && !p(s[0]) {
      assert (s + [x])[1..] == s[1..] + [x];
      FirstIndexAppend(s[1..], x, p);
    }
  }
}
