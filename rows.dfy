/** What a filtered `load` returns and what `pop()` takes from it: the query
    keeps the rows that satisfy the filter, in table order, and `pop()`
    removes the last of them. */
module Rows {
  import opened Wrappers

  /** The rows of `s` that satisfy `p`, in the order of `s`. */
  function Filter<T(!new)>(s: seq<T>, p: T -> bool): (r: seq<T>)
    ensures |r| <= |s|
    ensures forall x :: x in r <==> x in s && p(x)
  {
    if s == [] then []
    else Filter(s[..|s| - 1], p) + (if p(s[|s| - 1]) then [s[|s| - 1]] else [])
  }

  /** Reference definition: the positions in `s` of the elements that
      satisfy `p`, in increasing order (`FilterIndicesOrdered`). */
  function FilterIndices<T>(s: seq<T>, p: T -> bool): (ix: seq<nat>)
    ensures forall k :: 0 <= k < |ix| ==> ix[k] < |s|
  {
    if s == [] then []
    else FilterIndices(s[..|s| - 1], p) + (if p(s[|s| - 1]) then [|s| - 1] else [])
  }

  /** The listed positions increase, each holds an element satisfying `p`,
      and no satisfying position is missing. */
  lemma {:induction false} FilterIndicesOrdered<T>(s: seq<T>, p: T -> bool)
    ensures forall k :: 0 <= k < |FilterIndices(s, p)| ==> p(s[FilterIndices(s, p)[k]])
    ensures forall k, l :: 0 <= k < l < |FilterIndices(s, p)| ==> FilterIndices(s, p)[k] < FilterIndices(s, p)[l]
    ensures forall j :: 0 <= j < |s| && p(s[j]) ==> j in FilterIndices(s, p)
  {
    if s != [] {
      var init, n := s[..|s| - 1], |s| - 1;
      FilterIndicesOrdered(init, p);
      var rest := FilterIndices(init, p);
      var tail: seq<nat> := if p(s[n]) then [n] else [];
      var ix := FilterIndices(s, p);
      assert ix == rest + tail;
      forall k | 0 <= k < |ix| ensures p(s[ix[k]]) {
        if k < |rest| {
          assert ix[k] == rest[k] && s[rest[k]] == init[rest[k]];
          assert p(init[rest[k]]);
        } else {
          assert tail != [] && ix[k] == n;
        }
      }
      forall j | 0 <= j < |s| && p(s[j]) ensures j in ix {
        if j < n {
          assert init[j] == s[j];
          assert j in rest;
        } else {
          assert ix[|ix| - 1] == n;
        }
      }
    }
  }

  /** A filtered load is the table read at those positions: it keeps the
      rows that satisfy the filter in table order. */
  lemma {:induction false} FilterInOrder<T(!new)>(s: seq<T>, p: T -> bool)
    ensures |Filter(s, p)| == |FilterIndices(s, p)|
    ensures forall k :: 0 <= k < |Filter(s, p)| ==> Filter(s, p)[k] == s[FilterIndices(s, p)[k]]
  {
    if s != [] {
      var init, n := s[..|s| - 1], |s| - 1;
      FilterInOrder(init, p);
      var f, ix := Filter(init, p), FilterIndices(init, p);
      var r, rx := Filter(s, p), FilterIndices(s, p);
      forall k | 0 <= k < |f| ensures r[k] == s[rx[k]] {
        assert r[k] == f[k] && rx[k] == ix[k];
        assert s[ix[k]] == init[ix[k]];
      }
    }
  }

  /** `Vec::pop`: the last element, if any. */
  function Pop<T>(s: seq<T>): (r: Option<T>)
    ensures r == None <==> s == []
    ensures r.Some? ==> r.value == s[|s| - 1]
  {
    if s == [] then None else Some(s[|s| - 1])
  }

  /** Reference definition: the index of the last element of `s` that
      satisfies `p`. */
  function LastIndex<T>(s: seq<T>, p: T -> bool): (r: Option<nat>)
    ensures r.Some? ==> r.value < |s| && p(s[r.value])
    ensures r.Some? ==> forall j :: r.value < j < |s| ==> !p(s[j])
    ensures r.None? ==> forall j :: 0 <= j < |s| ==> !p(s[j])
  {
    if s == [] then None
    else if p(s[|s| - 1]) then Some(|s| - 1)
    else LastIndex(s[..|s| - 1], p)
  }

  /** Popping a filtered load gives the last row of the table that
      satisfies the filter, and nothing when no row does. */
  lemma {:induction false} PopFilter<T(!new)>(s: seq<T>, p: T -> bool)
    ensures Pop(Filter(s, p)) == (match LastIndex(s, p)
                                  case Some(i) => Some(s[i])
                                  case None => None)
  {
    if s != [] && !p(s[|s| - 1]) {
      PopFilter(s[..|s| - 1], p);
    }
  }

  /** Appending a row appends it to every filtered load it satisfies. */
  lemma FilterAppend<T(!new)>(s: seq<T>, x: T, p: T -> bool)
    ensures Filter(s + [x], p) == Filter(s, p) + (if p(x) then [x] else [])
  {
    assert (s + [x])[..|s|] == s;
  }

  /** The filter keeps every copy of a row it accepts and drops every copy
      of one it rejects. */
  lemma {:induction false} FilterMultiplicity<T(!new)>(s: seq<T>, p: T -> bool, x: T)
    ensures multiset(Filter(s, p))[x] == if p(x) then multiset(s)[x] else 0
  {
    if s != [] {
      var init := s[..|s| - 1];
      FilterMultiplicity(init, p, x);
      assert s == init + [s[|s| - 1]];
    }
  }
}
