/** Order-preserving selection from a sequence: the shape of each filtering
    stage of the listing, and of what deletion leaves behind. */
module Subsequences {

  /** The elements of `s` that satisfy `p`, in their order in `s`. */
  function Filter<T>(s: seq<T>, p: T -> bool): seq<T>
    decreases |s|
  {
    if s == [] then []
    else Filter(s[..|s| - 1], p) + (if p(s[|s| - 1]) then [s[|s| - 1]] else [])
  }

  /** `r` can be obtained from `s` by dropping elements, without reordering. */
  predicate IsSubsequence<T(==)>(r: seq<T>, s: seq<T>)
    decreases |s|
  {
    if r == [] then true
    else if s == [] then false
    else (r[|r| - 1] == s[|s| - 1] && IsSubsequence(r[..|r| - 1], s[..|s| - 1]))
         || IsSubsequence(r, s[..|s| - 1])
  }

  lemma {:induction false} SubsequenceReflexive<T>(s: seq<T>)
    ensures IsSubsequence(s, s)
    decreases |s|
  {
    if s != [] {
      SubsequenceReflexive(s[..|s| - 1]);
    }
  }

  /** Removing the element at index i keeps the rest in order. */
  lemma {:induction false} RemoveAtIsSubsequence<T>(s: seq<T>, i: nat)
    requires i < |s|
    ensures IsSubsequence(s[..i] + s[i + 1..], s)
    decreases |s|
  {
    var r := s[..i] + s[i + 1..];
    if i == |s| - 1 {
      assert r == s[..|s| - 1];
      SubsequenceReflexive(r);
    } else {
      var s' := s[..|s| - 1];
      assert r[..|r| - 1] == s'[..i] + s'[i + 1..];
      RemoveAtIsSubsequence(s', i);
    }
  }

  /** Filtering keeps the input's order. */
  lemma {:induction false} FilterIsSubsequence<T>(s: seq<T>, p: T -> bool)
    ensures IsSubsequence(Filter(s, p), s)
    decreases |s|
  {
    if s != [] {
      var s' := s[..|s| - 1];
      var r := Filter(s, p);
      FilterIsSubsequence(s', p);
      if p(s[|s| - 1]) {
        assert r[..|r| - 1] == Filter(s', p);
      } else {
        assert r == Filter(s', p);
      }
    }
  }

  /** Filtering keeps exactly the occurrences of the elements satisfying `p`:
      every survivor satisfies `p`, and every element satisfying `p` survives
      as often as it occurs. */
  lemma {:induction false} FilterCounts<T>(s: seq<T>, p: T -> bool)
    ensures forall x :: multiset(Filter(s, p))[x] == if p(x) then multiset(s)[x] else 0
    decreases |s|
  {
    if s != [] {
      var s' := s[..|s| - 1];
      FilterCounts(s', p);
      assert s == s' + [s[|s| - 1]];
    }
  }

  /** The same lemma, read as a statement about membership. */
  lemma FilterMembers<T>(s: seq<T>, p: T -> bool)
    ensures forall x :: x in Filter(s, p) <==> x in s && p(x)
  {
  }

  /** The filtering loop each stage of the listing runs: walk the input once,
      appending every element that passes the test. */
  method Keep<T>(s: seq<T>, p: T -> bool) returns (r: seq<T>)
    ensures r == Filter(s, p)
    ensures IsSubsequence(r, s)
    ensures forall x :: x in r <==> x in s && p(x)
  {
    r := [];
    var i := 0;
    while i < |s|
      invariant 0 <= i <= |s|
      invariant r == Filter(s[..i], p)
    {
      assert s[..i + 1][..i] == s[..i];
      if p(s[i]) {
        r := r + [s[i]];
      }
      i := i + 1;
    }
    assert s[..|s|] == s;
    FilterIsSubsequence(s, p);
    FilterMembers(s, p);
  }
}
