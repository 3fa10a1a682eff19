/** The sort stage of the listing: a stable ascending sort of tasks on one
    timestamp field, compared as strings, with an unset timestamp taking the
    sentinel key. */
module StableSort {
  import opened TaskModel
  import opened LexOrder

  /** The key a task sorts by: the field's value, or the sentinel when unset. */
  function SortKey(t: Task, field: SortField): Timestamp {
    match Stamp(t, field)
    case Some(v) => v
    case None => Sentinel
  }

  /** Keys never decrease from left to right. */
  predicate Sorted(s: seq<Task>, field: SortField) {
    forall i, j :: 0 <= i < j < |s| ==> LexLe(SortKey(s[i], field), SortKey(s[j], field))
  }

  /** The tasks of `s` whose key is `k`, in their order in `s`. A sort is
      stable when it leaves every such run as it was. */
  function WithKey(s: seq<Task>, field: SortField, k: Timestamp): seq<Task>
    decreases |s|
  {
    if s == [] then []
    else (if SortKey(s[0], field) == k then [s[0]] else []) + WithKey(s[1..], field, k)
  }

  /** `x` placed in the sorted `s` after every task whose key is not above its own. */
  function Insert(s: seq<Task>, x: Task, field: SortField): seq<Task>
    decreases |s|
  {
    if s == [] then [x]
    else if !LexLe(SortKey(s[0], field), SortKey(x, field)) then [x] + s
    else [s[0]] + Insert(s[1..], x, field)
  }

  /** The reference stable sort: insert the tasks one by one, in input order. */
  function SortSpec(s: seq<Task>, field: SortField): seq<Task>
    decreases |s|
  {
    if s == [] then []
    else Insert(SortSpec(s[..|s| - 1], field), s[|s| - 1], field)
  }

  lemma {:induction false} WithKeyAppend(a: seq<Task>, b: seq<Task>, field: SortField, k: Timestamp)
    ensures WithKey(a + b, field, k) == WithKey(a, field, k) + WithKey(b, field, k)
    decreases |a|
  {
    if a == [] {
      assert a + b == b;
    } else {
      assert (a + b)[0] == a[0] && (a + b)[1..] == a[1..] + b;
      WithKeyAppend(a[1..], b, field, k);
    }
  }

  lemma SortedTail(s: seq<Task>, field: SortField)
    requires s != [] && Sorted(s, field)
    ensures Sorted(s[1..], field)
  {
  }

  /** In a sorted sequence whose first key is strictly above k, no key is k. */
  lemma {:induction false} NoKeyBelowFirst(s: seq<Task>, field: SortField, k: Timestamp)
    requires s != [] && Sorted(s, field)
    requires !LexLe(SortKey(s[0], field), k)
    ensures WithKey(s, field, k) == []
    decreases |s|
  {
    if SortKey(s[0], field) == k {
      LexLeReflexive(k);
    }
    if |s| > 1 {
      SortedTail(s, field);
      if LexLe(SortKey(s[1], field), k) {
        LexLeTransitive(SortKey(s[0], field), SortKey(s[1], field), k);
      }
      NoKeyBelowFirst(s[1..], field, k);
    }
  }

  /** Inserting adds exactly x. */
  lemma {:induction false} InsertCounts(s: seq<Task>, x: Task, field: SortField)
    ensures multiset(Insert(s, x, field)) == multiset(s) + multiset{x}
    decreases |s|
  {
    if s != [] && LexLe(SortKey(s[0], field), SortKey(x, field)) {
      InsertCounts(s[1..], x, field);
      assert s == [s[0]] + s[1..];
    }
  }

  /** A task whose key is below every key of a sorted sequence can go in front. */
  lemma SortedCons(a: Task, t: seq<Task>, field: SortField)
    requires Sorted(t, field)
    requires forall e :: e in t ==> LexLe(SortKey(a, field), SortKey(e, field))
    ensures Sorted([a] + t, field)
  {
  }

  lemma {:induction false} InsertSorted(s: seq<Task>, x: Task, field: SortField)
    requires Sorted(s, field)
    ensures Sorted(Insert(s, x, field), field)
    decreases |s|
  {
    if s != [] {
      var kx, k0 := SortKey(x, field), SortKey(s[0], field);
      if !LexLe(k0, kx) {
        LexLeTotal(k0, kx);
        forall e | e in s ensures LexLe(kx, SortKey(e, field)) {
          var m :| 0 <= m < |s| && s[m] == e;
          if m > 0 {
            LexLeTransitive(kx, k0, SortKey(e, field));
          }
        }
        SortedCons(x, s, field);
      } else {
        SortedTail(s, field);
        InsertSorted(s[1..], x, field);
        InsertCounts(s[1..], x, field);
        var t := Insert(s[1..], x, field);
        forall e | e in t ensures LexLe(k0, SortKey(e, field)) {
          assert e in multiset(t);
          if e != x {
            assert e in s[1..];
            var m :| 0 <= m < |s[1..]| && s[1..][m] == e;
            assert s[m + 1] == e;
          }
        }
        SortedCons(s[0], t, field);
      }
    }
  }

  /** Inserting x appends it to the run of its own key and leaves every other
      run alone. */
  lemma {:induction false} InsertWithKey(s: seq<Task>, x: Task, field: SortField, k: Timestamp)
    requires Sorted(s, field)
    ensures WithKey(Insert(s, x, field), field, k)
         == WithKey(s, field, k) + (if SortKey(x, field) == k then [x] else [])
    decreases |s|
  {
    if s != [] {
      var kx, k0 := SortKey(x, field), SortKey(s[0], field);
      var mine := if kx == k then [x] else [];
      if !LexLe(k0, kx) {
        assert ([x] + s)[0] == x && ([x] + s)[1..] == s;
        assert WithKey([x] + s, field, k) == mine + WithKey(s, field, k);
        if kx == k {
          NoKeyBelowFirst(s, field, k);
        }
      } else {
        var t := Insert(s[1..], x, field);
        SortedTail(s, field);
        InsertWithKey(s[1..], x, field, k);
        assert ([s[0]] + t)[0] == s[0] && ([s[0]] + t)[1..] == t;
        var head := if k0 == k then [s[0]] else [];
        assert WithKey([s[0]] + t, field, k) == head + WithKey(t, field, k);
        assert WithKey(s, field, k) == head + WithKey(s[1..], field, k);
      }
    }
  }

  /** The reference sort orders by key, is a permutation of its input, and
      is stable: for every key, the tasks carrying it come out in input order. */
  lemma {:induction false} SortSpecCorrect(s: seq<Task>, field: SortField)
    ensures Sorted(SortSpec(s, field), field)
    ensures multiset(SortSpec(s, field)) == multiset(s)
    ensures forall k :: WithKey(SortSpec(s, field), field, k) == WithKey(s, field, k)
    decreases |s|
  {
    if s != [] {
      var s', x := s[..|s| - 1], s[|s| - 1];
      SortSpecCorrect(s', field);
      InsertSorted(SortSpec(s', field), x, field);
      InsertCounts(SortSpec(s', field), x, field);
      assert s == s' + [x];
      forall k ensures WithKey(SortSpec(s, field), field, k) == WithKey(s, field, k) {
        InsertWithKey(SortSpec(s', field), x, field, k);
        WithKeyAppend(s', [x], field, k);
      }
    }
  }

  /** A task with the field unset sorts no later than one holding a real
      timestamp in that field. */
  lemma UnsetSortsFirst(t: Task, u: Task, field: SortField)
    requires Stamp(t, field).None?
    requires Stamp(u, field).Some? && IsTimestamp(Stamp(u, field).value)
    ensures LexLe(SortKey(t, field), SortKey(u, field))
  {
    var v := Stamp(u, field).value;
    forall i | 0 <= i < |Sentinel| ensures Sentinel[i] <= v[i] {
      assert if Sentinel[i] == '0' then '0' <= v[i] <= '9' else v[i] == Sentinel[i];
    }
    LexLePointwise(Sentinel, v);
  }

  /** Stepping past a task whose key is not above x's does not change where x goes. */
  lemma InsertStep(s: seq<Task>, x: Task, field: SortField, j: nat)
    requires j < |s| && LexLe(SortKey(s[j], field), SortKey(x, field))
    ensures s[..j] + Insert(s[j..], x, field) == s[..j + 1] + Insert(s[j + 1..], x, field)
  {
  }

  /** x goes right before the first task whose key is above its own. */
  lemma InsertHere(s: seq<Task>, x: Task, field: SortField, j: nat)
    requires j <= |s|
    requires j < |s| ==> !LexLe(SortKey(s[j], field), SortKey(x, field))
    ensures Insert(s[j..], x, field) == [x] + s[j..]
  {
  }

  /** One step of the sort: scan the placed tasks for the first whose key is
      above x's and put x just before it. */
  method InsertTask(sorted: seq<Task>, x: Task, field: SortField) returns (r: seq<Task>)
    ensures r == Insert(sorted, x, field)
  {
    var j := 0;
    assert sorted[..0] == [] && sorted[0..] == sorted;
    while j < |sorted| && LexLe(SortKey(sorted[j], field), SortKey(x, field))
      invariant 0 <= j <= |sorted|
      invariant Insert(sorted, x, field) == sorted[..j] + Insert(sorted[j..], x, field)
    {
      InsertStep(sorted, x, field, j);
      j := j + 1;
    }
    InsertHere(sorted, x, field, j);
    r := sorted[..j] + [x] + sorted[j..];
  }

  /** The in-place sort of the listing, done by insertion: each task goes
      after every task already placed whose key is not above its own. */
  method SortTasks(tasks: seq<Task>, field: SortField) returns (sorted: seq<Task>)
    ensures sorted == SortSpec(tasks, field)
    ensures Sorted(sorted, field)
    ensures multiset(sorted) == multiset(tasks)
    ensures forall k :: WithKey(sorted, field, k) == WithKey(tasks, field, k)
  {
    sorted := [];
    var i := 0;
    while i < |tasks|
      invariant 0 <= i <= |tasks|
      invariant sorted == SortSpec(tasks[..i], field)
    {
      assert tasks[..i + 1][..i] == tasks[..i];
      sorted := InsertTask(sorted, tasks[i], field);
      i := i + 1;
    }
    assert tasks[..|tasks|] == tasks;
    SortSpecCorrect(tasks, field);
  }
}
