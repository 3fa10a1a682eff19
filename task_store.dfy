/** The task store's public operations. Each one loads the stored tasks,
    works on them, and may write the whole collection back. Here the loaded
    collection is the `tasks` argument and the written-back collection is the
    returned `stored` sequence. */
module TaskStore {
  import opened TaskModel
  import opened Subsequences
  import opened StableSort

  /** No two stored tasks share an id. */
  predicate UniqueIds(tasks: seq<Task>) {
    forall i, j :: 0 <= i < j < |tasks| ==> tasks[i].id != tasks[j].id
  }

  /** Some stored task has this id. */
  predicate HasId(tasks: seq<Task>, id: int) {
    exists i :: 0 <= i < |tasks| && tasks[i].id == id
  }

  // ---------------------------------------------------------------- lookup

  /** The index of the first task with this id, as found by a front-to-back scan. */
  function FirstIndex(tasks: seq<Task>, id: int): (r: Option<nat>)
    ensures r.Some? ==> r.value < |tasks| && tasks[r.value].id == id
    ensures r.Some? ==> forall j :: 0 <= j < r.value ==> tasks[j].id != id
    ensures r.None? <==> !HasId(tasks, id)
    decreases |tasks|
  {
    if tasks == [] then None
    else if tasks[0].id == id then Some(0)
    else
      match FirstIndex(tasks[1..], id)
      case None => None
      case Some(i) => Some(i + 1)
  }

  /** The scan every operation starts with: stop at the first task with this id. */
  method FindFirst(tasks: seq<Task>, id: int) returns (r: Option<nat>)
    ensures r == FirstIndex(tasks, id)
  {
    var i := 0;
    while i < |tasks|
      invariant 0 <= i <= |tasks|
      invariant forall j :: 0 <= j < i ==> tasks[j].id != id
    {
      if tasks[i].id == id {
        return Some(i);
      }
      i := i + 1;
    }
    return None;
  }

  /** What view_task returns: nothing for a non-positive id, otherwise the
      first task with that id, if any. */
  function Lookup(tasks: seq<Task>, id: int): Option<Task> {
    if id <= 0 then None
    else
      match FirstIndex(tasks, id)
      case None => None
      case Some(i) => Some(tasks[i])
  }

  method ViewTask(tasks: seq<Task>, id: int) returns (r: Option<Task>)
    ensures r == Lookup(tasks, id)
    ensures id <= 0 ==> r == None
    ensures id > 0 ==> (r.None? <==> !HasId(tasks, id))
    ensures r.Some? ==> r.value.id == id
    ensures r.Some? ==> exists i :: 0 <= i < |tasks| && tasks[i] == r.value &&
                          forall j :: 0 <= j < i ==> tasks[j].id != id
  {
    if id <= 0 {
      return None;
    }
    var i := FindFirst(tasks, id);
    match i
    case None => r := None;
    case Some(k) => r := Some(tasks[k]);
  }

  // ------------------------------------------------------------- new_task

  /** The largest id in a non-empty store. */
  function MaxId(tasks: seq<Task>): (m: int)
    requires tasks != []
    ensures forall i :: 0 <= i < |tasks| ==> tasks[i].id <= m
    ensures exists i :: 0 <= i < |tasks| && tasks[i].id == m
    decreases |tasks|
  {
    if |tasks| == 1 then tasks[0].id
    else
      var m := MaxId(tasks[..|tasks| - 1]);
      if tasks[|tasks| - 1].id > m then tasks[|tasks| - 1].id else m
  }

  /** The id new_task gives: one above the largest stored id, or 1 for an
      empty store. */
  function NextId(tasks: seq<Task>): int {
    if tasks == [] then 1 else MaxId(tasks) + 1
  }

  /** The store after new_task: the new task appended at the end. */
  function Created(tasks: seq<Task>, title: string, desc: string, tags: seq<string>, now: Timestamp): seq<Task> {
    tasks + [NewRecord(NextId(tasks), title, desc, tags, now)]
  }

  method NewTask(tasks: seq<Task>, title: string, desc: string, tags: seq<string>, now: Timestamp)
    returns (stored: seq<Task>)
    ensures stored == Created(tasks, title, desc, tags, now)
    ensures |stored| == |tasks| + 1 && stored[..|tasks|] == tasks
    ensures forall i :: 0 <= i < |tasks| ==> tasks[i].id < stored[|tasks|].id
  {
    var highest := 0;
    if |tasks| > 0 {
      highest := tasks[0].id;
      var i := 1;
      while i < |tasks|
        invariant 1 <= i <= |tasks|
        invariant forall j :: 0 <= j < i ==> tasks[j].id <= highest
        invariant exists j :: 0 <= j < i && tasks[j].id == highest
      {
        if tasks[i].id > highest {
          highest := tasks[i].id;
        }
        i := i + 1;
      }
    }
    var task := NewRecord(highest + 1, title, desc, tags, now);
    stored := tasks + [task];
    assert stored[..|tasks|] == tasks;
  }

  /** The new id is above every stored id, is 1 for an empty store and
      otherwise one above an id that is stored. */
  lemma NextIdAllocates(tasks: seq<Task>)
    ensures forall i :: 0 <= i < |tasks| ==> tasks[i].id < NextId(tasks)
    ensures tasks == [] ==> NextId(tasks) == 1
    ensures tasks != [] ==> HasId(tasks, NextId(tasks) - 1)
  {
  }

  /** new_task appends one task and keeps every earlier one, and the new task
      is a fresh "todo" task with no start or finish time. */
  lemma CreatedAppendsTodo(tasks: seq<Task>, title: string, desc: string, tags: seq<string>, now: Timestamp)
    ensures var s := Created(tasks, title, desc, tags, now);
      |s| == |tasks| + 1 && s[..|tasks|] == tasks &&
      s[|tasks|].id == NextId(tasks) && s[|tasks|].status == Todo &&
      s[|tasks|].title == title && s[|tasks|].desc == desc && s[|tasks|].tags == tags &&
      s[|tasks|].createdAt == Some(now) &&
      s[|tasks|].startedAt == None && s[|tasks|].finishedAt == None
  {
  }

  /** new_task keeps ids unique. */
  lemma CreatedKeepsIdsUnique(tasks: seq<Task>, title: string, desc: string, tags: seq<string>, now: Timestamp)
    requires UniqueIds(tasks)
    ensures UniqueIds(Created(tasks, title, desc, tags, now))
  {
  }

  /** Creating tasks one after another, with no deletion in between, numbers
      them 1, 2, 3, ... without gaps. */
  lemma {:induction false} CreatedExtendsNumbering(tasks: seq<Task>, title: string, desc: string, tags: seq<string>, now: Timestamp)
    requires forall i :: 0 <= i < |tasks| ==> tasks[i].id == i + 1
    ensures var s := Created(tasks, title, desc, tags, now);
      forall i :: 0 <= i < |s| ==> s[i].id == i + 1
  {
  }

  /** Ids are computed from the tasks stored now. On a store numbered 1..n
      without gaps, deleting task n and creating a task gives the new task
      the id n again. */
  lemma DeletingTopOfNumberingReusesId(tasks: seq<Task>, title: string, desc: string, tags: seq<string>, now: Timestamp)
    requires tasks != []
    requires forall i :: 0 <= i < |tasks| ==> tasks[i].id == i + 1
    ensures var s := Created(Deleted(tasks, |tasks|), title, desc, tags, now);
      |s| == |tasks| && s[|tasks| - 1].id == |tasks|
  {
    var n := |tasks|;
    assert tasks[n - 1].id == n;
    assert HasId(tasks, n);
    assert FirstIndex(tasks, n).value == n - 1;
    assert Deleted(tasks, n) == tasks[..n - 1];
    CreatedExtendsNumbering(tasks[..n - 1], title, desc, tags, now);
  }

  /** With unique ids, deleting the task with the largest id lets the next
      new task take an id no larger than the deleted one (1 when the store
      becomes empty). */
  lemma NextIdAfterDeletingTop(tasks: seq<Task>)
    requires tasks != [] && UniqueIds(tasks)
    ensures var d := Deleted(tasks, MaxId(tasks));
      d != [] ==> NextId(d) <= MaxId(tasks)
    ensures Deleted(tasks, MaxId(tasks)) == [] ==> NextId(Deleted(tasks, MaxId(tasks))) == 1
  {
    var m := MaxId(tasks);
    var d := Deleted(tasks, m);
    DeletedKeepsOthers(tasks, m);
    if d != [] {
      var k :| 0 <= k < |d| && d[k].id == MaxId(d);
      assert d[k] in d;
      var i := FirstIndex(tasks, m).value;
      assert d[k] in tasks by {
        if k < i {
          assert d[k] == tasks[k];
        } else {
          assert d[k] == tasks[k + 1];
        }
      }
    }
  }

  // ---------------------------------------------------------- delete_task

  /** The store after delete_task: the first task with the id taken out, or
      the same tasks when there is none. */
  function Deleted(tasks: seq<Task>, id: int): seq<Task> {
    match FirstIndex(tasks, id)
    case None => tasks
    case Some(i) => tasks[..i] + tasks[i + 1..]
  }

  /** delete_task. `saved` tells whether the store was written back. */
  method DeleteTask(tasks: seq<Task>, id: int) returns (stored: seq<Task>, saved: bool)
    ensures saved <==> HasId(tasks, id)
    ensures stored == Deleted(tasks, id)
    ensures !saved ==> stored == tasks
    ensures saved ==> |stored| == |tasks| - 1
  {
    var found := FindFirst(tasks, id);
    match found
    case None =>
      stored, saved := tasks, false;
    case Some(i) =>
      stored, saved := tasks[..i] + tasks[i + 1..], true;
  }

  /** Deleting an id no task has changes nothing (and nothing is written back). */
  lemma DeletedMissingKeepsStore(tasks: seq<Task>, id: int)
    requires !HasId(tasks, id)
    ensures Deleted(tasks, id) == tasks
  {
  }

  /** Deleting an existing id removes one task and keeps the others in
      their order. */
  lemma DeletedRemovesOne(tasks: seq<Task>, id: int)
    requires HasId(tasks, id)
    ensures |Deleted(tasks, id)| == |tasks| - 1
    ensures IsSubsequence(Deleted(tasks, id), tasks)
  {
    RemoveAtIsSubsequence(tasks, FirstIndex(tasks, id).value);
  }

  /** The task an existing id's deletion removes is one carrying that id. */
  lemma DeletedTaskHasId(tasks: seq<Task>, id: int)
    requires HasId(tasks, id)
    ensures exists t: Task :: t.id == id && multiset(Deleted(tasks, id)) + multiset{t} == multiset(tasks)
  {
    var i := FirstIndex(tasks, id).value;
    assert tasks == tasks[..i] + [tasks[i]] + tasks[i + 1..];
    assert multiset(tasks[..i] + tasks[i + 1..]) + multiset{tasks[i]} == multiset(tasks);
  }

  /** Where each remaining task sat before the removal at index i. */
  lemma RemovedAtIndices(tasks: seq<Task>, i: nat)
    requires i < |tasks|
    ensures var d := tasks[..i] + tasks[i + 1..];
      |d| == |tasks| - 1 &&
      (forall k :: 0 <= k < i ==> d[k] == tasks[k]) &&
      (forall k :: i <= k < |d| ==> d[k] == tasks[k + 1])
  {
  }

  /** With unique ids, deleting an id leaves no task with that id and keeps
      every task with another id. */
  lemma DeletedKeepsOthers(tasks: seq<Task>, id: int)
    requires UniqueIds(tasks)
    ensures forall t :: t in Deleted(tasks, id) ==> t.id != id
    ensures forall t :: t in tasks && t.id != id ==> t in Deleted(tasks, id)
    ensures UniqueIds(Deleted(tasks, id))
  {
    if HasId(tasks, id) {
      var i := FirstIndex(tasks, id).value;
      var d := Deleted(tasks, id);
      RemovedAtIndices(tasks, i);
      forall t | t in d ensures t.id != id {
        var k :| 0 <= k < |d| && d[k] == t;
        if k < i {
          assert tasks[k] == t;
        } else {
          assert tasks[k + 1] == t;
        }
      }
      forall t | t in tasks && t.id != id ensures t in d {
        var m :| 0 <= m < |tasks| && tasks[m] == t;
        if m < i {
          assert d[m] == t;
        } else {
          assert d[m - 1] == t;
        }
      }
      forall a, b | 0 <= a < b < |d| ensures d[a].id != d[b].id {
        var a' := if a < i then a else a + 1;
        var b' := if b < i then b else b + 1;
        assert d[a] == tasks[a'] && d[b] == tasks[b'] && a' < b';
      }
    }
  }

  // -------------------------------------------------------- update_status

  /** The store after update_status finds the id: the first task with it
      transitioned, everything else as it was. */
  function StatusUpdated(tasks: seq<Task>, id: int, action: string, now: Timestamp): seq<Task> {
    match FirstIndex(tasks, id)
    case None => tasks
    case Some(i) => tasks[i := Transition(tasks[i], action, now)]
  }

  /** update_status. The answer is None for a non-positive id (the store is
      not read), Some(false) when no task has the id, and Some(true) when a
      task was transitioned and the store written back; on every answer but
      Some(true) the store is left as it was. */
  method UpdateStatus(tasks: seq<Task>, id: int, action: string, now: Timestamp)
    returns (r: Option<bool>, stored: seq<Task>)
    ensures id <= 0 ==> r == None
    ensures id > 0 ==> r == Some(HasId(tasks, id))
    ensures stored == if id <= 0 then tasks else StatusUpdated(tasks, id, action, now)
    ensures r != Some(true) ==> stored == tasks
  {
    if id <= 0 {
      return None, tasks;
    }
    var found := FindFirst(tasks, id);
    match found
    case None =>
      r, stored := Some(false), tasks;
    case Some(i) =>
      var task := tasks[i];
      if action == "start" {
        task := task.(status := InProgress, startedAt := Some(now));
      } else if action == "finish" {
        task := task.(status := Done, finishedAt := Some(now));
      }
      r, stored := Some(true), tasks[i := task];
  }

  /** update_status changes the first task with the id, only as its
      transition says, and no other task. */
  lemma StatusUpdatedChangesOnlyMatch(tasks: seq<Task>, id: int, action: string, now: Timestamp)
    requires HasId(tasks, id)
    ensures var s := StatusUpdated(tasks, id, action, now);
      |s| == |tasks| &&
      exists i :: 0 <= i < |tasks| && tasks[i].id == id &&
        (forall j :: 0 <= j < i ==> tasks[j].id != id) &&
        s[i] == Transition(tasks[i], action, now) &&
        forall j :: 0 <= j < |tasks| && j != i ==> s[j] == tasks[j]
  {
  }

  /** Transitions never change ids, so unique ids stay unique. */
  lemma StatusUpdatedKeepsIds(tasks: seq<Task>, id: int, action: string, now: Timestamp)
    ensures var s := StatusUpdated(tasks, id, action, now);
      |s| == |tasks| && forall j :: 0 <= j < |s| ==> s[j].id == tasks[j].id
    ensures UniqueIds(tasks) ==> UniqueIds(StatusUpdated(tasks, id, action, now))
  {
  }

  // ---------------------------------------------------------- update_task

  datatype StoreError = NoTaskWithId(id: int)

  /** The store after update_task finds the id. */
  function Edited(tasks: seq<Task>, id: int, title: string, desc: string): seq<Task> {
    match FirstIndex(tasks, id)
    case None => tasks
    case Some(i) => tasks[i := Edit(tasks[i], title, desc)]
  }

  /** update_task: a missing id is an error and nothing is written back. */
  method UpdateTask(tasks: seq<Task>, id: int, title: string, desc: string)
    returns (r: Result<seq<Task>, StoreError>)
    ensures r.Failure? <==> !HasId(tasks, id)
    ensures r.Failure? ==> r.error == NoTaskWithId(id)
    ensures r.Success? ==> r.value == Edited(tasks, id, title, desc)
  {
    var found := FindFirst(tasks, id);
    match found
    case None =>
      r := Failure(NoTaskWithId(id));
    case Some(i) =>
      var task := tasks[i];
      if title != "" {
        task := task.(title := title);
      }
      if desc != "" {
        task := task.(desc := desc);
      }
      r := Success(tasks[i := task]);
  }

  /** update_task edits the first task with the id and no other task. */
  lemma EditedChangesOnlyMatch(tasks: seq<Task>, id: int, title: string, desc: string)
    requires HasId(tasks, id)
    ensures var s := Edited(tasks, id, title, desc);
      |s| == |tasks| &&
      exists i :: 0 <= i < |tasks| && tasks[i].id == id &&
        (forall j :: 0 <= j < i ==> tasks[j].id != id) &&
        s[i] == Edit(tasks[i], title, desc) &&
        forall j :: 0 <= j < |tasks| && j != i ==> s[j] == tasks[j]
  {
  }

  // ----------------------------------------------------------- list_tasks

  /** `needle` occurs in `hay` as a contiguous piece. */
  predicate Contains(hay: string, needle: string) {
    exists i :: 0 <= i <= |hay| - |needle| && OccursAt(hay, needle, i)
  }

  predicate OccursAt(hay: string, needle: string, i: nat)
    requires i + |needle| <= |hay|
  {
    hay[i..i + |needle|] == needle
  }

  /** The status stage's test: off when no status is given, otherwise status equality. */
  function StatusStage(status: Option<Status>): Task -> bool {
    (t: Task) => status.None? || t.status == status.value
  }

  /** The tag stage's test: off for an empty tag, otherwise tag membership. */
  function TagStage(tag: string): Task -> bool {
    (t: Task) => tag == "" || tag in t.tags
  }

  /** The search stage's test: off for an empty search string, otherwise a
      literal, case-sensitive occurrence in the title or the description. */
  function SearchStage(search: string): Task -> bool {
    (t: Task) => search == "" || Contains(t.title, search) || Contains(t.desc, search)
  }

  /** Whether a task passes all three stages. */
  function Selects(status: Option<Status>, tag: string, search: string): Task -> bool {
    (t: Task) => StatusStage(status)(t) && TagStage(tag)(t) && SearchStage(search)(t)
  }

  /** The three filtering stages, in their fixed order. */
  function Filtered(tasks: seq<Task>, status: Option<Status>, tag: string, search: string): seq<Task> {
    var a := if status.Some? then Filter(tasks, StatusStage(status)) else tasks;
    var b := if tag != "" then Filter(a, TagStage(tag)) else a;
    if search != "" then Filter(b, SearchStage(search)) else b
  }

  /** What list_tasks returns. */
  function Listed(tasks: seq<Task>, status: Option<Status>, tag: string, sort: Option<SortField>, search: string): seq<Task> {
    var f := Filtered(tasks, status, tag, search);
    if sort.Some? then SortSpec(f, sort.value) else f
  }

  method ListTasks(tasks: seq<Task>, status: Option<Status>, tag: string, sort: Option<SortField>, search: string)
    returns (result: seq<Task>)
    ensures result == Listed(tasks, status, tag, sort, search)
    ensures forall t :: t in result <==> t in tasks && Selects(status, tag, search)(t)
  {
    var selected := tasks;
    if status.Some? {
      selected := Keep(selected, StatusStage(status));
    }
    if tag != "" {
      selected := Keep(selected, TagStage(tag));
    }
    if search != "" {
      selected := Keep(selected, SearchStage(search));
    }
    if sort.Some? {
      selected := SortTasks(selected, sort.value);
    }
    result := selected;
    ListedMembers(tasks, status, tag, sort, search);
  }

  /** list_tasks returns a stored task exactly when it passes every filter
      that is on. */
  lemma ListedMembers(tasks: seq<Task>, status: Option<Status>, tag: string, sort: Option<SortField>, search: string)
    ensures forall t :: t in Listed(tasks, status, tag, sort, search) <==>
      t in tasks && Selects(status, tag, search)(t)
  {
    var r := Listed(tasks, status, tag, sort, search);
    ListedCounts(tasks, status, tag, sort, search);
    forall t ensures t in r <==> t in tasks && Selects(status, tag, search)(t) {
      assert t in r <==> multiset(r)[t] > 0;
      assert t in tasks <==> multiset(tasks)[t] > 0;
    }
  }

  /** Filtering by p and then by q is filtering once by "p and q". */
  lemma {:induction false} FilterTwice(s: seq<Task>, p: Task -> bool, q: Task -> bool, pq: Task -> bool)
    requires forall t :: pq(t) == (p(t) && q(t))
    ensures Filter(Filter(s, p), q) == Filter(s, pq)
    decreases |s|
  {
    if s != [] {
      var s', x := s[..|s| - 1], s[|s| - 1];
      FilterTwice(s', p, q, pq);
      var a := Filter(s', p);
      assert Filter(s, pq) == Filter(s', pq) + (if pq(x) then [x] else []);
      if p(x) {
        assert Filter(s, p) == a + [x];
        assert (a + [x])[..|a + [x]| - 1] == a;
        assert Filter(a + [x], q) == Filter(a, q) + (if q(x) then [x] else []);
      } else {
        assert Filter(s, p) == a;
      }
    }
  }

  /** A filter that passes everything keeps the sequence. */
  lemma {:induction false} FilterAll(s: seq<Task>, p: Task -> bool)
    requires forall t :: p(t)
    ensures Filter(s, p) == s
    decreases |s|
  {
    if s != [] {
      FilterAll(s[..|s| - 1], p);
      assert s == s[..|s| - 1] + [s[|s| - 1]];
    }
  }

  /** A stage that is skipped when it is off is the same as filtering by its
      test, since an off test passes everything. */
  lemma StageIsFilter(s: seq<Task>, on: bool, p: Task -> bool)
    requires !on ==> forall t :: p(t)
    ensures (if on then Filter(s, p) else s) == Filter(s, p)
  {
    if !on {
      FilterAll(s, p);
    }
  }

  /** The three stages together are one filter by `Selects`. */
  lemma FilteredIsOneFilter(tasks: seq<Task>, status: Option<Status>, tag: string, search: string)
    ensures Filtered(tasks, status, tag, search) == Filter(tasks, Selects(status, tag, search))
  {
    var ps, pt, pm := StatusStage(status), TagStage(tag), SearchStage(search);
    var pst: Task -> bool := (t: Task) => ps(t) && pt(t);
    var a := if status.Some? then Filter(tasks, ps) else tasks;
    var b := if tag != "" then Filter(a, pt) else a;
    StageIsFilter(tasks, status.Some?, ps);
    StageIsFilter(a, tag != "", pt);
    FilterTwice(tasks, ps, pt, pst);
    StageIsFilter(b, search != "", pm);
    FilterTwice(tasks, pst, pm, Selects(status, tag, search));
  }

  /** list_tasks returns exactly the stored tasks that pass every filter that
      is on, each as often as it is stored. */
  lemma ListedCounts(tasks: seq<Task>, status: Option<Status>, tag: string, sort: Option<SortField>, search: string)
    ensures forall t :: multiset(Listed(tasks, status, tag, sort, search))[t]
                     == if Selects(status, tag, search)(t) then multiset(tasks)[t] else 0
  {
    var p := Selects(status, tag, search);
    FilteredIsOneFilter(tasks, status, tag, search);
    FilterCounts(tasks, p);
    if sort.Some? {
      SortSpecCorrect(Filter(tasks, p), sort.value);
    }
  }

  /** Without a sort key list_tasks keeps the stored order; with one it orders
      by that key, unset keys first, and tasks with equal keys keep their
      stored order. */
  lemma ListedOrder(tasks: seq<Task>, status: Option<Status>, tag: string, sort: Option<SortField>, search: string)
    ensures sort.None? ==> IsSubsequence(Listed(tasks, status, tag, sort, search), tasks)
    ensures sort.Some? ==> Sorted(Listed(tasks, status, tag, sort, search), sort.value)
    ensures sort.Some? ==> forall k ::
      WithKey(Listed(tasks, status, tag, sort, search), sort.value, k)
        == WithKey(Filter(tasks, Selects(status, tag, search)), sort.value, k)
  {
    var p := Selects(status, tag, search);
    FilteredIsOneFilter(tasks, status, tag, search);
    if sort.Some? {
      SortSpecCorrect(Filter(tasks, p), sort.value);
    } else {
      FilterIsSubsequence(tasks, p);
    }
  }
}

/** A session against an empty store: two creates, a start, a listing by tag
    and a delete. */
module TaskSession {
  import opened TaskModel
  import opened Subsequences
  import opened TaskStore

  lemma {:induction false} CreateStartListDelete(now: Timestamp, later: Timestamp)
    ensures var s1 := Created([], "Buy milk", "2% milk", ["errand"], now);
      var s2 := Created(s1, "Write report", "Q3 summary", ["work"], now);
      var s3 := StatusUpdated(s2, 1, "start", later);
      var b := NewRecord(2, "Write report", "Q3 summary", ["work"], now);
      s2 == [NewRecord(1, "Buy milk", "2% milk", ["errand"], now), b] &&
      s3[0].status == InProgress && s3[0].startedAt == Some(later) &&
      Listed(s3, None, "work", None, "") == [b] &&
      Deleted(s3, 1) == [b]
  {
    var a := NewRecord(1, "Buy milk", "2% milk", ["errand"], now);
    var b := NewRecord(2, "Write report", "Q3 summary", ["work"], now);
    var s1 := Created([], "Buy milk", "2% milk", ["errand"], now);
    assert s1 == [a];
    assert MaxId(s1) == 1;
    var s2 := Created(s1, "Write report", "Q3 summary", ["work"], now);
    assert s2 == [a, b];
    assert FirstIndex(s2, 1) == Some(0);
    var a' := Transition(a, "start", later);
    var s3 := StatusUpdated(s2, 1, "start", later);
    assert s3 == [a', b];
    assert !TagStage("work")(a') by {
      assert a'.tags == ["errand"];
      assert "work" != "errand";
    }
    assert TagStage("work")(b);
    assert [a', b][..1] == [a'] && [a'][..0] == [];
    assert Filter([a'], TagStage("work")) == [];
    assert Filter([a', b], TagStage("work")) == [b];
    assert FirstIndex(s3, 1) == Some(0);
    assert [a', b][1..] == [b];
  }
}
