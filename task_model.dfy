/** The task record of the task store, its timestamps, and the two in-place
    edits the store applies to a single record: a status transition and a
    title/description update. */
module TaskModel {

  datatype Option<+T> = None | Some(value: T)

  datatype Result<+T, +E> = Success(value: T) | Failure(error: E)

  /** A timestamp as the store writes it: "YYYY-MM-DD HH:MM". */
  type Timestamp = string

  /** The key an unset timestamp takes when tasks are sorted by it. It is also
      the shape of every timestamp, with each digit written as '0'. */
  const Sentinel: Timestamp := "0000-00-00 00:00"

  /** A string of the shape "YYYY-MM-DD HH:MM": a digit wherever the sentinel
      has a '0', the sentinel's own separator everywhere else. */
  predicate IsTimestamp(s: string) {
    |s| == |Sentinel| &&
    forall i :: 0 <= i < |s| ==>
      if Sentinel[i] == '0' then '0' <= s[i] <= '9' else s[i] == Sentinel[i]
  }

  datatype Status = Todo | InProgress | Done

  /** The three timestamp fields a listing can be sorted by. */
  datatype SortField = CreatedAt | StartedAt | FinishedAt

  datatype Task = Task(
    id: int,
    title: string,
    desc: string,
    status: Status,
    tags: seq<string>,
    createdAt: Option<Timestamp>,
    startedAt: Option<Timestamp>,
    finishedAt: Option<Timestamp>)

  /** The timestamp field named by `field`. */
  function Stamp(t: Task, field: SortField): Option<Timestamp> {
    match field
    case CreatedAt => t.createdAt
    case StartedAt => t.startedAt
    case FinishedAt => t.finishedAt
  }

  /** A freshly constructed task that has been given its id. */
  function NewRecord(id: int, title: string, desc: string, tags: seq<string>, now: Timestamp): (t: Task)
    ensures t.id == id && t.title == title && t.desc == desc && t.tags == tags
    ensures t.status == Todo && t.createdAt == Some(now)
    ensures t.startedAt == None && t.finishedAt == None
  {
    Task(id, title, desc, Todo, tags, Some(now), None, None)
  }

  /** The edit update_status makes to the task it finds: "start" and "finish"
      set the status and their own timestamp, any other action changes nothing. */
  function Transition(t: Task, action: string, now: Timestamp): Task {
    if action == "start" then t.(status := InProgress, startedAt := Some(now))
    else if action == "finish" then t.(status := Done, finishedAt := Some(now))
    else t
  }

  /** The edit update_task makes to the task it finds: an empty title or
      description stands for "not given" and leaves that field alone. */
  function Edit(t: Task, title: string, desc: string): Task {
    t.(title := if title != "" then title else t.title,
       desc := if desc != "" then desc else t.desc)
  }

  /** What each action does to a task, whatever its current status. */
  lemma TransitionEffects(t: Task, action: string, now: Timestamp)
    ensures var u := Transition(t, action, now);
      u.id == t.id && u.title == t.title && u.desc == t.desc &&
      u.tags == t.tags && u.createdAt == t.createdAt
    ensures var u := Transition(t, action, now);
      action == "start" ==>
        u.status == InProgress && u.startedAt == Some(now) && u.finishedAt == t.finishedAt
    ensures var u := Transition(t, action, now);
      action == "finish" ==>
        u.status == Done && u.finishedAt == Some(now) && u.startedAt == t.startedAt
    ensures action != "start" && action != "finish" ==> Transition(t, action, now) == t
  {
  }

  /** No transition clears a timestamp that was set. */
  lemma TransitionKeepsTimestamps(t: Task, action: string, now: Timestamp)
    ensures t.startedAt.Some? ==> Transition(t, action, now).startedAt.Some?
    ensures t.finishedAt.Some? ==> Transition(t, action, now).finishedAt.Some?
  {
  }

  /** "start" followed by "finish" ends in Done with both timestamps set, and
      the finish leaves the start time alone. */
  lemma StartThenFinish(t: Task, now1: Timestamp, now2: Timestamp)
    ensures var u := Transition(Transition(t, "start", now1), "finish", now2);
      u.status == Done && u.startedAt == Some(now1) && u.finishedAt == Some(now2)
  {
  }

  /** Backward transitions are accepted: starting a finished task puts it back
      in progress and keeps its finish time. */
  lemma RestartFinishedTask(t: Task, now: Timestamp)
    requires t.status == Done
    ensures var u := Transition(t, "start", now);
      u.status == InProgress && u.startedAt == Some(now) && u.finishedAt == t.finishedAt
  {
  }

  /** update_task's edit: a non-empty value replaces its field, an empty one
      keeps it, and no other field changes. */
  lemma EditEffects(t: Task, title: string, desc: string)
    ensures var u := Edit(t, title, desc);
      u.title == (if title == "" then t.title else title) &&
      u.desc == (if desc == "" then t.desc else desc)
    ensures var u := Edit(t, title, desc);
      u.id == t.id && u.status == t.status && u.tags == t.tags &&
      u.createdAt == t.createdAt && u.startedAt == t.startedAt && u.finishedAt == t.finishedAt
    ensures title == "" && desc == "" ==> Edit(t, title, desc) == t
  {
  }
}
