/**
 * The task data model: task status, tasks with nested subtasks, task lists,
 * the content equality the reconciler uses to decide whether an item changed,
 * and the request bodies sent to the remote service.
 */
module Tasks {
  import opened Builtins

  // ---------------------------------------------------------------------------
  // TaskStatus
  // ---------------------------------------------------------------------------

  datatype TaskStatus = Unknown | Pending | Completed

  /** The wire value of each member. */
  function Value(s: TaskStatus): string
  {
    match s
    case Unknown => "unknown"
    case Pending => "needsAction"
    case Completed => "completed"
  }

  /** The members in declaration order, as iterating the enum yields them. */
  const Members: seq<TaskStatus> := [Unknown, Pending, Completed]

  lemma MembersComplete(m: TaskStatus)
    ensures m in Members
  {
  }

  /** Folded wire values are pairwise distinct, so a folded match picks one member. */
  lemma FoldedValuesDistinct(m: TaskStatus, n: TaskStatus)
    requires Casefold(Value(m)) == Casefold(Value(n))
    ensures m == n
  {
    assert |Casefold(Value(m))| == |Value(m)|;
    assert |Casefold(Value(n))| == |Value(n)|;
  }

  /**
   * The enum's fallback lookup: the first member whose value equals `value`
   * ignoring case, or nothing.
   */
  method Missing(value: string) returns (r: Option<TaskStatus>)
    ensures r.Some? ==> Casefold(Value(r.value)) == Casefold(value)
    ensures r.None? <==> forall m: TaskStatus :: Casefold(Value(m)) != Casefold(value)
  {
    for i := 0 to |Members|
      invariant forall k :: 0 <= k < i ==> Casefold(Value(Members[k])) != Casefold(value)
    {
      if Casefold(Value(Members[i])) == Casefold(value) {
        return Some(Members[i]);
      }
    }
    forall m: TaskStatus ensures Casefold(Value(m)) != Casefold(value) {
      MembersComplete(m);
    }
    return None;
  }

  /** The member whose wire value folds to the same string as `value`, if any. */
  function StatusOf(value: string): Option<TaskStatus>
  {
    if Casefold(value) == Casefold(Value(Unknown)) then Some(Unknown)
    else if Casefold(value) == Casefold(Value(Pending)) then Some(Pending)
    else if Casefold(value) == Casefold(Value(Completed)) then Some(Completed)
    else None
  }

  /** `StatusOf` finds a member exactly when some member's value folds like `value`, and that member is the one. */
  lemma StatusOfMatches(value: string)
    ensures StatusOf(value).Some? ==> Casefold(Value(StatusOf(value).value)) == Casefold(value)
    ensures StatusOf(value).None? <==> forall m: TaskStatus :: Casefold(Value(m)) != Casefold(value)
    ensures forall m: TaskStatus :: Casefold(Value(m)) == Casefold(value) ==> StatusOf(value) == Some(m)
  {
    forall m: TaskStatus | Casefold(Value(m)) == Casefold(value) ensures StatusOf(value) == Some(m) {
      if StatusOf(value).Some? {
        FoldedValuesDistinct(m, StatusOf(value).value);
      }
    }
  }

  /**
   * `TaskStatus(value)`: an exact match on the wire value first, then the
   * case-insensitive fallback; `None` stands for the ValueError the enum raises.
   */
  method Lookup(value: string) returns (r: Option<TaskStatus>)
    ensures r == StatusOf(value)
    ensures forall m: TaskStatus :: Value(m) == value ==> r == Some(m)
  {
    if value == Value(Unknown) {
      r := Some(Unknown);
    } else if value == Value(Pending) {
      r := Some(Pending);
    } else if value == Value(Completed) {
      r := Some(Completed);
    } else {
      r := Missing(value);
    }
    forall m: TaskStatus | Casefold(Value(m)) == Casefold(value) ensures r == Some(m) {
      FoldedValuesDistinct(m, r.value);
    }
    StatusOfMatches(value);
  }

  // ---------------------------------------------------------------------------
  // Task and TaskList
  // ---------------------------------------------------------------------------

  datatype Task = Task(
    id: string,
    title: string,
    note: string,
    position: int,
    status: TaskStatus,
    subtasks: seq<Task>)

  datatype TaskList = TaskList(id: string, title: string, tasks: seq<Task>)

  predicate IsCompleted(t: Task)
  {
    t.status == Completed
  }

  /** `Task.__eq__`: title, note and status, and pairwise-equal subtasks. */
  predicate TaskEq(a: Task, b: Task)
    decreases a
  {
    && a.title == b.title
    && a.note == b.note
    && a.status == b.status
    && |a.subtasks| == |b.subtasks|
    && forall k :: 0 <= k < |a.subtasks| ==> TaskEq(a.subtasks[k], b.subtasks[k])
  }

  /** `zip`-and-compare over two task sequences of the same length. */
  predicate TasksEq(xs: seq<Task>, ys: seq<Task>)
  {
    |xs| == |ys| && forall k :: 0 <= k < |xs| ==> TaskEq(xs[k], ys[k])
  }

  /** `TaskList.__eq__`: title and pairwise-equal tasks. */
  predicate ListEq(a: TaskList, b: TaskList)
  {
    a.title == b.title && TasksEq(a.tasks, b.tasks)
  }

  /** Lists equal pairwise, by `TaskList.__eq__`. */
  predicate ListsEq(xs: seq<TaskList>, ys: seq<TaskList>)
  {
    |xs| == |ys| && forall k :: 0 <= k < |xs| ==> ListEq(xs[k], ys[k])
  }

  /** What equality looks at: the task tree with every id and position blanked. */
  function Content(t: Task): (c: Task)
    ensures c.id == "" && c.position == 0
    ensures c.title == t.title && c.note == t.note && c.status == t.status
    ensures |c.subtasks| == |t.subtasks|
    decreases t
  {
    Task("", t.title, t.note, 0, t.status, ContentOf(t.subtasks))
  }

  function ContentOf(ts: seq<Task>): (cs: seq<Task>)
    ensures |cs| == |ts|
    decreases ts
  {
    seq(|ts|, k requires 0 <= k < |ts| => Content(ts[k]))
  }

  /** Task equality is exactly structural equality once ids and positions are blanked. */
  lemma {:induction false} TaskEqIsContentEq(a: Task, b: Task)
    ensures TaskEq(a, b) <==> Content(a) == Content(b)
    decreases a
  {
    forall k | 0 <= k < |a.subtasks| && k < |b.subtasks|
      ensures TaskEq(a.subtasks[k], b.subtasks[k]) <==> Content(a.subtasks[k]) == Content(b.subtasks[k])
    {
      TaskEqIsContentEq(a.subtasks[k], b.subtasks[k]);
    }
    if TaskEq(a, b) {
      assert ContentOf(a.subtasks) == ContentOf(b.subtasks);
    }
    if Content(a) == Content(b) {
      assert ContentOf(a.subtasks) == ContentOf(b.subtasks);
      forall k | 0 <= k < |a.subtasks| ensures TaskEq(a.subtasks[k], b.subtasks[k]) {
        assert ContentOf(a.subtasks)[k] == ContentOf(b.subtasks)[k];
      }
    }
  }

  /** Equality ignores the remote id and the position, at every depth. */
  lemma TaskEqIgnoresIdAndPosition(t: Task, id: string, position: int)
    ensures TaskEq(t, t.(id := id, position := position))
  {
    TaskEqIsContentEq(t, t.(id := id, position := position));
  }

  lemma TaskEqReflexive(a: Task)
    ensures TaskEq(a, a)
  {
    TaskEqIsContentEq(a, a);
  }

  lemma TaskEqSymmetric(a: Task, b: Task)
    requires TaskEq(a, b)
    ensures TaskEq(b, a)
  {
    TaskEqIsContentEq(a, b);
    TaskEqIsContentEq(b, a);
  }

  lemma TaskEqTransitive(a: Task, b: Task, c: Task)
    requires TaskEq(a, b) && TaskEq(b, c)
    ensures TaskEq(a, c)
  {
    TaskEqIsContentEq(a, b);
    TaskEqIsContentEq(b, c);
    TaskEqIsContentEq(a, c);
  }

  /** List equality ignores the list id and compares tasks by `TaskEq`. */
  lemma ListEqIsContentEq(a: TaskList, b: TaskList)
    ensures ListEq(a, b) <==> a.title == b.title && ContentOf(a.tasks) == ContentOf(b.tasks)
  {
    forall k | 0 <= k < |a.tasks| && k < |b.tasks|
      ensures TaskEq(a.tasks[k], b.tasks[k]) <==> Content(a.tasks[k]) == Content(b.tasks[k])
    {
      TaskEqIsContentEq(a.tasks[k], b.tasks[k]);
    }
    if ListEq(a, b) {
      assert ContentOf(a.tasks) == ContentOf(b.tasks);
    }
    if a.title == b.title && ContentOf(a.tasks) == ContentOf(b.tasks) {
      forall k | 0 <= k < |a.tasks| ensures TaskEq(a.tasks[k], b.tasks[k]) {
        assert ContentOf(a.tasks)[k] == ContentOf(b.tasks)[k];
      }
    }
  }

  // ---------------------------------------------------------------------------
  // Request bodies
  // ---------------------------------------------------------------------------

  /** `Task.toRequest`: the body of a task insert or patch. */
  function ToRequest(t: Task): map<string, string>
  {
    map["id" := t.id, "kind" := "tasks#task", "notes" := t.note,
        "status" := Value(t.status), "title" := t.title]
  }

  /** `TaskList.toRequest`: the body of a task-list insert; it carries no tasks. */
  function ListToRequest(l: TaskList): map<string, string>
  {
    map["id" := l.id, "kind" := "tasks#taskList", "title" := l.title]
  }

  /** A task body holds exactly the id, the kind, the note, the status's wire value and the title. */
  lemma TaskBody(t: Task)
    ensures ToRequest(t).Keys == {"id", "kind", "notes", "status", "title"}
    ensures ToRequest(t)["id"] == t.id && ToRequest(t)["kind"] == "tasks#task" && ToRequest(t)["notes"] == t.note
    ensures ToRequest(t)["status"] == Value(t.status) && ToRequest(t)["title"] == t.title
  {
  }

  /** A list body holds exactly the id, the kind and the title. */
  lemma ListBody(l: TaskList)
    ensures ListToRequest(l).Keys == {"id", "kind", "title"}
    ensures ListToRequest(l)["id"] == l.id && ListToRequest(l)["kind"] == "tasks#taskList" && ListToRequest(l)["title"] == l.title
  {
  }

  /**
   * A task body determines the id and every field equality compares at its
   * own level: two tasks with the same body differ at most in position and
   * subtasks.
   */
  lemma RequestDeterminesTask(a: Task, b: Task)
    requires ToRequest(a) == ToRequest(b)
    ensures a.id == b.id && a.title == b.title && a.note == b.note && a.status == b.status
  {
    assert ToRequest(a)["status"] == ToRequest(b)["status"];
    assert ToRequest(a)["id"] == ToRequest(b)["id"];
    assert ToRequest(a)["notes"] == ToRequest(b)["notes"];
    assert ToRequest(a)["title"] == ToRequest(b)["title"];
  }

  /** A list body determines the list's id and title, and nothing about its tasks. */
  lemma ListRequestIgnoresTasks(l: TaskList, tasks: seq<Task>)
    ensures ListToRequest(l.(tasks := tasks)) == ListToRequest(l)
  {
  }
}
