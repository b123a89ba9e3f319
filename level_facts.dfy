/**
 * What one level of `reconcile_tasks` guarantees, whatever the service answers:
 * it only appends calls on its own list to the trace, it leaves the tasks
 * equal (by `Task.__eq__`) to the ones the user wrote, it gives every UPDATE
 * target the old task's id, and when it gets through it ends with the two move
 * chains. On an unchanged level it sends nothing but those moves.
 */
module LevelFacts {
  import opened Tasks
  import opened Matcher
  import opened Remote
  import opened Reconcile

  // ---------------------------------------------------------------------------
  // The trace only grows, and only with calls on the level's list
  // ---------------------------------------------------------------------------

  /** `after` is `before` followed by calls on list `listId` only. */
  ghost predicate Extends(before: seq<Call>, after: seq<Call>, listId: string)
  {
    before <= after && forall m :: |before| <= m < |after| ==> OnList(after[m], listId)
  }

  lemma ExtendsTransitive(a: seq<Call>, b: seq<Call>, c: seq<Call>, listId: string)
    requires Extends(a, b, listId) && Extends(b, c, listId)
    ensures Extends(a, c, listId)
  {
    forall m | |a| <= m < |c| ensures OnList(c[m], listId) {
      if m < |b| {
        assert c[m] == b[m];
      }
    }
  }

  /** Appending calls on the list extends the trace. */
  lemma ExtendsAppend(a: seq<Call>, b: seq<Call>, listId: string)
    requires forall c :: c in b ==> OnList(c, listId)
    ensures Extends(a, a + b, listId)
  {
    forall m | |a| <= m < |a + b| ensures OnList((a + b)[m], listId) {
      assert (a + b)[m] == b[m - |a|];
    }
  }

  lemma OrderedExtends(out: nat -> Outcome, listId: string, s: Run, parent: string)
    ensures Extends(s.calls, Ordered(out, listId, s, parent).calls, listId)
  {
    if s.ok {
      var c1 := MoveChain(listId, Ids(PendingOf(s.tasks), TaskId), parent);
      var first := Moved(out, s, c1);
      ExtendsAppend(s.calls, c1[..MovesSent(out, |s.calls|, c1).count], listId);
      if first.ok {
        var c2 := MoveChain(listId, Ids(CompletedOf(s.tasks), TaskId), parent);
        ExtendsAppend(first.calls, c2[..MovesSent(out, |first.calls|, c2).count], listId);
        ExtendsTransitive(s.calls, first.calls, Ordered(out, listId, s, parent).calls, listId);
      }
    }
  }

  /** A level only appends calls on its own list to the trace. */
  lemma {:induction false} LevelExtends(out: nat -> Outcome, trace: seq<Call>, listId: string,
                                        olds: seq<Task>, news: seq<Task>, parent: string)
    ensures Extends(trace, Level(out, trace, listId, olds, news, parent).calls, listId)
    decreases Size(olds) + Size(news), 3
  {
    var ops := Ops(olds, news, TaskTitle);
    var s := Callbacks(out, trace, listId, olds, news, ops, |ops|);
    CallbacksExtends(out, trace, listId, olds, news, ops, |ops|);
    OrderedExtends(out, listId, s, parent);
    ExtendsTransitive(trace, s.calls, Level(out, trace, listId, olds, news, parent).calls, listId);
  }

  lemma {:induction false} CallbacksExtends(out: nat -> Outcome, trace: seq<Call>, listId: string,
                                            olds: seq<Task>, news: seq<Task>, ops: seq<Op<Task>>, k: nat)
    requires k <= |ops| && FromLevel(olds, news, ops)
    ensures Extends(trace, Callbacks(out, trace, listId, olds, news, ops, k).calls, listId)
    decreases Size(olds) + Size(news), 2, k
  {
    if k == 0 {
      BatchOnList(listId, ops, |ops|);
      ExtendsAppend(trace, Batch(listId, ops, |ops|), listId);
    } else {
      var s := Callbacks(out, trace, listId, olds, news, ops, k - 1);
      CallbacksExtends(out, trace, listId, olds, news, ops, k - 1);
      if s.ok {
        var response := out(ResponseAt(trace, listId, ops, k - 1));
        CallbackExtends(out, listId, olds, news, ops[k - 1], response, s);
        ExtendsTransitive(trace, s.calls, Callback(out, listId, olds, news, ops[k - 1], response, s).calls, listId);
      }
    }
  }

  lemma {:induction false} CallbackExtends(out: nat -> Outcome, listId: string, olds: seq<Task>, news: seq<Task>,
                                           op: Op<Task>, response: Outcome, s: Run)
    requires FromInputs(op, olds, news, TaskTitle) && |s.tasks| == |news|
    ensures Extends(s.calls, Callback(out, listId, olds, news, op, response, s).calls, listId)
    decreases Size(olds) + Size(news), 1
  {
    CallbackSmaller(olds, news, op);
    match op
    case Delete(_) =>
    case Insert(x, _) =>
      if response.Success? {
        LevelExtends(out, s.calls, listId, [], x.subtasks, response.id);
      }
    case Update(o, n, _) =>
      if !TaskEq(o, n) && response.Success? {
        LevelExtends(out, s.calls, listId, o.subtasks, n.subtasks, o.id);
      }
  }

  // ---------------------------------------------------------------------------
  // The tasks keep the content the user wrote
  // ---------------------------------------------------------------------------

  /** Giving a task another id and subtasks of the same content leaves its content alone. */
  lemma ContentKept(t: Task, u: Task, id: string, subtasks: seq<Task>)
    requires Content(t) == Content(u) && ContentOf(subtasks) == ContentOf(u.subtasks)
    ensures Content(t.(id := id, subtasks := subtasks)) == Content(u)
  {
  }

  /** Filling in ids before the batch goes out changes no content. */
  lemma PreparedContent(news: seq<Task>, ops: seq<Op<Task>>, k: nat)
    requires k <= |ops| && Targets(ops, |news|)
    ensures ContentOf(Prepared(news, ops, k)) == ContentOf(news)
  {
    var r := Prepared(news, ops, k);
    forall j | 0 <= j < |news| ensures ContentOf(r)[j] == ContentOf(news)[j] {
      assert r[j] == news[j].(id := r[j].id);
    }
  }

  /**
   * A level leaves its tasks equal, by content, to the ones it was given:
   * reconciling fills in ids and nothing else, at every depth.
   */
  lemma {:induction false} LevelContent(out: nat -> Outcome, trace: seq<Call>, listId: string,
                                        olds: seq<Task>, news: seq<Task>, parent: string)
    ensures ContentOf(Level(out, trace, listId, olds, news, parent).tasks) == ContentOf(news)
    decreases Size(olds) + Size(news), 3
  {
    var ops := Ops(olds, news, TaskTitle);
    CallbacksContent(out, trace, listId, olds, news, ops, |ops|);
  }

  lemma {:induction false} CallbacksContent(out: nat -> Outcome, trace: seq<Call>, listId: string,
                                            olds: seq<Task>, news: seq<Task>, ops: seq<Op<Task>>, k: nat)
    requires k <= |ops| && FromLevel(olds, news, ops)
    ensures ContentOf(Callbacks(out, trace, listId, olds, news, ops, k).tasks) == ContentOf(news)
    decreases Size(olds) + Size(news), 2, k
  {
    if k == 0 {
      PreparedContent(news, ops, |ops|);
    } else {
      var s := Callbacks(out, trace, listId, olds, news, ops, k - 1);
      CallbacksContent(out, trace, listId, olds, news, ops, k - 1);
      if s.ok {
        CallbackContent(out, listId, olds, news, ops[k - 1], out(ResponseAt(trace, listId, ops, k - 1)), s);
      }
    }
  }

  lemma {:induction false} CallbackContent(out: nat -> Outcome, listId: string, olds: seq<Task>, news: seq<Task>,
                                           op: Op<Task>, response: Outcome, s: Run)
    requires FromInputs(op, olds, news, TaskTitle) && |s.tasks| == |news|
    requires ContentOf(s.tasks) == ContentOf(news)
    ensures ContentOf(Callback(out, listId, olds, news, op, response, s).tasks) == ContentOf(news)
    decreases Size(olds) + Size(news), 1
  {
    CallbackSmaller(olds, news, op);
    match op
    case Delete(_) =>
    case Insert(x, i) =>
      if response.Success? {
        var sub := Level(out, s.calls, listId, [], x.subtasks, response.id);
        LevelContent(out, s.calls, listId, [], x.subtasks, response.id);
        assert ContentOf(s.tasks)[i] == ContentOf(news)[i];
        ContentKept(s.tasks[i], x, response.id, sub.tasks);
        Replaced(s.tasks, news, i, s.tasks[i].(id := response.id, subtasks := sub.tasks));
      }
    case Update(o, n, i) =>
      if !TaskEq(o, n) && response.Success? {
        var sub := Level(out, s.calls, listId, o.subtasks, n.subtasks, o.id);
        LevelContent(out, s.calls, listId, o.subtasks, n.subtasks, o.id);
        assert ContentOf(s.tasks)[i] == ContentOf(news)[i];
        ContentKept(s.tasks[i], n, s.tasks[i].id, sub.tasks);
        Replaced(s.tasks, news, i, s.tasks[i].(subtasks := sub.tasks));
      }
  }

  /** Replacing one task by one of the same content keeps the content of the level. */
  lemma Replaced(ts: seq<Task>, news: seq<Task>, i: nat, t: Task)
    requires |ts| == |news| && i < |ts| && ContentOf(ts) == ContentOf(news)
    requires Content(t) == Content(news[i])
    ensures ContentOf(ts[i := t]) == ContentOf(news)
  {
    forall j | 0 <= j < |ts| ensures ContentOf(ts[i := t])[j] == ContentOf(news)[j] {
      if j != i {
        assert ContentOf(ts)[j] == ContentOf(news)[j];
      }
    }
  }

  /** Hence the reconciled level is equal to the edited one under `Task.__eq__`. */
  lemma LevelKeepsEquality(out: nat -> Outcome, trace: seq<Call>, listId: string,
                           olds: seq<Task>, news: seq<Task>, parent: string)
    ensures TasksEq(Level(out, trace, listId, olds, news, parent).tasks, news)
  {
    var r := Level(out, trace, listId, olds, news, parent);
    LevelContent(out, trace, listId, olds, news, parent);
    forall k | 0 <= k < |news| ensures TaskEq(r.tasks[k], news[k]) {
      assert ContentOf(r.tasks)[k] == ContentOf(news)[k];
      TaskEqIsContentEq(r.tasks[k], news[k]);
    }
  }

  // ---------------------------------------------------------------------------
  // Remote ids land where the moves need them
  // ---------------------------------------------------------------------------

  /** Some UPDATE among the first `k` entries targets index `j`. */
  ghost predicate UpdatedBefore(ops: seq<Op<Task>>, k: nat, j: nat)
  {
    exists m :: 0 <= m < k && m < |ops| && ops[m].Update? && ops[m].idx == j
  }

  /**
   * Filling the batch gives every UPDATE target the old task's id, whether or
   * not a patch goes out, and leaves every other new task as it was.
   */
  lemma {:induction false} PreparedIds(news: seq<Task>, ops: seq<Op<Task>>, k: nat)
    requires k <= |ops| && Targets(ops, |news|) && DistinctTargets(ops)
    ensures forall m :: 0 <= m < k && ops[m].Update? ==> Prepared(news, ops, k)[ops[m].idx].id == ops[m].oldItem.id
    ensures forall j :: 0 <= j < |news| && !UpdatedBefore(ops, k, j) ==> Prepared(news, ops, k)[j] == news[j]
    decreases k
  {
    if k > 0 {
      PreparedIds(news, ops, k - 1);
      forall j | 0 <= j < |news| && !UpdatedBefore(ops, k, j) ensures !UpdatedBefore(ops, k - 1, j) {
      }
      forall j | 0 <= j < |news| && !UpdatedBefore(ops, k, j) ensures ops[k - 1].Update? ==> ops[k - 1].idx != j {
      }
    }
  }

  /**
   * After the callbacks, every UPDATE target still carries the old task's id,
   * and, when no callback raised, every INSERT target carries the id the
   * service answered its insert with.
   */
  lemma {:induction false} CallbacksIds(out: nat -> Outcome, trace: seq<Call>, listId: string,
                                        olds: seq<Task>, news: seq<Task>, ops: seq<Op<Task>>, k: nat)
    requires k <= |ops| && FromLevel(olds, news, ops) && DistinctTargets(ops)
    ensures var r := Callbacks(out, trace, listId, olds, news, ops, k);
      forall m :: 0 <= m < |ops| && ops[m].Update? ==> r.tasks[ops[m].idx].id == ops[m].oldItem.id
    ensures var r := Callbacks(out, trace, listId, olds, news, ops, k);
      r.ok ==> forall m :: 0 <= m < k && ops[m].Insert? ==> out(ResponseAt(trace, listId, ops, m)) == Success(r.tasks[ops[m].idx].id)
    decreases k
  {
    if k == 0 {
      PreparedIds(news, ops, |ops|);
    } else {
      var s := Callbacks(out, trace, listId, olds, news, ops, k - 1);
      CallbacksIds(out, trace, listId, olds, news, ops, k - 1);
      if s.ok {
        CallbacksStep(out, trace, listId, olds, news, ops, k - 1);
        CallbackKeepsOthers(out, listId, olds, news, ops, k - 1, out(ResponseAt(trace, listId, ops, k - 1)), s);
      }
    }
  }

  /**
   * The callback of entry `e` touches only its own target: the tasks at
   * every other entry's target keep their ids, its own UPDATE target keeps
   * its id too, and its INSERT target, if the callback got through, takes the
   * answered id.
   */
  lemma CallbackKeepsOthers(out: nat -> Outcome, listId: string, olds: seq<Task>, news: seq<Task>,
                            ops: seq<Op<Task>>, e: nat, response: Outcome, s: Run)
    requires e < |ops| && FromLevel(olds, news, ops) && DistinctTargets(ops) && |s.tasks| == |news|
    ensures var r := Callback(out, listId, olds, news, ops[e], response, s);
      && (forall m :: 0 <= m < |ops| && m != e && !ops[m].Delete? ==> r.tasks[ops[m].idx].id == s.tasks[ops[m].idx].id)
      && (ops[e].Update? ==> r.tasks[ops[e].idx].id == s.tasks[ops[e].idx].id)
      && (ops[e].Insert? && r.ok ==> response == Success(r.tasks[ops[e].idx].id))
  {
    assert FromInputs(ops[e], olds, news, TaskTitle);
  }

  /**
   * What the moves of a level see: each UPDATE target carries the old task's
   * id, and when the level got through, each INSERT target carries the id
   * the service gave the inserted task.
   */
  lemma LevelIds(out: nat -> Outcome, trace: seq<Call>, listId: string, olds: seq<Task>, news: seq<Task>, parent: string)
    ensures var ops, r := Ops(olds, news, TaskTitle), Level(out, trace, listId, olds, news, parent);
      forall m :: 0 <= m < |ops| && ops[m].Update? ==> r.tasks[ops[m].idx].id == ops[m].oldItem.id
    ensures var ops, r := Ops(olds, news, TaskTitle), Level(out, trace, listId, olds, news, parent);
      r.ok ==> forall m :: 0 <= m < |ops| && ops[m].Insert? ==> out(ResponseAt(trace, listId, ops, m)) == Success(r.tasks[ops[m].idx].id)
  {
    var ops := Ops(olds, news, TaskTitle);
    OpsTargetsDistinct(olds, news, TaskTitle);
    CallbacksIds(out, trace, listId, olds, news, ops, |ops|);
  }

  // ---------------------------------------------------------------------------
  // A level that got through ends with its two move chains
  // ---------------------------------------------------------------------------

  /** Ordering got through only if every move of both chains went out and succeeded. */
  lemma OrderedSent(out: nat -> Outcome, listId: string, s: Run, parent: string)
    requires Ordered(out, listId, s, parent).ok
    ensures s.ok
    ensures Ordered(out, listId, s, parent) ==
      Run(s.calls + MoveChain(listId, Ids(PendingOf(s.tasks), TaskId), parent)
                   + MoveChain(listId, Ids(CompletedOf(s.tasks), TaskId), parent), s.tasks, true)
  {
    var c1 := MoveChain(listId, Ids(PendingOf(s.tasks), TaskId), parent);
    var c2 := MoveChain(listId, Ids(CompletedOf(s.tasks), TaskId), parent);
    var first := Moved(out, s, c1);
    assert c1[..|c1|] == c1;
    assert first.calls == s.calls + c1;
    assert c2[..|c2|] == c2;
  }

  /**
   * A level that got through ends with the move chain of its pending tasks
   * and then that of its completed tasks, built from the ids the level ends
   * with.
   */
  lemma LevelEndsWithMoves(out: nat -> Outcome, trace: seq<Call>, listId: string, olds: seq<Task>, news: seq<Task>, parent: string)
    requires Level(out, trace, listId, olds, news, parent).ok
    ensures var r := Level(out, trace, listId, olds, news, parent);
      var ops := Ops(olds, news, TaskTitle);
      r.calls == Callbacks(out, trace, listId, olds, news, ops, |ops|).calls
        + MoveChain(listId, Ids(PendingOf(r.tasks), TaskId), parent)
        + MoveChain(listId, Ids(CompletedOf(r.tasks), TaskId), parent)
  {
    var ops := Ops(olds, news, TaskTitle);
    OrderedSent(out, listId, Callbacks(out, trace, listId, olds, news, ops, |ops|), parent);
  }

  // ---------------------------------------------------------------------------
  // An unchanged level sends nothing but its moves
  // ---------------------------------------------------------------------------

  /** Every entry is an UPDATE between equal tasks. */
  ghost predicate AllUnchanged(ops: seq<Op<Task>>)
  {
    forall m :: 0 <= m < |ops| ==> ops[m].Update? && TaskEq(ops[m].oldItem, ops[m].newItem)
  }

  lemma {:induction false} UnchangedBatch(listId: string, ops: seq<Op<Task>>, k: nat)
    requires k <= |ops| && AllUnchanged(ops)
    ensures Batch(listId, ops, k) == []
  {
    if k > 0 {
      UnchangedBatch(listId, ops, k - 1);
    }
  }

  lemma {:induction false} UnchangedCallbacks(out: nat -> Outcome, trace: seq<Call>, listId: string,
                                              olds: seq<Task>, news: seq<Task>, ops: seq<Op<Task>>, k: nat)
    requires k <= |ops| && FromLevel(olds, news, ops) && AllUnchanged(ops)
    ensures Callbacks(out, trace, listId, olds, news, ops, k) == Run(trace, Prepared(news, ops, |ops|), true)
  {
    if k == 0 {
      UnchangedBatch(listId, ops, |ops|);
      assert trace + [] == trace;
    } else {
      UnchangedCallbacks(out, trace, listId, olds, news, ops, k - 1);
      CallbacksStep(out, trace, listId, olds, news, ops, k - 1);
    }
  }

  /**
   * Reconciling a level against an equal copy (by `Task.__eq__`) sends no
   * delete, insert or patch and runs no callback: all it sends is the two
   * move chains.
   */
  lemma UnchangedLevelOnlyMoves(out: nat -> Outcome, trace: seq<Call>, listId: string,
                                olds: seq<Task>, news: seq<Task>, parent: string)
    requires TasksEq(olds, news)
    ensures var ops := Ops(olds, news, TaskTitle);
      Level(out, trace, listId, olds, news, parent) ==
        Ordered(out, listId, Run(trace, Prepared(news, ops, |ops|), true), parent)
  {
    var ops := Ops(olds, news, TaskTitle);
    assert Titles(olds, TaskTitle) == Titles(news, TaskTitle);
    DiffOfSameTitles(olds, news, TaskTitle);
    UnchangedCallbacks(out, trace, listId, olds, news, ops, |ops|);
  }
}
