/**
 * The reconciler: turns the difference between the task lists on the service
 * and the task lists the user edited into calls on the service.
 *
 * The service is the `GoogleApiService` object of module `GoogleApi`, holding the trace of calls made so far and
 * an oracle that fixes the outcome of the call at each position of the trace.
 * A batched request sends all its requests first and then runs their
 * callbacks in order. An exception that escapes (a failed insert, move or
 * list-level call) is an abort: the method returns `false` at once and its
 * callers pass the abort on.
 */
module Reconcile {
  import opened Builtins
  import opened Tasks
  import opened Matcher
  import opened Remote

  function TaskTitle(t: Task): string { t.title }
  function TaskId(t: Task): string { t.id }
  function ListTitle(l: TaskList): string { l.title }

  // ---------------------------------------------------------------------------
  // Tree size, the measure the recursion descends on
  // ---------------------------------------------------------------------------

  function Size(ts: seq<Task>): nat
    decreases ts
  {
    if ts == [] then 0 else TaskSize(ts[0]) + Size(ts[1..])
  }

  function TaskSize(t: Task): nat
    decreases t
  {
    1 + Size(t.subtasks)
  }

  lemma {:induction false} SizeOfOne(ts: seq<Task>, p: nat)
    requires p < |ts|
    ensures TaskSize(ts[p]) <= Size(ts)
  {
    if p > 0 {
      assert ts[1..][p - 1] == ts[p];
      SizeOfOne(ts[1..], p - 1);
    }
  }

  lemma {:induction false} SizeOfTwo(ts: seq<Task>, p: nat, q: nat)
    requires p < q < |ts|
    ensures TaskSize(ts[p]) + TaskSize(ts[q]) <= Size(ts)
  {
    assert ts[1..][q - 1] == ts[q];
    if p == 0 {
      SizeOfOne(ts[1..], q - 1);
    } else {
      assert ts[1..][p - 1] == ts[p];
      SizeOfTwo(ts[1..], p - 1, q - 1);
    }
  }

  /** Every callback works on strictly smaller trees than the level that queued it. */
  lemma CallbackSmaller(olds: seq<Task>, news: seq<Task>, op: Op<Task>)
    requires FromInputs(op, olds, news, TaskTitle)
    ensures op.Insert? ==> Size(op.item.subtasks) < Size(olds) + Size(news)
    ensures op.Update? ==> Size(op.oldItem.subtasks) + Size(op.newItem.subtasks) < Size(olds) + Size(news)
  {
    match op
    case Delete(_) =>
    case Insert(_, i) =>
      SizeOfOne(news, i);
    case Update(o, _, i) =>
      SizeOfOne(news, i);
      if o in olds {
        var p :| 0 <= p < |olds| && olds[p] == o;
        SizeOfOne(olds, p);
      } else {
        var f :| 0 <= f < |news| && f != i && news[f] == o;
        if f < i { SizeOfTwo(news, f, i); } else { SizeOfTwo(news, i, f); }
      }
  }

  // ---------------------------------------------------------------------------
  // The batch of requests a level sends
  // ---------------------------------------------------------------------------

  /**
   * The request an entry adds to the batch: DELETE deletes the old task by id,
   * INSERT creates the new task, UPDATE patches the old task with the new
   * content (carrying the old id) unless the two are equal, when it sends
   * nothing.
   */
  function Request(listId: string, op: Op<Task>): seq<Call>
  {
    match op
    case Delete(x) => [DeleteTask(listId, x.id)]
    case Insert(x, _) => [InsertTask(listId, ToRequest(x))]
    case Update(o, n, _) =>
      if TaskEq(o, n) then [] else [PatchTask(listId, o.id, ToRequest(n.(id := o.id)))]
  }

  /** The batch once the loop of `apply_task_ops` has passed the first `k` entries. */
  function Batch(listId: string, ops: seq<Op<Task>>, k: nat): seq<Call>
    requires k <= |ops|
  {
    if k == 0 then [] else Batch(listId, ops, k - 1) + Request(listId, ops[k - 1])
  }

  /** A batch only addresses tasks of its own list, and holds no moves. */
  lemma {:induction false} BatchOnList(listId: string, ops: seq<Op<Task>>, k: nat)
    requires k <= |ops|
    ensures forall c :: c in Batch(listId, ops, k) ==> OnList(c, listId) && !c.MoveTask?
  {
    if k > 0 {
      BatchOnList(listId, ops, k - 1);
    }
  }

  /** Creating a level from nothing inserts every task of it, in order, and sends nothing else. */
  lemma FreshTasksAreInserted(listId: string, news: seq<Task>)
    requires Distinct(Titles(news, TaskTitle))
    ensures var batch := Batch(listId, Ops([], news, TaskTitle), |Ops([], news, TaskTitle)|);
      |batch| == |news| && forall i :: 0 <= i < |news| ==> batch[i] == InsertTask(listId, ToRequest(news[i]))
  {
    var ops := Ops([], news, TaskTitle);
    if news == [] {
      assert Titles([], TaskTitle) + Titles(news, TaskTitle) == [];
    } else {
      DiffFromNothingAt(news, TaskTitle, 0);
    }
    forall i | 0 <= i < |news| ensures ops[i] == Insert(news[i], i) {
      DiffFromNothingAt(news, TaskTitle, i);
    }
    InsertsBatch(listId, ops, news, |news|);
  }

  lemma {:induction false} InsertsBatch(listId: string, ops: seq<Op<Task>>, news: seq<Task>, n: nat)
    requires n <= |ops| == |news|
    requires forall i :: 0 <= i < |news| ==> ops[i] == Insert(news[i], i)
    ensures |Batch(listId, ops, n)| == n
    ensures forall i :: 0 <= i < n ==> Batch(listId, ops, n)[i] == InsertTask(listId, ToRequest(news[i]))
  {
    if n > 0 {
      InsertsBatch(listId, ops, news, n - 1);
      assert Batch(listId, ops, n) == Batch(listId, ops, n - 1) + [InsertTask(listId, ToRequest(news[n - 1]))];
    }
  }

  // ---------------------------------------------------------------------------
  // Splitting a level into pending and completed tasks
  // ---------------------------------------------------------------------------

  function PendingOf(ts: seq<Task>): (r: seq<Task>)
    ensures forall t :: t in r ==> t in ts && !IsCompleted(t)
  {
    if ts == [] then []
    else PendingOf(ts[..|ts| - 1]) + (if IsCompleted(ts[|ts| - 1]) then [] else [ts[|ts| - 1]])
  }

  function CompletedOf(ts: seq<Task>): (r: seq<Task>)
    ensures forall t :: t in r ==> t in ts && IsCompleted(t)
  {
    if ts == [] then []
    else CompletedOf(ts[..|ts| - 1]) + (if IsCompleted(ts[|ts| - 1]) then [ts[|ts| - 1]] else [])
  }

  /** The last task of a level goes to the end of exactly one of the two parts. */
  lemma PartitionLast(ts: seq<Task>)
    requires ts != []
    ensures ts == ts[..|ts| - 1] + [ts[|ts| - 1]]
    ensures var init, last := ts[..|ts| - 1], ts[|ts| - 1];
      if IsCompleted(last) then PendingOf(ts) == PendingOf(init) && CompletedOf(ts) == CompletedOf(init) + [last]
      else PendingOf(ts) == PendingOf(init) + [last] && CompletedOf(ts) == CompletedOf(init)
  {
  }

  /** The two parts together hold every task of the level exactly once. */
  lemma {:induction false} PartitionPermutes(ts: seq<Task>)
    ensures multiset(PendingOf(ts)) + multiset(CompletedOf(ts)) == multiset(ts)
  {
    if ts != [] {
      var init, last := ts[..|ts| - 1], ts[|ts| - 1];
      PartitionPermutes(init);
      PartitionLast(ts);
      PermutesStep(PendingOf(init), CompletedOf(init), init, last);
    }
  }

  /** Appending one task to either part of a split appends it to the whole. */
  lemma PermutesStep(p: seq<Task>, c: seq<Task>, init: seq<Task>, last: Task)
    requires multiset(p) + multiset(c) == multiset(init)
    ensures multiset(p) + multiset(c + [last]) == multiset(init + [last])
    ensures multiset(p + [last]) + multiset(c) == multiset(init + [last])
  {
    assert multiset(c + [last]) == multiset(c) + multiset{last};
    assert multiset(p + [last]) == multiset(p) + multiset{last};
    assert multiset(init + [last]) == multiset(init) + multiset{last};
  }

  /** With distinct ids on the level, each part has distinct ids and the parts share none. */
  lemma {:induction false} PartitionIds(ts: seq<Task>)
    requires Distinct(Ids(ts, TaskId))
    ensures Distinct(Ids(PendingOf(ts), TaskId)) && Distinct(Ids(CompletedOf(ts), TaskId))
    ensures forall x :: x in Ids(PendingOf(ts), TaskId) ==> x !in Ids(CompletedOf(ts), TaskId)
  {
    if ts != [] {
      var init, last := ts[..|ts| - 1], ts[|ts| - 1];
      assert Ids(init, TaskId) == Ids(ts, TaskId)[..|ts| - 1];
      PartitionIds(init);
      LastIdIsNew(ts);
      PartitionLast(ts);
      var pi, ci := Ids(PendingOf(init), TaskId), Ids(CompletedOf(init), TaskId);
      if IsCompleted(last) {
        IdsAppend(CompletedOf(init), last);
        AppendDistinct(ci, last.id);
      } else {
        IdsAppend(PendingOf(init), last);
        AppendDistinct(pi, last.id);
      }
    }
  }

  /** With distinct ids, the last task's id is in neither part of the tasks before it. */
  lemma LastIdIsNew(ts: seq<Task>)
    requires ts != [] && Distinct(Ids(ts, TaskId))
    ensures var init, last := ts[..|ts| - 1], ts[|ts| - 1];
      last.id !in Ids(PendingOf(init), TaskId) && last.id !in Ids(CompletedOf(init), TaskId)
  {
    var init, last := ts[..|ts| - 1], ts[|ts| - 1];
    forall t | t in init ensures t.id != last.id {
      var p :| 0 <= p < |init| && init[p] == t;
      assert Ids(ts, TaskId)[p] == t.id && Ids(ts, TaskId)[|ts| - 1] == last.id;
    }
    IdsMember(PendingOf(init), last.id);
    IdsMember(CompletedOf(init), last.id);
  }

  lemma IdsMember(ts: seq<Task>, x: string)
    ensures x in Ids(ts, TaskId) <==> exists t :: t in ts && t.id == x
  {
    if x in Ids(ts, TaskId) {
      var p :| 0 <= p < |ts| && Ids(ts, TaskId)[p] == x;
      assert ts[p] in ts;
    }
  }

  lemma IdsAppend(ts: seq<Task>, t: Task)
    ensures Ids(ts + [t], TaskId) == Ids(ts, TaskId) + [t.id]
  {
  }

  lemma AppendDistinct(xs: seq<string>, x: string)
    requires Distinct(xs) && x !in xs
    ensures Distinct(xs + [x])
  {
  }

  /**
   * The order a level ends in once both move chains went through, on the
   * sibling-order model of moves: completed tasks first, then pending ones,
   * then any sibling the level does not hold.
   */
  lemma FinalSiblingOrder(order: seq<string>, listId: string, ts: seq<Task>, parent: string)
    requires Distinct(Ids(ts, TaskId)) && forall k :: 0 <= k < |ts| ==> ts[k].id != ""
    ensures var pending, completed := Ids(PendingOf(ts), TaskId), Ids(CompletedOf(ts), TaskId);
      ApplyMoves(order, MoveChain(listId, pending, parent) + MoveChain(listId, completed, parent))
        == completed + pending + Without(order, pending + completed)
  {
    var pending, completed := Ids(PendingOf(ts), TaskId), Ids(CompletedOf(ts), TaskId);
    PartitionIds(ts);
    forall k | 0 <= k < |pending| ensures pending[k] != "" {
      assert PendingOf(ts)[k] in PendingOf(ts);
      var p :| 0 <= p < |ts| && ts[p] == PendingOf(ts)[k];
    }
    forall k | 0 <= k < |completed| ensures completed[k] != "" {
      assert CompletedOf(ts)[k] in CompletedOf(ts);
      var p :| 0 <= p < |ts| && ts[p] == CompletedOf(ts)[k];
    }
    TwoChainsOrder(order, listId, pending, completed, parent);
  }

  // ---------------------------------------------------------------------------
  // One level of reconciliation, as a function of the service's outcomes
  // ---------------------------------------------------------------------------

  /**
   * What a stretch of reconciliation did: the call trace afterwards (the calls
   * made before it, then its own, in order); the tasks of the level afterwards
   * (remote ids filled in, subtasks replaced); and whether it got through
   * without an exception.
   */
  datatype Run = Run(calls: seq<Call>, tasks: seq<Task>, ok: bool)

  /** How many calls of a move chain went out, and whether none raised. */
  datatype Sent = Sent(count: nat, ok: bool)

  /**
   * Sending a move chain from trace position `pos`: the moves go out one by
   * one and the first failed move raises, so nothing after it is sent.
   */
  function MovesSent(out: nat -> Outcome, pos: nat, chain: seq<Call>): (s: Sent)
    ensures s.count <= |chain|
    ensures s.ok <==> forall m :: pos <= m < pos + s.count ==> out(m).Success?
    ensures s.ok ==> s.count == |chain|
    ensures !s.ok ==> 0 < s.count && out(pos + s.count - 1).Failure?
    decreases |chain|
  {
    if chain == [] then Sent(0, true)
    else if out(pos).Failure? then Sent(1, false)
    else
      var rest := MovesSent(out, pos + 1, chain[1..]);
      Sent(rest.count + 1, rest.ok)
  }

  /** Every INSERT/UPDATE entry targets an index below `n`. */
  ghost predicate Targets<T>(ops: seq<Op<T>>, n: nat)
  {
    forall m :: 0 <= m < |ops| && !ops[m].Delete? ==> ops[m].idx < n
  }

  /** No two INSERT/UPDATE entries target the same index. */
  ghost predicate DistinctTargets<T>(ops: seq<Op<T>>)
  {
    forall k1, k2 :: 0 <= k1 < |ops| && 0 <= k2 < |ops| && k1 != k2 && !ops[k1].Delete? && !ops[k2].Delete? ==>
      ops[k1].idx != ops[k2].idx
  }

  /** No INSERT/UPDATE entry targets index `j`. */
  ghost predicate Untargeted<T>(ops: seq<Op<T>>, j: int)
  {
    forall m :: 0 <= m < |ops| && !ops[m].Delete? ==> ops[m].idx != j
  }

  /** Every entry holds items of the level's inputs. */
  ghost predicate FromLevel(olds: seq<Task>, news: seq<Task>, ops: seq<Op<Task>>)
  {
    forall m :: 0 <= m < |ops| ==> FromInputs(ops[m], olds, news, TaskTitle)
  }

  /**
   * The new tasks once the loop that fills the batch has passed the first `k`
   * entries: each UPDATE target took the old task's id, and nothing else
   * changed.
   */
  function Prepared(news: seq<Task>, ops: seq<Op<Task>>, k: nat): (r: seq<Task>)
    requires k <= |ops| && Targets(ops, |news|)
    ensures |r| == |news|
    ensures forall j :: 0 <= j < |news| ==> r[j] == news[j].(id := r[j].id)
    decreases k
  {
    if k == 0 then news
    else
      var t := Prepared(news, ops, k - 1);
      match ops[k - 1]
      case Update(o, _, i) => t[i := t[i].(id := o.id)]
      case _ => t
  }

  /** The trace position of the response to entry `m` of a batch sent after `trace`. */
  function ResponseAt(trace: seq<Call>, listId: string, ops: seq<Op<Task>>, m: nat): nat
    requires m <= |ops|
  {
    |trace| + |Batch(listId, ops, m)|
  }

  /**
   * `apply_task_ops` once the batch went out after `trace` and the callbacks of
   * the first `k` entries ran, in order. An exception stops the callbacks that
   * follow.
   */
  function Callbacks(out: nat -> Outcome, trace: seq<Call>, listId: string, olds: seq<Task>, news: seq<Task>,
                     ops: seq<Op<Task>>, k: nat): (r: Run)
    requires k <= |ops| && FromLevel(olds, news, ops)
    ensures |r.tasks| == |news|
    decreases Size(olds) + Size(news), 2, k
  {
    if k == 0 then Run(trace + Batch(listId, ops, |ops|), Prepared(news, ops, |ops|), true)
    else
      var s := Callbacks(out, trace, listId, olds, news, ops, k - 1);
      if !s.ok then s
      else Callback(out, listId, olds, news, ops[k - 1], out(ResponseAt(trace, listId, ops, k - 1)), s)
  }

  /**
   * The callback of one entry, run on state `s` with the outcome of the
   * entry's request:
   * - DELETE only logs;
   * - INSERT: a failed insert raises; otherwise the target takes the new id
   *   and its subtasks are reconciled from nothing under it;
   * - UPDATE with a patch that went through: the subtasks are reconciled
   *   against the old task's under the old id; a failed patch only logs.
   */
  function Callback(out: nat -> Outcome, listId: string, olds: seq<Task>, news: seq<Task>, op: Op<Task>,
                    response: Outcome, s: Run): (r: Run)
    requires FromInputs(op, olds, news, TaskTitle) && |s.tasks| == |news|
    ensures |r.tasks| == |news|
    decreases Size(olds) + Size(news), 1
  {
    match op
    case Delete(_) => s
    case Insert(x, i) =>
      if response.Failure? then s.(ok := false)
      else
        CallbackSmaller(olds, news, op);
        var sub := Level(out, s.calls, listId, [], x.subtasks, response.id);
        Run(sub.calls, s.tasks[i := s.tasks[i].(id := response.id, subtasks := sub.tasks)], sub.ok)
    case Update(o, n, i) =>
      if TaskEq(o, n) || response.Failure? then s
      else
        CallbackSmaller(olds, news, op);
        var sub := Level(out, s.calls, listId, o.subtasks, n.subtasks, o.id);
        Run(sub.calls, s.tasks[i := s.tasks[i].(subtasks := sub.tasks)], sub.ok)
  }

  /**
   * `reconcile_tasks` after the calls in `trace`: diff the level by title,
   * apply the entries, then put the level in order.
   */
  function Level(out: nat -> Outcome, trace: seq<Call>, listId: string, olds: seq<Task>, news: seq<Task>, parent: string): Run
    decreases Size(olds) + Size(news), 3
  {
    var ops := Ops(olds, news, TaskTitle);
    Ordered(out, listId, Callbacks(out, trace, listId, olds, news, ops, |ops|), parent)
  }

  /**
   * The end of `reconcile_tasks`, after the entries were applied with result
   * `s`: unless that raised, move the pending tasks
   * and then the completed ones into the level's order under `parent`.
   */
  function Ordered(out: nat -> Outcome, listId: string, s: Run, parent: string): Run
  {
    if !s.ok then s
    else
      var first := Moved(out, s, MoveChain(listId, Ids(PendingOf(s.tasks), TaskId), parent));
      if !first.ok then first
      else Moved(out, first, MoveChain(listId, Ids(CompletedOf(s.tasks), TaskId), parent))
  }

  /** `s` followed by the part of a move chain that went out before any failure. */
  function Moved(out: nat -> Outcome, s: Run, chain: seq<Call>): Run
  {
    var sent := MovesSent(out, |s.calls|, chain);
    Run(s.calls + chain[..sent.count], s.tasks, sent.ok)
  }

  lemma {:induction false} BatchPrefix(listId: string, ops: seq<Op<Task>>, k: nat, k2: nat)
    requires k <= k2 <= |ops|
    ensures Batch(listId, ops, k) <= Batch(listId, ops, k2)
    decreases k2
  {
    if k < k2 {
      BatchPrefix(listId, ops, k, k2 - 1);
    }
  }

  /**
   * Entry `k` adds one request to the batch, except an UPDATE between equal
   * tasks, which adds none; either way the batch so far is a prefix of the whole.
   */
  lemma BatchStep(listId: string, ops: seq<Op<Task>>, k: nat)
    requires k < |ops|
    ensures |Batch(listId, ops, k + 1)| ==
      |Batch(listId, ops, k)| + if ops[k].Update? && TaskEq(ops[k].oldItem, ops[k].newItem) then 0 else 1
    ensures |Batch(listId, ops, k + 1)| <= |Batch(listId, ops, |ops|)|
  {
    BatchPrefix(listId, ops, k + 1, |ops|);
  }

  /** A callback that raised stops the loop: the next entry changes nothing. */
  lemma CallbacksRaised(out: nat -> Outcome, trace: seq<Call>, listId: string, olds: seq<Task>, news: seq<Task>,
                        ops: seq<Op<Task>>, k: nat)
    requires k < |ops| && FromLevel(olds, news, ops) && !Callbacks(out, trace, listId, olds, news, ops, k).ok
    ensures Callbacks(out, trace, listId, olds, news, ops, k + 1) == Callbacks(out, trace, listId, olds, news, ops, k)
  {
  }

  /** Once a callback raised, the ones after it never run. */
  lemma {:induction false} CallbacksStopped(out: nat -> Outcome, trace: seq<Call>, listId: string, olds: seq<Task>, news: seq<Task>,
                                            ops: seq<Op<Task>>, k: nat, k2: nat)
    requires k <= k2 <= |ops| && FromLevel(olds, news, ops)
    requires k == k2 || !Callbacks(out, trace, listId, olds, news, ops, k).ok
    ensures Callbacks(out, trace, listId, olds, news, ops, k2) == Callbacks(out, trace, listId, olds, news, ops, k)
    decreases k2
  {
    if k < k2 {
      CallbacksStopped(out, trace, listId, olds, news, ops, k, k2 - 1);
      CallbacksRaised(out, trace, listId, olds, news, ops, k2 - 1);
    }
  }

  /** A chain whose moves all succeed goes out whole. */
  lemma {:induction false} MovesSentAll(out: nat -> Outcome, pos: nat, chain: seq<Call>)
    requires forall m :: pos <= m < pos + |chain| ==> out(m).Success?
    ensures MovesSent(out, pos, chain) == Sent(|chain|, true)
    decreases |chain|
  {
    if chain != [] {
      MovesSentAll(out, pos + 1, chain[1..]);
    }
  }

  /** A chain stops right after its first failed move. */
  lemma {:induction false} MovesSentFailure(out: nat -> Outcome, pos: nat, chain: seq<Call>, i: nat)
    requires i < |chain| && out(pos + i).Failure?
    requires forall m :: pos <= m < pos + i ==> out(m).Success?
    ensures MovesSent(out, pos, chain) == Sent(i + 1, false)
    decreases i
  {
    if i > 0 {
      MovesSentFailure(out, pos + 1, chain[1..], i - 1);
    }
  }

  /** While no callback raised, entry `k` runs its callback on the state the earlier ones left. */
  lemma CallbacksStep(out: nat -> Outcome, trace: seq<Call>, listId: string, olds: seq<Task>, news: seq<Task>, ops: seq<Op<Task>>, k: nat)
    requires k < |ops| && FromLevel(olds, news, ops) && Callbacks(out, trace, listId, olds, news, ops, k).ok
    ensures Callbacks(out, trace, listId, olds, news, ops, k + 1) ==
      Callback(out, listId, olds, news, ops[k], out(ResponseAt(trace, listId, ops, k)), Callbacks(out, trace, listId, olds, news, ops, k))
  {
  }

  /** A turn of the callback loop on an UPDATE between equal tasks: nothing was sent and nothing changes. */
  lemma EntryUnchanged(out: nat -> Outcome, trace: seq<Call>, listId: string, olds: seq<Task>, news: seq<Task>, ops: seq<Op<Task>>, k: nat)
    requires k < |ops| && FromLevel(olds, news, ops) && Callbacks(out, trace, listId, olds, news, ops, k).ok
    requires ops[k].Update? && TaskEq(ops[k].oldItem, ops[k].newItem)
    ensures Callbacks(out, trace, listId, olds, news, ops, k + 1) == Callbacks(out, trace, listId, olds, news, ops, k)
    ensures |Batch(listId, ops, k + 1)| == |Batch(listId, ops, k)|
  {
    CallbacksStep(out, trace, listId, olds, news, ops, k);
  }

  /**
   * Any other turn: the entry sent the next request of the batch and its
   * callback runs with that request's outcome.
   */
  lemma EntrySent(out: nat -> Outcome, trace: seq<Call>, listId: string, olds: seq<Task>, news: seq<Task>, ops: seq<Op<Task>>, k: nat,
                  response: Outcome)
    requires k < |ops| && FromLevel(olds, news, ops) && Callbacks(out, trace, listId, olds, news, ops, k).ok
    requires !(ops[k].Update? && TaskEq(ops[k].oldItem, ops[k].newItem))
    requires response == out(|trace| + |Batch(listId, ops, k)|)
    ensures Callbacks(out, trace, listId, olds, news, ops, k + 1) ==
      Callback(out, listId, olds, news, ops[k], response, Callbacks(out, trace, listId, olds, news, ops, k))
  {
    CallbacksStep(out, trace, listId, olds, news, ops, k);
  }

  // ---------------------------------------------------------------------------
  // The list level
  // ---------------------------------------------------------------------------

  /** What list-level work did: the call trace afterwards and whether it got through without an exception. */
  datatype Effect = Effect(calls: seq<Call>, ok: bool)

  /**
   * `apply_task_list_op` after the calls in `trace`:
   * - DELETE deletes the list by id; a failed delete raises;
   * - INSERT creates the list, then creates its tasks under the id the
   *   service answered with; a failed insert raises;
   * - UPDATE does nothing when the two lists are equal, and otherwise
   *   reconciles the new tasks against the old ones under the old list's id.
   * Tasks at the top of a list have no parent: their moves name parent "".
   */
  function ListOp(out: nat -> Outcome, trace: seq<Call>, op: Op<TaskList>): (e: Effect)
  {
    match op
    case Delete(l) => Effect(trace + [DeleteTaskList(l.id)], out(|trace|).Success?)
    case Insert(l, _) =>
      var sent := trace + [InsertTaskList(ListToRequest(l))];
      var response := out(|trace|);
      if response.Failure? then Effect(sent, false)
      else
        var r := Level(out, sent, response.id, [], l.tasks, "");
        Effect(r.calls, r.ok)
    case Update(o, n, _) =>
      if ListEq(o, n) then Effect(trace, true)
      else
        var r := Level(out, trace, o.id, o.tasks, n.tasks, "");
        Effect(r.calls, r.ok)
  }

  /**
   * The first `k` list entries, each run to its end in turn: a list whose
   * work raised does not stop the lists after it, and the whole run raises
   * if any of them did.
   */
  function ListOps(out: nat -> Outcome, trace: seq<Call>, ops: seq<Op<TaskList>>, k: nat): (e: Effect)
    requires k <= |ops|
  {
    if k == 0 then Effect(trace, true)
    else
      var before := ListOps(out, trace, ops, k - 1);
      var e := ListOp(out, before.calls, ops[k - 1]);
      Effect(e.calls, before.ok && e.ok)
  }

  /** `reconcile`: diff the task lists by title and run every entry. */
  function ReconcileAll(out: nat -> Outcome, trace: seq<Call>, olds: seq<TaskList>, news: seq<TaskList>): Effect
  {
    var ops := Ops(olds, news, ListTitle);
    ListOps(out, trace, ops, |ops|)
  }
}
