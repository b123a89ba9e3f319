/**
 * The reconciler as the program runs it: a service object that records every
 * call it makes and gets each call's outcome from an oracle, and the methods
 * that walk the task lists and tasks, fill in remote ids in place and recurse
 * into subtasks from the batch callbacks. Each method is proved to do exactly
 * what the functions of module `Reconcile` describe.
 */
module GoogleApi {
  import opened Builtins
  import opened Tasks
  import opened Matcher
  import opened Remote
  import opened Reconcile

  method ToArray(s: seq<Task>) returns (b: array<Task>)
    ensures fresh(b) && b[..] == s
  {
    b := new Task[|s|](k requires 0 <= k < |s| => s[k]);
  }

  /** The move `fix_task_order` sends for task `i` is the chain's `i`-th, and sending it grows the sent prefix by one. */
  lemma MoveStep(prefix: seq<Call>, listId: string, tasks: seq<Task>, parent: string, i: nat)
    requires i < |tasks|
    ensures var chain := MoveChain(listId, Ids(tasks, TaskId), parent);
      && chain[i] == MoveTask(listId, tasks[i].id, parent, if i > 0 then tasks[i - 1].id else "")
      && (prefix + chain[..i]) + [chain[i]] == prefix + chain[..i + 1]
  {
    var chain := MoveChain(listId, Ids(tasks, TaskId), parent);
    assert chain[..i + 1] == chain[..i] + [chain[i]];
  }

  class GoogleApiService {
    /** Every call made so far, in order. */
    var calls: seq<Call>
    /** The outcome the service gives the call at each position of the trace. */
    const outcome: nat -> Outcome

    constructor (outcome: nat -> Outcome)
      ensures calls == [] && this.outcome == outcome
    {
      calls := [];
      this.outcome := outcome;
    }

    /** Makes one call; its outcome is the oracle's for the call's position. */
    method Send(c: Call) returns (r: Outcome)
      modifies this
      ensures calls == old(calls) + [c] && r == outcome(|old(calls)|)
    {
      r := outcome(|calls|);
      calls := calls + [c];
    }

    /**
     * `reconcile`: diff the task lists by title, then run every entry to its
     * end, in order; the result says whether none of them raised.
     */
    method Reconcile(olds: seq<TaskList>, news: seq<TaskList>) returns (ok: bool)
      modifies this
      ensures var e := ReconcileAll(outcome, old(calls), olds, news);
        calls == e.calls && ok == e.ok
    {
      var ops := GenOps(olds, news, ListTitle);
      ok := true;
      for k := 0 to |ops|
        invariant var e := ListOps(outcome, old(calls), ops, k);
          calls == e.calls && ok == e.ok
      {
        var done := ApplyTaskListOp(ops[k]);
        ok := ok && done;
      }
    }

    /** `apply_task_list_op`: one list-level entry. */
    method ApplyTaskListOp(op: Op<TaskList>) returns (ok: bool)
      modifies this
      ensures var e := ListOp(outcome, old(calls), op);
        calls == e.calls && ok == e.ok
    {
      match op {
        case Delete(l) =>
          var response := Send(DeleteTaskList(l.id));
          ok := response.Success?;
        case Insert(l, _) =>
          var response := Send(InsertTaskList(ListToRequest(l)));
          if response.Failure? {
            return false;
          }
          var a := ToArray(l.tasks);
          ok := ReconcileTasks(response.id, [], a, "");
        case Update(o, n, _) =>
          if ListEq(o, n) {
            ok := true;
          } else {
            var a := ToArray(n.tasks);
            ok := ReconcileTasks(o.id, o.tasks, a, "");
          }
      }
    }

    /**
     * `reconcile_tasks`: diff one level, apply the entries (recursing into
     * subtasks from the callbacks), then move the pending tasks and then the
     * completed ones into the order `a` holds, under `parent`.
     */
    method ReconcileTasks(listId: string, olds: seq<Task>, a: array<Task>, parent: string) returns (ok: bool)
      modifies this, a
      decreases Size(olds) + Size(a[..]), 5
      ensures var r := Level(outcome, old(calls), listId, olds, old(a[..]), parent);
        calls == r.calls && a[..] == r.tasks && ok == r.ok
    {
      ghost var trace, news := calls, a[..];
      var ops := GenOps(olds, a[..], TaskTitle);
      ok := ApplyTaskOps(listId, olds, ops, a);
      ghost var s := Callbacks(outcome, trace, listId, olds, news, ops, |ops|);
      assert Level(outcome, trace, listId, olds, news, parent) == Ordered(outcome, listId, s, parent);
      if !ok {
        return;
      }
      var pending, completed := Partition(a[..]);
      ok := FixTaskOrder(listId, pending, parent);
      ghost var first := Moved(outcome, s, MoveChain(listId, Ids(pending, TaskId), parent));
      if !ok {
        return;
      }
      ok := FixTaskOrder(listId, completed, parent);
    }

    /**
     * `apply_task_ops`: one pass over the entries builds the batch (giving
     * every UPDATE target its old id on the way), then the batch is executed:
     * all requests are sent, then the callbacks run in order.
     */
    method ApplyTaskOps(listId: string, ghost olds: seq<Task>, ops: seq<Op<Task>>, a: array<Task>) returns (ok: bool)
      requires FromLevel(olds, a[..], ops)
      modifies this, a
      decreases Size(olds) + Size(a[..]), 4
      ensures var r := Callbacks(outcome, old(calls), listId, olds, old(a[..]), ops, |ops|);
        calls == r.calls && a[..] == r.tasks && ok == r.ok
    {
      ghost var news, trace := a[..], calls;
      var batch := PrepareBatch(listId, ops, a);
      var results := SendBatch(batch);
      ok := RunCallbacks(listId, olds, news, ops, results, trace, a);
    }

    /**
     * The loop of `apply_task_ops` that fills the batch: one request per entry
     * (none for an UPDATE between equal tasks). An UPDATE target takes the old
     * task's id first, so the patch body, built from the target, carries it.
     */
    method PrepareBatch(listId: string, ops: seq<Op<Task>>, a: array<Task>) returns (batch: seq<Call>)
      requires Targets(ops, a.Length)
      requires forall m :: 0 <= m < |ops| && ops[m].Update? ==> ops[m].newItem == a[ops[m].idx]
      modifies a
      ensures batch == Batch(listId, ops, |ops|) && a[..] == Prepared(old(a[..]), ops, |ops|)
    {
      ghost var news := a[..];
      batch := [];
      for k := 0 to |ops|
        invariant batch == Batch(listId, ops, k) && a[..] == Prepared(news, ops, k)
      {
        match ops[k]
        case Delete(x) =>
          batch := batch + [DeleteTask(listId, x.id)];
        case Insert(x, _) =>
          batch := batch + [InsertTask(listId, ToRequest(x))];
        case Update(o, n, i) =>
          a[i] := a[i].(id := o.id);
          if !TaskEq(o, n) {
            batch := batch + [PatchTask(listId, o.id, ToRequest(a[i]))];
          }
      }
    }

    /** The first half of executing a batch: every request is sent, in order. */
    method SendBatch(batch: seq<Call>) returns (results: seq<Outcome>)
      modifies this
      ensures calls == old(calls) + batch
      ensures |results| == |batch| && forall m :: 0 <= m < |batch| ==> results[m] == outcome(|old(calls)| + m)
    {
      results := [];
      for j := 0 to |batch|
        invariant calls == old(calls) + batch[..j]
        invariant |results| == j && forall m :: 0 <= m < j ==> results[m] == outcome(|old(calls)| + m)
      {
        var r := Send(batch[j]);
        results := results + [r];
        assert batch[..j + 1] == batch[..j] + [batch[j]];
      }
      assert batch[..|batch|] == batch;
    }

    /**
     * The second half of executing a batch: the callbacks, in order, each
     * with the outcome of its own request. An exception stops the rest.
     */
    method RunCallbacks(listId: string, ghost olds: seq<Task>, ghost news: seq<Task>, ops: seq<Op<Task>>,
                        results: seq<Outcome>, ghost trace: seq<Call>, a: array<Task>) returns (ok: bool)
      requires FromLevel(olds, news, ops)
      requires calls == trace + Batch(listId, ops, |ops|) && a[..] == Prepared(news, ops, |ops|)
      requires |results| == |Batch(listId, ops, |ops|)| && forall m :: 0 <= m < |results| ==> results[m] == outcome(|trace| + m)
      modifies this, a
      decreases Size(olds) + Size(news), 3
      ensures var r := Callbacks(outcome, trace, listId, olds, news, ops, |ops|);
        calls == r.calls && a[..] == r.tasks && ok == r.ok
    {
      var j := 0;
      var k := 0;
      ok := true;
      while k < |ops| && ok
        invariant k <= |ops| && j == |Batch(listId, ops, k)|
        invariant var r := Callbacks(outcome, trace, listId, olds, news, ops, k);
          calls == r.calls && a[..] == r.tasks && ok == r.ok
        decreases |ops| - k
      {
        ok, j := Entry(listId, olds, news, ops, k, results, j, trace, a);
        k := k + 1;
      }
      CallbacksStopped(outcome, trace, listId, olds, news, ops, k, |ops|);
    }

    /** One turn of the callback loop: entry `k`, whose response (if it sent a request) is `results[j]`. */
    method Entry(listId: string, ghost olds: seq<Task>, ghost news: seq<Task>, ops: seq<Op<Task>>, k: nat,
                 results: seq<Outcome>, j: nat, ghost trace: seq<Call>, a: array<Task>) returns (ok: bool, j': nat)
      requires k < |ops| && FromLevel(olds, news, ops) && j == |Batch(listId, ops, k)|
      requires |results| == |Batch(listId, ops, |ops|)| && forall m :: 0 <= m < |results| ==> results[m] == outcome(|trace| + m)
      requires var s := Callbacks(outcome, trace, listId, olds, news, ops, k);
        s.ok && calls == s.calls && a[..] == s.tasks
      modifies this, a
      decreases Size(olds) + Size(news), 2
      ensures j' == |Batch(listId, ops, k + 1)|
      ensures var r := Callbacks(outcome, trace, listId, olds, news, ops, k + 1);
        calls == r.calls && a[..] == r.tasks && ok == r.ok
    {
      ghost var s := Callbacks(outcome, trace, listId, olds, news, ops, k);
      if ops[k].Update? && TaskEq(ops[k].oldItem, ops[k].newItem) {
        EntryUnchanged(outcome, trace, listId, olds, news, ops, k);
        ok, j' := true, j;
      } else {
        BatchStep(listId, ops, k);
        EntrySent(outcome, trace, listId, olds, news, ops, k, results[j]);
        ok := Respond(listId, olds, news, ops[k], results[j], s, a);
        j' := j + 1;
      }
    }

    /**
     * The callback of one entry, given the outcome of its request: DELETE
     * only logs, INSERT and UPDATE go to their own callbacks.
     */
    method Respond(listId: string, ghost olds: seq<Task>, ghost news: seq<Task>, op: Op<Task>,
                   response: Outcome, ghost s: Run, a: array<Task>) returns (ok: bool)
      requires FromInputs(op, olds, news, TaskTitle) && |s.tasks| == |news|
      requires !(op.Update? && TaskEq(op.oldItem, op.newItem))
      requires calls == s.calls && a[..] == s.tasks && s.ok
      modifies this, a
      decreases Size(olds) + Size(news), 1
      ensures var r := Callback(outcome, listId, olds, news, op, response, s);
        calls == r.calls && a[..] == r.tasks && ok == r.ok
    {
      CallbackSmaller(olds, news, op);
      match op {
        case Delete(_) =>
          ok := true;
        case Insert(x, i) =>
          ok := InsertCallback(listId, x, i, response, a);
        case Update(o, n, i) =>
          ok := UpdateCallback(listId, o, n, i, response, a);
      }
    }

    /**
     * `insert_callback`: a failed insert raises (the code reads the id of a
     * missing response); otherwise the target takes the new id and the
     * inserted task's subtasks are created under it.
     */
    method InsertCallback(listId: string, x: Task, i: nat, response: Outcome, a: array<Task>) returns (ok: bool)
      requires i < a.Length
      modifies this, a
      decreases Size(x.subtasks), 6
      ensures response.Failure? ==> !ok && calls == old(calls) && a[..] == old(a[..])
      ensures response.Success? ==>
        var sub := Level(outcome, old(calls), listId, [], x.subtasks, response.id);
        && calls == sub.calls && ok == sub.ok
        && a[..] == old(a[..])[i := old(a[i]).(id := response.id, subtasks := sub.tasks)]
    {
      if response.Failure? {
        return false;
      }
      a[i] := a[i].(id := response.id);
      var b := ToArray(x.subtasks);
      ok := ReconcileTasks(listId, [], b, response.id);
      a[i] := a[i].(subtasks := b[..]);
    }

    /**
     * `update_callback`: a failed patch is logged and changes nothing;
     * otherwise the new task's subtasks are reconciled against the old
     * task's under the old task's id.
     */
    method UpdateCallback(listId: string, o: Task, n: Task, i: nat, response: Outcome, a: array<Task>) returns (ok: bool)
      requires i < a.Length
      modifies this, a
      decreases Size(o.subtasks) + Size(n.subtasks), 6
      ensures response.Failure? ==> ok && calls == old(calls) && a[..] == old(a[..])
      ensures response.Success? ==>
        var sub := Level(outcome, old(calls), listId, o.subtasks, n.subtasks, o.id);
        && calls == sub.calls && ok == sub.ok
        && a[..] == old(a[..])[i := old(a[i]).(subtasks := sub.tasks)]
    {
      if response.Failure? {
        return true;
      }
      var b := ToArray(n.subtasks);
      ok := ReconcileTasks(listId, o.subtasks, b, o.id);
      a[i] := a[i].(subtasks := b[..]);
    }

    /** The loop that splits a level into its pending and completed tasks. */
    method Partition(ts: seq<Task>) returns (pending: seq<Task>, completed: seq<Task>)
      ensures pending == PendingOf(ts) && completed == CompletedOf(ts)
    {
      pending, completed := [], [];
      for k := 0 to |ts|
        invariant pending == PendingOf(ts[..k]) && completed == CompletedOf(ts[..k])
      {
        assert ts[..k + 1][..k] == ts[..k];
        if IsCompleted(ts[k]) {
          completed := completed + [ts[k]];
        } else {
          pending := pending + [ts[k]];
        }
      }
      assert ts[..|ts|] == ts;
    }

    /**
     * `fix_task_order`: one move per task, in order, each behind the task
     * before it (the first to the front), under `parent`. A failed move raises.
     */
    method FixTaskOrder(listId: string, tasks: seq<Task>, parent: string) returns (ok: bool)
      modifies this
      ensures var chain := MoveChain(listId, Ids(tasks, TaskId), parent);
        var s := MovesSent(outcome, |old(calls)|, chain);
        calls == old(calls) + chain[..s.count] && ok == s.ok
    {
      ghost var chain := MoveChain(listId, Ids(tasks, TaskId), parent);
      ghost var base := |calls|;
      for i := 0 to |tasks|
        invariant calls == old(calls) + chain[..i]
        invariant forall m :: base <= m < base + i ==> outcome(m).Success?
      {
        var previous := if i > 0 then tasks[i - 1].id else "";
        MoveStep(old(calls), listId, tasks, parent, i);
        var r := Send(MoveTask(listId, tasks[i].id, parent, previous));
        if r.Failure? {
          MovesSentFailure(outcome, base, chain, i);
          return false;
        }
      }
      MovesSentAll(outcome, base, chain);
      assert chain[..|tasks|] == chain;
      return true;
    }
  }
}
