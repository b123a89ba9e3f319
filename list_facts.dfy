/**
 * What `reconcile` guarantees at the level of task lists, whatever the
 * service answers: every entry runs even when an earlier one raised, so every
 * list that vanished is deleted and every list that appeared is created; the
 * work on a kept list addresses the old list's id; and two equal snapshots
 * lead to no call at all.
 */
module ListFacts {
  import opened Tasks
  import opened Matcher
  import opened Remote
  import opened Reconcile
  import opened LevelFacts

  /**
   * The calls one list entry makes, whatever the outcomes: a DELETE sends
   * exactly the delete of the list; an INSERT sends the insert of the list
   * and then only calls on the list the service created; an UPDATE only
   * calls on the old list.
   */
  lemma ListOpCalls(out: nat -> Outcome, trace: seq<Call>, op: Op<TaskList>)
    ensures op.Delete? ==> ListOp(out, trace, op).calls == trace + [DeleteTaskList(op.item.id)]
    ensures op.Insert? ==>
      var sent := trace + [InsertTaskList(ListToRequest(op.item))];
      match out(|trace|)
      case Success(id) => Extends(sent, ListOp(out, trace, op).calls, id)
      case Failure => ListOp(out, trace, op).calls == sent
    ensures op.Update? ==> Extends(trace, ListOp(out, trace, op).calls, op.oldItem.id)
  {
    match op
    case Delete(_) =>
    case Insert(l, _) =>
      var sent := trace + [InsertTaskList(ListToRequest(l))];
      if out(|trace|).Success? {
        LevelExtends(out, sent, out(|trace|).id, [], l.tasks, "");
      }
    case Update(o, n, _) =>
      if !ListEq(o, n) {
        LevelExtends(out, trace, o.id, o.tasks, n.tasks, "");
      }
  }

  /** A list entry never takes back a call: the trace before it is a prefix of the trace after. */
  lemma ListOpGrows(out: nat -> Outcome, trace: seq<Call>, op: Op<TaskList>)
    ensures trace <= ListOp(out, trace, op).calls
  {
    ListOpCalls(out, trace, op);
    if op.Insert? {
      var sent := trace + [InsertTaskList(ListToRequest(op.item))];
      assert trace <= sent;
    }
  }

  /** The trace after the first `k` entries is a prefix of the trace after the first `k2`. */
  lemma ListOpsGrow(out: nat -> Outcome, trace: seq<Call>, ops: seq<Op<TaskList>>, k: nat, k2: nat)
    requires k <= k2 <= |ops|
    ensures ListOps(out, trace, ops, k).calls <= ListOps(out, trace, ops, k2).calls
  {
    var g := (m: nat) => if m <= |ops| then ListOps(out, trace, ops, m).calls else [];
    ListOpsSteps(out, trace, ops, g);
    PrefixChain(g, k, k2);
  }

  /** Each entry extends the trace left by the entries before it. */
  lemma ListOpsSteps(out: nat -> Outcome, trace: seq<Call>, ops: seq<Op<TaskList>>, g: nat -> seq<Call>)
    requires forall m: nat :: g(m) == if m <= |ops| then ListOps(out, trace, ops, m).calls else []
    ensures forall m: nat :: m < |ops| ==> g(m) <= g(m + 1)
  {
    forall m: nat | m < |ops| ensures g(m) <= g(m + 1) {
      ListOpsStep(out, trace, ops, m);
      assert g(m) == ListOps(out, trace, ops, m).calls;
      assert g(m + 1) == ListOps(out, trace, ops, m + 1).calls;
    }
  }

  lemma ListOpsStep(out: nat -> Outcome, trace: seq<Call>, ops: seq<Op<TaskList>>, m: nat)
    requires m < |ops|
    ensures ListOps(out, trace, ops, m).calls <= ListOps(out, trace, ops, m + 1).calls
  {
    ListOpGrows(out, ListOps(out, trace, ops, m).calls, ops[m]);
  }

  /** A chain of sequences, each a prefix of the next, keeps its first a prefix of its last. */
  lemma {:induction false} PrefixChain<T>(g: nat -> seq<T>, k: nat, k2: nat)
    requires k <= k2
    requires forall m :: k <= m < k2 ==> g(m) <= g(m + 1)
    ensures g(k) <= g(k2)
    decreases k2 - k
  {
    if k < k2 {
      PrefixChain(g, k + 1, k2);
    }
  }

  /** Entry `k`'s first call sits right after the calls of the entries before it. */
  lemma EntryFirstCall(out: nat -> Outcome, trace: seq<Call>, ops: seq<Op<TaskList>>, k: nat)
    requires k < |ops|
    ensures var before := ListOps(out, trace, ops, k).calls;
      var all := ListOps(out, trace, ops, |ops|).calls;
      && (ops[k].Delete? ==> |before| < |all| && all[|before|] == DeleteTaskList(ops[k].item.id))
      && (ops[k].Insert? ==> |before| < |all| && all[|before|] == InsertTaskList(ListToRequest(ops[k].item)))
  {
    var before := ListOps(out, trace, ops, k).calls;
    var after := ListOps(out, trace, ops, k + 1).calls;
    ListOpCalls(out, before, ops[k]);
    ListOpsGrow(out, trace, ops, k + 1, |ops|);
    if ops[k].Delete? {
      assert after[|before|] == DeleteTaskList(ops[k].item.id);
    }
    if ops[k].Insert? {
      var sent := before + [InsertTaskList(ListToRequest(ops[k].item))];
      assert sent <= after;
      assert sent[|before|] == InsertTaskList(ListToRequest(ops[k].item));
    }
  }

  /**
   * Every old list whose title no new list carries is deleted (the last one
   * with that title, as the dictionary keeps it), even when the work on
   * other lists raised.
   */
  lemma VanishedListsAreDeleted(out: nat -> Outcome, trace: seq<Call>, olds: seq<TaskList>, news: seq<TaskList>, p: nat)
    requires p < |olds|
    requires var ot := Titles(olds, ListTitle);
      ot[p] !in Titles(news, ListTitle) && LastIndex(ot, ot[p]) == p
    ensures DeleteTaskList(olds[p].id) in ReconcileAll(out, trace, olds, news).calls
  {
    var ops := Ops(olds, news, ListTitle);
    var ot := Titles(olds, ListTitle);
    var k := OpIndex(olds, news, ListTitle, ot[p]);
    assert ops[k] == Delete(olds[p]);
    EntryFirstCall(out, trace, ops, k);
  }

  /**
   * Every new list whose title no old list carries and no other new list
   * repeats is created, even when the work on other lists raised.
   */
  lemma NewListsAreInserted(out: nat -> Outcome, trace: seq<Call>, olds: seq<TaskList>, news: seq<TaskList>, i: nat)
    requires i < |news|
    requires var nt := Titles(news, ListTitle);
      nt[i] !in Titles(olds, ListTitle) && FirstIndex(nt, nt[i]) == i && LastIndex(nt, nt[i]) == i
    ensures InsertTaskList(ListToRequest(news[i])) in ReconcileAll(out, trace, olds, news).calls
  {
    var ops := Ops(olds, news, ListTitle);
    var nt := Titles(news, ListTitle);
    var k := OpIndex(olds, news, ListTitle, nt[i]);
    assert ops[k] == Insert(news[i], i);
    EntryFirstCall(out, trace, ops, k);
  }

  /** Reconciling two equal snapshots (title by title, by `TaskList.__eq__`) makes no call and raises nothing. */
  lemma UnchangedListsNoCalls(out: nat -> Outcome, trace: seq<Call>, olds: seq<TaskList>, news: seq<TaskList>)
    requires ListsEq(olds, news)
    ensures ReconcileAll(out, trace, olds, news) == Effect(trace, true)
  {
    var ops := Ops(olds, news, ListTitle);
    assert Titles(olds, ListTitle) == Titles(news, ListTitle);
    DiffOfSameTitles(olds, news, ListTitle);
    UnchangedListOps(out, trace, olds, news, ops, |ops|);
  }

  lemma {:induction false} UnchangedListOps(out: nat -> Outcome, trace: seq<Call>, olds: seq<TaskList>, news: seq<TaskList>,
                                            ops: seq<Op<TaskList>>, k: nat)
    requires k <= |ops| && ListsEq(olds, news)
    requires forall m :: 0 <= m < |ops| ==>
      ops[m].Update? && ops[m].idx < |olds| && ops[m].oldItem == olds[ops[m].idx] && ops[m].newItem == news[ops[m].idx]
    ensures ListOps(out, trace, ops, k) == Effect(trace, true)
  {
    if k > 0 {
      UnchangedListOps(out, trace, olds, news, ops, k - 1);
      assert ListEq(ops[k - 1].oldItem, ops[k - 1].newItem);
    }
  }
}
