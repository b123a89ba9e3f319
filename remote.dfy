/**
 * The remote task service as the reconciler sees it: the calls it makes, the
 * outcome each call gets, and what a chain of move calls does to the order of
 * the tasks under one parent.
 */
module Remote {
  import opened Matcher

  /** One request to the service. Bodies are the string maps `toRequest` builds. */
  datatype Call =
    | DeleteTaskList(taskListId: string)
    | InsertTaskList(body: map<string, string>)
    | DeleteTask(taskListId: string, task: string)
    | InsertTask(taskListId: string, body: map<string, string>)
    | PatchTask(taskListId: string, task: string, body: map<string, string>)
    | MoveTask(taskListId: string, task: string, parent: string, previous: string)

  /** What a call got back: success with the id in the response, or an error. */
  datatype Outcome = Success(id: string) | Failure

  /** A call that addresses tasks of the list `listId`. */
  predicate OnList(c: Call, listId: string)
  {
    match c
    case DeleteTask(l, _) => l == listId
    case InsertTask(l, _) => l == listId
    case PatchTask(l, _, _) => l == listId
    case MoveTask(l, _, _, _) => l == listId
    case _ => false
  }

  // ---------------------------------------------------------------------------
  // Move chains
  // ---------------------------------------------------------------------------

  /** The ids of a sequence of items. */
  function Ids<T>(ts: seq<T>, id: T -> string): (r: seq<string>)
    ensures |r| == |ts| && forall k :: 0 <= k < |ts| ==> r[k] == id(ts[k])
  {
    seq(|ts|, k requires 0 <= k < |ts| => id(ts[k]))
  }

  /**
   * The moves that put `ids` in this order under `parent`: each id goes after
   * its predecessor, the first to the front.
   */
  function MoveChain(listId: string, ids: seq<string>, parent: string): (r: seq<Call>)
    ensures |r| == |ids|
    ensures forall k :: 0 <= k < |r| ==> OnList(r[k], listId)
    ensures forall k :: 0 <= k < |r| ==>
      r[k] == MoveTask(listId, ids[k], parent, if k == 0 then "" else ids[k - 1])
  {
    seq(|ids|, k requires 0 <= k < |ids| => MoveTask(listId, ids[k], parent, if k == 0 then "" else ids[k - 1]))
  }

  /** `order` without the ids in `drop`, keeping the rest in place. */
  function Without(order: seq<string>, drop: seq<string>): (r: seq<string>)
    ensures forall x :: x in r <==> x in order && x !in drop
    ensures |r| <= |order|
  {
    if order == [] then []
    else if order[0] in drop then Without(order[1..], drop)
    else [order[0]] + Without(order[1..], drop)
  }

  /**
   * The sibling order after moving `id` behind `previous` (to the front when
   * `previous` is empty). A move behind an id that is not among the siblings
   * changes nothing. This rule is an assumption of this model: the service
   * itself is not part of it. No proved order reaches that branch, because
   * under the requires of `MoveChainOrders`, `MoveChainIdempotent` and
   * `TwoChainsOrder` every `previous` is the id the chain placed just before.
   */
  function Move(order: seq<string>, id: string, previous: string): (r: seq<string>)
  {
    var rest := Without(order, [id]);
    if previous == "" then [id] + rest
    else if previous !in rest then order
    else
      var p := FirstIndex(rest, previous);
      rest[..p + 1] + [id] + rest[p + 1..]
  }

  /** The sibling order after a sequence of calls; calls other than moves leave it alone. */
  function ApplyMoves(order: seq<string>, calls: seq<Call>): seq<string>
    decreases |calls|
  {
    if calls == [] then order
    else
      var c := calls[|calls| - 1];
      var before := ApplyMoves(order, calls[..|calls| - 1]);
      if c.MoveTask? then Move(before, c.task, c.previous) else before
  }

  lemma {:induction false} WithoutAppend(order: seq<string>, drop: seq<string>, x: string)
    ensures Without(order, drop + [x]) == Without(Without(order, drop), [x])
  {
    if order != [] {
      WithoutAppend(order[1..], drop, x);
    }
  }

  lemma {:induction false} WithoutConcat(a: seq<string>, b: seq<string>, drop: seq<string>)
    ensures Without(a + b, drop) == Without(a, drop) + Without(b, drop)
  {
    if a == [] {
      assert a + b == b;
    } else {
      assert (a + b)[1..] == a[1..] + b;
      WithoutConcat(a[1..], b, drop);
    }
  }

  lemma {:induction false} WithoutNone(order: seq<string>, drop: seq<string>)
    requires forall x :: x in order ==> x !in drop
    ensures Without(order, drop) == order
  {
    if order != [] {
      WithoutNone(order[1..], drop);
    }
  }

  lemma MovePrefix(prefix: seq<string>, rest: seq<string>, x: string)
    requires prefix != [] && prefix[|prefix| - 1] != "" && x !in prefix && Distinct(prefix)
    ensures Move(prefix + rest, x, prefix[|prefix| - 1]) == prefix + [x] + Without(rest, [x])
  {
    var w := Without(rest, [x]);
    var r := prefix + w;
    assert Without(prefix + rest, [x]) == r by {
      WithoutConcat(prefix, rest, [x]);
      WithoutNone(prefix, [x]);
    }
    var last := prefix[|prefix| - 1];
    assert r[|prefix| - 1] == last;
    var p := FirstIndex(r, last);
    assert p == |prefix| - 1;
    assert r[..p + 1] == prefix;
    assert r[p + 1..] == w;
    assert Move(prefix + rest, x, last) == r[..p + 1] + [x] + r[p + 1..];
  }

  /** One more move at the end of a chain: the chain's effect on the shorter chain's result. */
  lemma MoveChainLast(order: seq<string>, listId: string, ids: seq<string>, parent: string)
    requires ids != []
    ensures var init := ids[..|ids| - 1];
      ApplyMoves(order, MoveChain(listId, ids, parent)) ==
      Move(ApplyMoves(order, MoveChain(listId, init, parent)), ids[|ids| - 1], if init == [] then "" else init[|init| - 1])
  {
    var chain := MoveChain(listId, ids, parent);
    assert chain[..|chain| - 1] == MoveChain(listId, ids[..|ids| - 1], parent);
  }

  /** The step of `MoveChainOrders`: the last move puts its id right behind the ones already placed. */
  lemma MoveChainOrdersStep(order: seq<string>, init: seq<string>, x: string)
    requires Distinct(init + [x]) && x != "" && forall k :: 0 <= k < |init| ==> init[k] != ""
    ensures Move(init + Without(order, init), x, if init == [] then "" else init[|init| - 1])
      == init + [x] + Without(order, init + [x])
  {
    WithoutAppend(order, init, x);
    if init == [] {
      FirstMove(order, x);
    } else {
      assert Distinct(init) && x !in init by {
        assert forall k :: 0 <= k < |init| ==> (init + [x])[k] == init[k];
        assert (init + [x])[|init|] == x;
      }
      MovePrefix(init, Without(order, init), x);
    }
  }

  /** The first move of a chain puts its id in front. */
  lemma FirstMove(order: seq<string>, x: string)
    ensures Move([] + Without(order, []), x, "") == [] + [x] + Without(order, [] + [x])
  {
    WithoutNone(order, []);
    assert [] + Without(order, []) == order;
    assert [] + [x] == [x];
  }

  /**
   * A move chain over distinct, non-empty ids puts exactly those ids first, in
   * chain order, and keeps every other sibling behind them in its old order,
   * whatever the order was before.
   */
  lemma {:induction false} MoveChainOrders(order: seq<string>, listId: string, ids: seq<string>, parent: string)
    requires Distinct(ids) && forall k :: 0 <= k < |ids| ==> ids[k] != ""
    ensures ApplyMoves(order, MoveChain(listId, ids, parent)) == ids + Without(order, ids)
    decreases |ids|
  {
    if ids == [] {
      WithoutNone(order, []);
      assert MoveChain(listId, ids, parent) == [];
      assert ids + Without(order, ids) == order;
    } else {
      var init, x := ids[..|ids| - 1], ids[|ids| - 1];
      assert ids == init + [x];
      MoveChainOrders(order, listId, init, parent);
      MoveChainLast(order, listId, ids, parent);
      MoveChainOrdersStep(order, init, x);
    }
  }

  /** Sending the same chain again changes nothing. */
  lemma MoveChainIdempotent(order: seq<string>, listId: string, ids: seq<string>, parent: string)
    requires Distinct(ids) && forall k :: 0 <= k < |ids| ==> ids[k] != ""
    ensures var once := ApplyMoves(order, MoveChain(listId, ids, parent));
      ApplyMoves(once, MoveChain(listId, ids, parent)) == once
  {
    var w := Without(order, ids);
    MoveChainOrders(order, listId, ids, parent);
    MoveChainOrders(ids + w, listId, ids, parent);
    assert Without(ids + w, ids) == w by {
      WithoutConcat(ids, w, ids);
      WithoutAll(ids, ids);
      WithoutNone(w, ids);
      assert [] + w == w;
    }
  }

  lemma {:induction false} WithoutAll(order: seq<string>, drop: seq<string>)
    requires forall x :: x in order ==> x in drop
    ensures Without(order, drop) == []
  {
    if order != [] {
      WithoutAll(order[1..], drop);
    }
  }

  lemma {:induction false} ApplyMovesConcat(order: seq<string>, a: seq<Call>, b: seq<Call>)
    ensures ApplyMoves(order, a + b) == ApplyMoves(ApplyMoves(order, a), b)
    decreases |b|
  {
    if b == [] {
      assert a + b == a;
    } else {
      assert (a + b)[..|a + b| - 1] == a + b[..|b| - 1];
      ApplyMovesConcat(order, a, b[..|b| - 1]);
    }
  }

  /**
   * The two chains a reconciliation ends with, pending tasks first and then
   * completed ones: the completed tasks end up in front, then the pending ones,
   * then every sibling the chains did not name.
   */
  lemma TwoChainsOrder(order: seq<string>, listId: string, pending: seq<string>, completed: seq<string>, parent: string)
    requires Distinct(pending) && Distinct(completed)
    requires forall k :: 0 <= k < |pending| ==> pending[k] != "" && pending[k] !in completed
    requires forall k :: 0 <= k < |completed| ==> completed[k] != ""
    ensures ApplyMoves(order, MoveChain(listId, pending, parent) + MoveChain(listId, completed, parent))
      == completed + pending + Without(order, pending + completed)
  {
    ApplyMovesConcat(order, MoveChain(listId, pending, parent), MoveChain(listId, completed, parent));
    MoveChainOrders(order, listId, pending, parent);
    var mid := pending + Without(order, pending);
    MoveChainOrders(mid, listId, completed, parent);
    WithoutConcat(pending, Without(order, pending), completed);
    WithoutNone(pending, completed);
    WithoutTwice(order, pending, completed);
  }

  lemma {:induction false} WithoutTwice(order: seq<string>, a: seq<string>, b: seq<string>)
    ensures Without(Without(order, a), b) == Without(order, a + b)
  {
    if order != [] {
      WithoutTwice(order[1..], a, b);
    }
  }
}
