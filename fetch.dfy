/**
 * The tree assembly half of `fetch_task_lists`: the task-list records are
 * registered by id, one task request goes out per list and wanted completion
 * state, each answer's records become tasks (top-level ones appended to their
 * list, subtasks set aside under their parent's id), and at the end the lists
 * are sorted by title, each top-level task gets the subtasks set aside for its
 * id, and tasks and subtasks are sorted by position.
 *
 * The service is an input: `page` gives the answer a request gets, or nothing
 * when the request raised. An answer that names a further page makes the
 * callback raise, because the code calls `get` on the request object built for
 * that page instead of on an executed answer.
 */
module Fetch {
  import opened Builtins
  import opened Tasks
  import opened Matcher
  import opened Remote

  /** A task-list record as the service lists it. */
  datatype ListRecord = ListRecord(id: string, title: string)

  /** A task record as the service lists it; optional fields may be missing. */
  datatype TaskRecord = TaskRecord(
    id: string,
    title: string,
    notes: Option<string>,
    position: int,
    status: Option<string>,
    parent: Option<string>)

  /** The answer to one task request: the records of its first page and the token of the next ("" for none). */
  datatype Answer = Answer(items: seq<TaskRecord>, nextPageToken: string)

  /** One task request of the batch: the tasks of a list, pending or completed ones. */
  datatype Request = Request(listId: string, completed: bool)

  /** A record turned into a task, with the list it came from and its parent id ("" for none). */
  datatype Item = Item(listId: string, parent: string, task: Task)

  function RecordId(l: ListRecord): string { l.id }

  function ListId(l: TaskList): string { l.id }

  /** A task without its subtasks. */
  function Bare(t: Task): Task { t.(subtasks := []) }

  predicate TitleLe(a: TaskList, b: TaskList) { StrLe(a.title, b.title) }

  predicate PositionLe(a: Task, b: Task) { a.position <= b.position }

  // ---------------------------------------------------------------------------
  // The batch of requests
  // ---------------------------------------------------------------------------

  /** The completion states fetched under the status filter, pending ones first. */
  function Requested(filter: Option<TaskStatus>): (flags: seq<bool>)
    ensures false in flags <==> filter.None? || filter == Some(Pending)
    ensures true in flags <==> filter.None? || filter == Some(Completed)
  {
    (if filter.None? || filter == Some(Pending) then [false] else [])
    + (if filter.None? || filter == Some(Completed) then [true] else [])
  }

  function RequestsFor(listId: string, flags: seq<bool>): (reqs: seq<Request>)
    ensures |reqs| == |flags|
    ensures forall c :: 0 <= c < |flags| ==> reqs[c] == Request(listId, flags[c])
  {
    seq(|flags|, c requires 0 <= c < |flags| => Request(listId, flags[c]))
  }

  /** The batch in the order the requests are added: list by list, pending before completed. */
  function Requests(lists: seq<ListRecord>, filter: Option<TaskStatus>): (reqs: seq<Request>)
    ensures forall q :: 0 <= q < |reqs| ==> reqs[q].listId in Ids(lists, RecordId) && reqs[q].completed in Requested(filter)
    decreases |lists|
  {
    if lists == [] then []
    else
      var n := |lists| - 1;
      var init := Requests(lists[..n], filter);
      assert forall q :: 0 <= q < |init| ==> init[q].listId in Ids(lists, RecordId) by {
        forall x | x in Ids(lists[..n], RecordId) ensures x in Ids(lists, RecordId) {
          var k :| 0 <= k < n && Ids(lists[..n], RecordId)[k] == x;
          assert Ids(lists, RecordId)[k] == x;
        }
      }
      assert Ids(lists, RecordId)[n] == lists[n].id;
      init + RequestsFor(lists[n].id, Requested(filter))
  }

  // ---------------------------------------------------------------------------
  // The callbacks
  // ---------------------------------------------------------------------------

  /**
   * A record as the callback turns it into a task: the title stripped, a
   * missing note read as "", a missing status as "unknown", no subtasks yet.
   * A status no member matches raises, which is `None`.
   */
  function Convert(listId: string, rec: TaskRecord): (r: Option<Item>)
    ensures r.None? <==> StatusOf(rec.status.GetOr("unknown")).None?
    ensures r.Some? ==> r.value.listId == listId && r.value.task.subtasks == []
    ensures r.Some? ==> Casefold(Value(r.value.task.status)) == Casefold(rec.status.GetOr("unknown"))
  {
    var status := StatusOf(rec.status.GetOr("unknown"));
    if status.None? then None
    else Some(Item(listId, rec.parent.GetOr(""),
                   Task(rec.id, Strip(rec.title), rec.notes.GetOr(""), rec.position, status.value, [])))
  }

  /** One callback over the records of one answer, in order; one bad status fails it all. */
  function ConvertAll(listId: string, recs: seq<TaskRecord>): (r: Option<seq<Item>>)
    ensures r.Some? ==> |r.value| == |recs|
    decreases |recs|
  {
    if recs == [] then Some([])
    else
      var n := |recs| - 1;
      var init := ConvertAll(listId, recs[..n]);
      var last := Convert(listId, recs[n]);
      if init.None? || last.None? then None else Some(init.value + [last.value])
  }

  /**
   * The items of every callback, in batch order. A request that raised makes
   * its callback log and return, so it adds nothing; an answer with a next
   * page, or a bad status, raises out of the whole fetch, which is `None`.
   */
  function Items(reqs: seq<Request>, page: Request -> Option<Answer>): Option<seq<Item>>
    decreases |reqs|
  {
    if reqs == [] then Some([])
    else
      var n := |reqs| - 1;
      var init := Items(reqs[..n], page);
      if init.None? then None
      else match page(reqs[n])
        case None => init
        case Some(answer) =>
          if answer.nextPageToken != "" then None
          else
            var more := ConvertAll(reqs[n].listId, answer.items);
            if more.None? then None else Some(init.value + more.value)
  }

  /** The tasks appended to list `listId`: its items without a parent, in order. */
  function TopLevel(items: seq<Item>, listId: string): seq<Task>
    decreases |items|
  {
    if items == [] then []
    else
      var n := |items| - 1;
      var x := items[n];
      TopLevel(items[..n], listId) + (if x.parent == "" && x.listId == listId then [x.task] else [])
  }

  /** The tasks set aside under parent id `p`, from every list, in order. */
  function Children(items: seq<Item>, p: string): (r: seq<Task>)
    ensures p == "" ==> r == []
    decreases |items|
  {
    if items == [] then []
    else
      var n := |items| - 1;
      var x := items[n];
      Children(items[..n], p) + (if x.parent != "" && x.parent == p then [x.task] else [])
  }

  // ---------------------------------------------------------------------------
  // Assembly
  // ---------------------------------------------------------------------------

  /** The title the dictionary holds for `id`: the last record with that id wins. */
  function LastTitle(lists: seq<ListRecord>, id: string): string
    requires id in Ids(lists, RecordId)
  {
    lists[LastIndex(Ids(lists, RecordId), id)].title
  }

  /**
   * The dictionary's values in key order once the callbacks ran: one list per
   * distinct id, at the position of its first record, with the last record's
   * title and the tasks appended to it.
   */
  function Registered(lists: seq<ListRecord>, items: seq<Item>): (r: seq<TaskList>)
    ensures Map(r, ListId) == Keys(Ids(lists, RecordId))
  {
    var keys := Keys(Ids(lists, RecordId));
    seq(|keys|, k requires 0 <= k < |keys| => TaskList(keys[k], LastTitle(lists, keys[k]), TopLevel(items, keys[k])))
  }

  /** Each task gets the subtasks set aside for its id, sorted by position. */
  function Attached(ts: seq<Task>, items: seq<Item>): (r: seq<Task>)
    ensures |r| == |ts|
  {
    seq(|ts|, i requires 0 <= i < |ts| => ts[i].(subtasks := SortBy(Children(items, ts[i].id), PositionLe)))
  }

  function Build(l: TaskList, items: seq<Item>): TaskList
  {
    l.(tasks := SortBy(Attached(l.tasks, items), PositionLe))
  }

  function Finish(ls: seq<TaskList>, items: seq<Item>): (r: seq<TaskList>)
    ensures |r| == |ls|
  {
    seq(|ls|, k requires 0 <= k < |ls| => Build(ls[k], items))
  }

  /** What `fetch_task_lists` returns, or `None` when it raises. */
  function Fetched(lists: seq<ListRecord>, filter: Option<TaskStatus>, page: Request -> Option<Answer>): Option<seq<TaskList>>
  {
    var items := Items(Requests(lists, filter), page);
    if items.None? then None
    else Some(Finish(SortBy(Registered(lists, items.value), TitleLe), items.value))
  }

  // ---------------------------------------------------------------------------
  // The imperative assembly
  // ---------------------------------------------------------------------------

  /**
   * What the dictionaries hold once the callbacks have produced `seen`: each
   * registered list with the last title for its id and its top-level tasks,
   * and under each parent id the subtasks set aside for it.
   */
  ghost predicate Holds(lists: seq<ListRecord>, byId: map<string, TaskList>, subtasks: map<string, seq<Task>>, seen: seq<Item>)
  {
    && (forall x :: x in byId ==>
          x in Ids(lists, RecordId) && byId[x].id == x && byId[x].title == LastTitle(lists, x) && byId[x].tasks == TopLevel(seen, x))
    && (forall p :: Children(seen, p) == if p in subtasks then subtasks[p] else [])
  }

  /** The loop over the list records: register each by id and queue its task requests. */
  method RegisterLists(lists: seq<ListRecord>, filter: Option<TaskStatus>)
    returns (order: seq<string>, byId: map<string, TaskList>, requests: seq<Request>)
    ensures order == Keys(Ids(lists, RecordId))
    ensures forall x :: x in byId <==> x in order
    ensures Holds(lists, byId, map[], [])
    ensures requests == Requests(lists, filter)
  {
    byId, order, requests := map[], [], [];
    for i := 0 to |lists|
      invariant Registry(lists, i, order, byId)
      invariant requests == Requests(lists[..i], filter)
    {
      var id := lists[i].id;
      ghost var order0, byId0 := order, byId;
      if id !in byId {
        order := order + [id];
      }
      byId := byId[id := TaskList(id, lists[i].title, [])];
      RegistryStep(lists, i, order0, byId0, order);
      RequestsStep(lists, filter, i);
      requests := AddRequests(requests, id, filter);
    }
    RegistryHolds(lists, order, byId);
    assert lists[..|lists|] == lists;
  }

  /** The `batched_request.add` calls for one list: pending tasks, then completed ones, as the filter asks. */
  method AddRequests(requests: seq<Request>, id: string, filter: Option<TaskStatus>) returns (requests': seq<Request>)
    ensures requests' == requests + RequestsFor(id, Requested(filter))
  {
    requests' := requests;
    if filter.None? || filter == Some(Pending) {
      requests' := requests' + [Request(id, false)];
    }
    if filter.None? || filter == Some(Completed) {
      requests' := requests' + [Request(id, true)];
    }
  }

  /**
   * The dictionary after registering the first `n` records: its keys in
   * first-registration order, each with the last title seen for it and no
   * tasks yet.
   */
  ghost predicate Registry(lists: seq<ListRecord>, n: nat, order: seq<string>, byId: map<string, TaskList>)
  {
    && n <= |lists|
    && order == Keys(Ids(lists[..n], RecordId))
    && (forall x :: x in byId <==> x in order)
    && Titled(lists[..n], byId)
  }

  /** Each key of the dictionary is a record id, held with the last title seen for it and no tasks. */
  ghost predicate Titled(lists: seq<ListRecord>, byId: map<string, TaskList>)
  {
    forall x :: x in byId ==>
      x in Ids(lists, RecordId) && byId[x].id == x && byId[x].title == LastTitle(lists, x) && byId[x].tasks == []
  }

  lemma RegistryStep(lists: seq<ListRecord>, i: nat, order: seq<string>, byId: map<string, TaskList>, order': seq<string>)
    requires i < |lists| && Registry(lists, i, order, byId)
    requires order' == if lists[i].id in byId then order else order + [lists[i].id]
    ensures Registry(lists, i + 1, order', byId[lists[i].id := TaskList(lists[i].id, lists[i].title, [])])
  {
    var before, after := Ids(lists[..i], RecordId), Ids(lists[..i + 1], RecordId);
    assert after == before + [lists[i].id];
    KeysStep(before, lists[i].id);
    TitledStep(lists[..i], byId, lists[i]);
    assert lists[..i + 1] == lists[..i] + [lists[i]];
  }

  lemma TitledStep(lists: seq<ListRecord>, byId: map<string, TaskList>, l: ListRecord)
    requires Titled(lists, byId)
    ensures Titled(lists + [l], byId[l.id := TaskList(l.id, l.title, [])])
  {
    var before, after := Ids(lists, RecordId), Ids(lists + [l], RecordId);
    assert after == before + [l.id];
    assert LastIndex(after, l.id) == |lists|;
    forall x | x in before && x != l.id
      ensures x in after && LastTitle(lists + [l], x) == LastTitle(lists, x)
    {
      LastIndexSnoc(before, l.id, x);
    }
  }

  lemma RegistryHolds(lists: seq<ListRecord>, order: seq<string>, byId: map<string, TaskList>)
    requires Registry(lists, |lists|, order, byId)
    ensures order == Keys(Ids(lists, RecordId))
    ensures forall x :: x in byId <==> x in order
    ensures Holds(lists, byId, map[], [])
  {
    assert lists[..|lists|] == lists;
  }

  /**
   * The callback of one request: nothing when the request raised; an answer
   * with a next page raises; otherwise each record becomes a task, appended
   * to its list or set aside under its parent. `ok` is false when it raised.
   */
  method Callback(lists: seq<ListRecord>, listId: string, response: Option<Answer>,
                  byId: map<string, TaskList>, subtasks: map<string, seq<Task>>, ghost seen: seq<Item>)
    returns (ok: bool, byId': map<string, TaskList>, subtasks': map<string, seq<Task>>)
    requires listId in byId && Holds(lists, byId, subtasks, seen)
    ensures forall x :: x in byId' <==> x in byId
    ensures response.None? ==> ok && byId' == byId && subtasks' == subtasks
    ensures response.Some? && response.value.nextPageToken != "" ==> !ok
    ensures response.Some? && response.value.nextPageToken == "" ==> (ok <==> ConvertAll(listId, response.value.items).Some?)
    ensures response.Some? && ok ==> Holds(lists, byId', subtasks', seen + ConvertAll(listId, response.value.items).value)
  {
    if response.None? {
      return true, byId, subtasks;
    }
    if response.value.nextPageToken != "" {
      return false, byId, subtasks;
    }
    ok, byId', subtasks' := TakeRecords(lists, listId, response.value.items, byId, subtasks, seen);
  }

  /** The callback's loop over the records it got, in order, until one raises. */
  method TakeRecords(lists: seq<ListRecord>, listId: string, recs: seq<TaskRecord>,
                     byId: map<string, TaskList>, subtasks: map<string, seq<Task>>, ghost seen: seq<Item>)
    returns (ok: bool, byId': map<string, TaskList>, subtasks': map<string, seq<Task>>)
    requires listId in byId && Holds(lists, byId, subtasks, seen)
    ensures forall x :: x in byId' <==> x in byId
    ensures ok <==> ConvertAll(listId, recs).Some?
    ensures ok ==> Holds(lists, byId', subtasks', seen + ConvertAll(listId, recs).value)
  {
    byId', subtasks' := byId, subtasks;
    ghost var more: seq<Item> := [];
    assert seen + more == seen;
    for j := 0 to |recs|
      invariant ConvertAll(listId, recs[..j]) == Some(more)
      invariant listId in byId' && forall x :: x in byId' <==> x in byId
      invariant Holds(lists, byId', subtasks', seen + more)
    {
      var taken;
      ghost var item;
      taken, byId', subtasks', item := TakeRecord(lists, listId, recs[j], byId', subtasks', seen + more);
      if !taken {
        ConvertAllFails(listId, recs, j);
        return false, byId', subtasks';
      }
      ConvertAllStep(listId, recs, j, more);
      SeenSnoc(seen, more, item);
      more := more + [item];
    }
    assert recs[..|recs|] == recs;
    ok := true;
  }

  lemma SeenSnoc(seen: seq<Item>, more: seq<Item>, item: Item)
    ensures (seen + more) + [item] == seen + (more + [item])
  {
  }

  /**
   * One record of a callback: the task built from it goes to its list when it
   * has no parent, and is set aside under its parent otherwise. A status no
   * member matches raises instead.
   */
  method TakeRecord(lists: seq<ListRecord>, listId: string, rec: TaskRecord,
                    byId: map<string, TaskList>, subtasks: map<string, seq<Task>>, ghost seen: seq<Item>)
    returns (ok: bool, byId': map<string, TaskList>, subtasks': map<string, seq<Task>>, ghost item: Item)
    requires listId in byId && Holds(lists, byId, subtasks, seen)
    ensures ok <==> Convert(listId, rec).Some?
    ensures forall x :: x in byId' <==> x in byId
    ensures ok ==> item == Convert(listId, rec).value && Holds(lists, byId', subtasks', seen + [item])
  {
    byId', subtasks' := byId, subtasks;
    var status := Lookup(rec.status.GetOr("unknown"));
    if status.None? {
      return false, byId', subtasks', Item(listId, "", Task("", "", "", 0, Unknown, []));
    }
    var task := Task(rec.id, Strip(rec.title), rec.notes.GetOr(""), rec.position, status.value, []);
    var parent := rec.parent.GetOr("");
    item := Item(listId, parent, task);
    if parent != "" {
      SetAside(lists, byId', subtasks', seen, item);
      subtasks' := subtasks'[parent := (if parent in subtasks' then subtasks'[parent] else []) + [task]];
    } else {
      AppendTopLevel(lists, byId', subtasks', seen, item);
      byId' := byId'[listId := byId'[listId].(tasks := byId'[listId].tasks + [task])];
    }
    ok := true;
  }

  /** Executing the batch: every callback in order, until one raises. */
  method RunBatch(lists: seq<ListRecord>, requests: seq<Request>, page: Request -> Option<Answer>,
                  byId: map<string, TaskList>)
    returns (ok: bool, byId': map<string, TaskList>, subtasks: map<string, seq<Task>>, ghost items: seq<Item>)
    requires Holds(lists, byId, map[], [])
    requires forall q :: 0 <= q < |requests| ==> requests[q].listId in byId
    ensures forall x :: x in byId' <==> x in byId
    ensures ok <==> Items(requests, page).Some?
    ensures ok ==> Items(requests, page) == Some(items) && Holds(lists, byId', subtasks, items)
  {
    byId', subtasks, items := byId, map[], [];
    for q := 0 to |requests|
      invariant Items(requests[..q], page) == Some(items)
      invariant forall x :: x in byId' <==> x in byId
      invariant Holds(lists, byId', subtasks, items)
    {
      ItemsStep(requests, page, q, items);
      var done;
      var response := page(requests[q]);
      done, byId', subtasks := Callback(lists, requests[q].listId, response, byId', subtasks, items);
      if !done {
        ItemsFailurePersists(requests, page, q + 1);
        return false, byId', subtasks, items;
      }
      if response.Some? {
        items := items + ConvertAll(requests[q].listId, response.value.items).value;
      }
    }
    assert requests[..|requests|] == requests;
    ok := true;
  }

  /** Each task gets the subtasks set aside for its id, sorted by position. */
  method AttachSubtasks(tasks: seq<Task>, subtasks: map<string, seq<Task>>, ghost items: seq<Item>)
    returns (r: seq<Task>)
    requires forall p :: Children(items, p) == if p in subtasks then subtasks[p] else []
    ensures r == Attached(tasks, items)
  {
    r := tasks;
    for i := 0 to |r|
      invariant |r| == |tasks|
      invariant forall m :: 0 <= m < i ==> r[m] == Attached(tasks, items)[m]
      invariant forall m :: i <= m < |r| ==> r[m] == tasks[m]
    {
      var subs := if r[i].id in subtasks then subtasks[r[i].id] else [];
      assert subs == Children(items, r[i].id);
      r := r[i := r[i].(subtasks := SortBy(subs, PositionLe))];
    }
  }

  /** `list(id_to_task_list.values())`: the lists in the order their ids were first registered. */
  method ListValues(lists: seq<ListRecord>, order: seq<string>, byId: map<string, TaskList>,
                    subtasks: map<string, seq<Task>>, ghost items: seq<Item>)
    returns (result: seq<TaskList>)
    requires order == Keys(Ids(lists, RecordId)) && forall x :: x in byId <==> x in order
    requires Holds(lists, byId, subtasks, items)
    ensures result == Registered(lists, items)
  {
    HeldLists(lists, order, byId, subtasks, items);
    result := LookUp(order, byId, Registered(lists, items));
  }

  /** The values of the dictionary in key order, which the caller knows to be `want`. */
  method LookUp(order: seq<string>, byId: map<string, TaskList>, ghost want: seq<TaskList>)
    returns (result: seq<TaskList>)
    requires |want| == |order|
    requires forall k :: 0 <= k < |order| ==> order[k] in byId && byId[order[k]] == want[k]
    ensures result == want
  {
    result := [];
    for k := 0 to |order|
      invariant |result| == k
      invariant forall m :: 0 <= m < k ==> result[m] == want[m]
    {
      result := result + [byId[order[k]]];
    }
  }

  /** The dictionary holds, under each key in order, the registered list at that position. */
  lemma HeldLists(lists: seq<ListRecord>, order: seq<string>, byId: map<string, TaskList>,
                  subtasks: map<string, seq<Task>>, items: seq<Item>)
    requires order == Keys(Ids(lists, RecordId)) && forall x :: x in byId <==> x in order
    requires Holds(lists, byId, subtasks, items)
    ensures |Registered(lists, items)| == |order|
    ensures forall k :: 0 <= k < |order| ==> order[k] in byId && byId[order[k]] == Registered(lists, items)[k]
  {
    var want := Registered(lists, items);
    forall k | 0 <= k < |order| ensures order[k] in byId && byId[order[k]] == want[k] {
      assert want[k] == TaskList(order[k], LastTitle(lists, order[k]), TopLevel(items, order[k]));
    }
  }

  /** The end of `fetch_task_lists`: lists sorted by title, subtasks attached, tasks sorted by position. */
  method Assemble(lists: seq<ListRecord>, order: seq<string>, byId: map<string, TaskList>,
                  subtasks: map<string, seq<Task>>, ghost items: seq<Item>)
    returns (result: seq<TaskList>)
    requires order == Keys(Ids(lists, RecordId)) && forall x :: x in byId <==> x in order
    requires Holds(lists, byId, subtasks, items)
    ensures result == Finish(SortBy(Registered(lists, items), TitleLe), items)
  {
    result := ListValues(lists, order, byId, subtasks, items);
    result := SortBy(result, TitleLe);
    result := BuildAll(result, subtasks, items);
  }

  /** The loop over the sorted lists: attach each task's subtasks, then sort the tasks by position. */
  method BuildAll(lists: seq<TaskList>, subtasks: map<string, seq<Task>>, ghost items: seq<Item>)
    returns (result: seq<TaskList>)
    requires forall p :: Children(items, p) == if p in subtasks then subtasks[p] else []
    ensures result == Finish(lists, items)
  {
    result := lists;
    for k := 0 to |result|
      invariant |result| == |lists|
      invariant forall m :: 0 <= m < k ==> result[m] == Build(lists[m], items)
      invariant forall m :: k <= m < |result| ==> result[m] == lists[m]
    {
      var tasks := AttachSubtasks(result[k].tasks, subtasks, items);
      tasks := SortBy(tasks, PositionLe);
      result := result[k := result[k].(tasks := tasks)];
    }
  }

  /** `fetch_task_lists` once the list records are in and every request of the batch is answered by `page`. */
  method FetchTaskLists(lists: seq<ListRecord>, filter: Option<TaskStatus>, page: Request -> Option<Answer>)
    returns (r: Option<seq<TaskList>>)
    ensures r == Fetched(lists, filter, page)
  {
    var order, byId, requests := RegisterLists(lists, filter);
    var ok, byId', subtasks, items := RunBatch(lists, requests, page, byId);
    if !ok {
      return None;
    }
    var result := Assemble(lists, order, byId', subtasks, items);
    return Some(result);
  }

  /** Registering record `i`: the ids, titles and requests after it, from the ones before. */
  lemma RequestsStep(lists: seq<ListRecord>, filter: Option<TaskStatus>, i: nat)
    requires i < |lists|
    ensures Requests(lists[..i + 1], filter) == Requests(lists[..i], filter) + RequestsFor(lists[i].id, Requested(filter))
  {
    assert lists[..i + 1][..i] == lists[..i];
  }

  lemma LastIndexSnoc(ts: seq<string>, y: string, x: string)
    requires x in ts && x != y
    ensures LastIndex(ts + [y], x) == LastIndex(ts, x)
  {
    var i := LastIndex(ts, x);
    assert (ts + [y])[i] == x;
  }

  /** Setting a subtask aside keeps the dictionaries in step with the items seen. */
  lemma SetAside(lists: seq<ListRecord>, byId: map<string, TaskList>, subtasks: map<string, seq<Task>>, seen: seq<Item>, x: Item)
    requires Holds(lists, byId, subtasks, seen)
    requires x.parent != ""
    ensures Holds(lists, byId, subtasks[x.parent := (if x.parent in subtasks then subtasks[x.parent] else []) + [x.task]], seen + [x])
  {
    var subtasks' := subtasks[x.parent := (if x.parent in subtasks then subtasks[x.parent] else []) + [x.task]];
    forall l ensures TopLevel(seen + [x], l) == TopLevel(seen, l) {
      TopLevelSnoc(seen, x, l);
    }
    forall p ensures Children(seen + [x], p) == if p in subtasks' then subtasks'[p] else [] {
      ChildrenSnoc(seen, x, p);
    }
  }

  /** Appending a top-level task to its list keeps the dictionaries in step with the items seen. */
  lemma AppendTopLevel(lists: seq<ListRecord>, byId: map<string, TaskList>, subtasks: map<string, seq<Task>>, seen: seq<Item>, x: Item)
    requires Holds(lists, byId, subtasks, seen)
    requires x.parent == "" && x.listId in byId
    ensures Holds(lists, byId[x.listId := byId[x.listId].(tasks := byId[x.listId].tasks + [x.task])], subtasks, seen + [x])
  {
    forall l ensures TopLevel(seen + [x], l) == TopLevel(seen, l) + (if x.listId == l then [x.task] else []) {
      TopLevelSnoc(seen, x, l);
    }
    forall p ensures Children(seen + [x], p) == Children(seen, p) {
      ChildrenSnoc(seen, x, p);
    }
  }

  lemma TopLevelSnoc(seen: seq<Item>, x: Item, l: string)
    ensures TopLevel(seen + [x], l) == TopLevel(seen, l) + (if x.parent == "" && x.listId == l then [x.task] else [])
  {
    assert (seen + [x])[..|seen|] == seen;
  }

  lemma ChildrenSnoc(seen: seq<Item>, x: Item, p: string)
    ensures Children(seen + [x], p) == Children(seen, p) + (if x.parent != "" && x.parent == p then [x.task] else [])
  {
    assert (seen + [x])[..|seen|] == seen;
  }

  lemma ConvertAllStep(listId: string, recs: seq<TaskRecord>, j: nat, more: seq<Item>)
    requires j < |recs| && ConvertAll(listId, recs[..j]) == Some(more) && Convert(listId, recs[j]).Some?
    ensures ConvertAll(listId, recs[..j + 1]) == Some(more + [Convert(listId, recs[j]).value])
  {
    assert recs[..j + 1][..j] == recs[..j];
  }

  /** A record with a bad status makes its whole callback raise. */
  lemma {:induction false} ConvertAllFails(listId: string, recs: seq<TaskRecord>, j: nat)
    requires j < |recs| && Convert(listId, recs[j]).None?
    ensures ConvertAll(listId, recs).None?
    decreases |recs|
  {
    if j < |recs| - 1 {
      assert recs[..|recs| - 1][j] == recs[j];
      ConvertAllFails(listId, recs[..|recs| - 1], j);
    }
  }

  /** The items after request `q` from the items before it. */
  lemma ItemsStep(reqs: seq<Request>, page: Request -> Option<Answer>, q: nat, items: seq<Item>)
    requires q < |reqs| && Items(reqs[..q], page) == Some(items)
    ensures Items(reqs[..q + 1], page) ==
      match page(reqs[q])
      case None => Some(items)
      case Some(answer) =>
        if answer.nextPageToken != "" || ConvertAll(reqs[q].listId, answer.items).None? then None
        else Some(items + ConvertAll(reqs[q].listId, answer.items).value)
  {
    assert reqs[..q + 1][..q] == reqs[..q];
  }

  lemma {:induction false} ItemsFailurePersists(reqs: seq<Request>, page: Request -> Option<Answer>, q: nat)
    requires q <= |reqs| && Items(reqs[..q], page).None?
    ensures Items(reqs, page).None?
    decreases |reqs| - q
  {
    if q < |reqs| {
      assert reqs[..q + 1][..q] == reqs[..q];
      ItemsFailurePersists(reqs, page, q + 1);
    } else {
      assert reqs[..q] == reqs;
    }
  }
}
