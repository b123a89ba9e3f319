/**
 * What `fetch_task_lists` returns when it does not raise: one list per
 * distinct list id, holding the last title listed for it, the lists sorted by
 * title; each list holds exactly its top-level tasks sorted by position, each
 * of those exactly the subtasks set aside for its id, sorted by position, and
 * nothing deeper.
 */
module FetchFacts {
  import opened Builtins
  import opened Tasks
  import opened Matcher
  import opened Remote
  import opened Fetch

  /** Items straight from the callbacks carry no subtasks. */
  ghost predicate AllBare(items: seq<Item>)
  {
    forall i :: 0 <= i < |items| ==> items[i].task.subtasks == []
  }

  ghost predicate BareTasks(ts: seq<Task>)
  {
    forall j :: 0 <= j < |ts| ==> ts[j].subtasks == []
  }

  lemma TitleLeTotalPreorder()
    ensures TotalPreorder(TitleLe)
  {
    forall a: TaskList, b: TaskList ensures TitleLe(a, b) || TitleLe(b, a) {
      StrLeTotal(a.title, b.title);
    }
    forall a: TaskList, b: TaskList, c: TaskList | TitleLe(a, b) && TitleLe(b, c) ensures TitleLe(a, c) {
      StrLeTransitive(a.title, b.title, c.title);
    }
  }

  lemma PositionLeTotalPreorder()
    ensures TotalPreorder(PositionLe)
  {
  }

  lemma {:induction false} ConvertAllBare(listId: string, recs: seq<TaskRecord>)
    requires ConvertAll(listId, recs).Some?
    ensures AllBare(ConvertAll(listId, recs).value)
    ensures forall i :: 0 <= i < |recs| ==> ConvertAll(listId, recs).value[i].listId == listId
    decreases |recs|
  {
    if recs != [] {
      ConvertAllBare(listId, recs[..|recs| - 1]);
    }
  }

  /** Every item the callbacks produce is a task without subtasks. */
  lemma {:induction false} ItemsBare(reqs: seq<Request>, page: Request -> Option<Answer>)
    requires Items(reqs, page).Some?
    ensures AllBare(Items(reqs, page).value)
    decreases |reqs|
  {
    if reqs != [] {
      var n := |reqs| - 1;
      ItemsBare(reqs[..n], page);
      if page(reqs[n]).Some? {
        ConvertAllBare(reqs[n].listId, page(reqs[n]).value.items);
      }
    }
  }

  lemma {:induction false} TopLevelBare(items: seq<Item>, listId: string)
    requires AllBare(items)
    ensures BareTasks(TopLevel(items, listId))
    decreases |items|
  {
    if items != [] {
      TopLevelBare(items[..|items| - 1], listId);
    }
  }

  lemma {:induction false} ChildrenBare(items: seq<Item>, p: string)
    requires AllBare(items)
    ensures BareTasks(Children(items, p))
    decreases |items|
  {
    if items != [] {
      ChildrenBare(items[..|items| - 1], p);
    }
  }

  /** Attaching subtasks and then dropping them again gives back tasks that had none. */
  lemma AttachedBare(ts: seq<Task>, items: seq<Item>)
    requires BareTasks(ts)
    ensures Map(Attached(ts, items), Bare) == ts
  {
  }

  /** The lists come back sorted by title. */
  lemma FetchedSortedByTitle(lists: seq<ListRecord>, filter: Option<TaskStatus>, page: Request -> Option<Answer>)
    requires Fetched(lists, filter, page).Some?
    ensures SortedBy(Fetched(lists, filter, page).value, TitleLe)
  {
    var items := Items(Requests(lists, filter), page).value;
    var sorted := SortBy(Registered(lists, items), TitleLe);
    TitleLeTotalPreorder();
    SortByIsSorted(Registered(lists, items), TitleLe);
    var r := Finish(sorted, items);
    assert forall k :: 0 <= k < |r| ==> r[k].title == sorted[k].title;
  }

  /** An entry of the lists sorted by title is one of the registered lists. */
  lemma SortedEntry(lists: seq<ListRecord>, items: seq<Item>, k: nat)
    requires k < |SortBy(Registered(lists, items), TitleLe)|
    ensures var e := SortBy(Registered(lists, items), TitleLe)[k];
      && e.id in Ids(lists, RecordId) && e.title == LastTitle(lists, e.id) && e.tasks == TopLevel(items, e.id)
  {
    var reg := Registered(lists, items);
    var sorted := SortBy(reg, TitleLe);
    assert sorted[k] in multiset(reg);
    var m :| 0 <= m < |reg| && reg[m] == sorted[k];
    assert Map(reg, ListId)[m] == reg[m].id;
  }

  /**
   * Each distinct id of the listed records gives exactly one list, holding
   * the title of the last record with that id.
   */
  lemma FetchedOneListPerId(lists: seq<ListRecord>, filter: Option<TaskStatus>, page: Request -> Option<Answer>)
    requires Fetched(lists, filter, page).Some?
    ensures var r := Fetched(lists, filter, page).value;
      multiset(Map(r, ListId)) == multiset(Keys(Ids(lists, RecordId)))
    ensures var r := Fetched(lists, filter, page).value;
      forall k :: 0 <= k < |r| ==> r[k].id in Ids(lists, RecordId) && r[k].title == LastTitle(lists, r[k].id)
  {
    var items := Items(Requests(lists, filter), page).value;
    var reg := Registered(lists, items);
    var sorted := SortBy(reg, TitleLe);
    var r := Finish(sorted, items);
    MapSortBy(reg, TitleLe, ListId);
    assert Map(r, ListId) == Map(sorted, ListId);
    forall k | 0 <= k < |r| ensures r[k].id in Ids(lists, RecordId) && r[k].title == LastTitle(lists, r[k].id) {
      SortedEntry(lists, items, k);
    }
  }

  /**
   * The tasks a list ends with, from its top-level tasks: sorted by position,
   * the same tasks once their subtasks are dropped, each holding exactly the
   * subtasks set aside for its id, sorted by position and without subtasks.
   */
  lemma BuiltTasks(top: seq<Task>, items: seq<Item>)
    requires AllBare(items) && BareTasks(top)
    ensures var ts := SortBy(Attached(top, items), PositionLe);
      && SortedBy(ts, PositionLe)
      && multiset(Map(ts, Bare)) == multiset(top)
      && forall i :: 0 <= i < |ts| ==>
           && SortedBy(ts[i].subtasks, PositionLe)
           && multiset(ts[i].subtasks) == multiset(Children(items, ts[i].id))
           && BareTasks(ts[i].subtasks)
  {
    var attached := Attached(top, items);
    var ts := SortBy(attached, PositionLe);
    PositionLeTotalPreorder();
    SortByIsSorted(attached, PositionLe);
    AttachedBare(top, items);
    MapSortBy(attached, PositionLe, Bare);
    forall i | 0 <= i < |ts|
      ensures SortedBy(ts[i].subtasks, PositionLe)
      ensures multiset(ts[i].subtasks) == multiset(Children(items, ts[i].id))
      ensures BareTasks(ts[i].subtasks)
    {
      assert ts[i] in multiset(attached);
      var j :| 0 <= j < |attached| && attached[j] == ts[i];
      SubtasksPlaced(Children(items, top[j].id), items, top[j].id);
    }
  }

  lemma SubtasksPlaced(children: seq<Task>, items: seq<Item>, id: string)
    requires AllBare(items) && children == Children(items, id)
    ensures SortedBy(SortBy(children, PositionLe), PositionLe)
    ensures BareTasks(SortBy(children, PositionLe))
  {
    PositionLeTotalPreorder();
    SortByIsSorted(children, PositionLe);
    ChildrenBare(items, id);
    var subs := SortBy(children, PositionLe);
    forall s | 0 <= s < |subs| ensures subs[s].subtasks == [] {
      assert subs[s] in multiset(children);
    }
  }

  /**
   * Each list holds exactly the top-level tasks its requests brought back,
   * sorted by position; each of those holds exactly the subtasks set aside
   * under its id, sorted by position, and those hold no subtasks.
   */
  lemma FetchedTasksPlaced(lists: seq<ListRecord>, filter: Option<TaskStatus>, page: Request -> Option<Answer>, k: nat)
    requires Fetched(lists, filter, page).Some? && k < |Fetched(lists, filter, page).value|
    ensures var items := Items(Requests(lists, filter), page).value;
      var l := Fetched(lists, filter, page).value[k];
      && SortedBy(l.tasks, PositionLe)
      && multiset(Map(l.tasks, Bare)) == multiset(TopLevel(items, l.id))
      && forall i :: 0 <= i < |l.tasks| ==>
           && SortedBy(l.tasks[i].subtasks, PositionLe)
           && multiset(l.tasks[i].subtasks) == multiset(Children(items, l.tasks[i].id))
           && BareTasks(l.tasks[i].subtasks)
  {
    var items := Items(Requests(lists, filter), page).value;
    var sorted := SortBy(Registered(lists, items), TitleLe);
    SortedEntry(lists, items, k);
    ItemsBare(Requests(lists, filter), page);
    TopLevelBare(items, sorted[k].id);
    BuiltTasks(sorted[k].tasks, items);
  }

  /**
   * An answer that names a further page makes the whole fetch raise, whatever
   * the other answers are.
   */
  lemma NextPageRaises(lists: seq<ListRecord>, filter: Option<TaskStatus>, page: Request -> Option<Answer>, q: nat)
    requires q < |Requests(lists, filter)|
    requires page(Requests(lists, filter)[q]).Some? && page(Requests(lists, filter)[q]).value.nextPageToken != ""
    ensures Fetched(lists, filter, page).None?
  {
    ItemsNextPage(Requests(lists, filter), page, q);
  }

  lemma ItemsNextPage(reqs: seq<Request>, page: Request -> Option<Answer>, q: nat)
    requires q < |reqs| && page(reqs[q]).Some? && page(reqs[q]).value.nextPageToken != ""
    ensures Items(reqs, page).None?
  {
    if Items(reqs[..q], page).Some? {
      ItemsStep(reqs, page, q, Items(reqs[..q], page).value);
      ItemsFailurePersists(reqs, page, q + 1);
    } else {
      ItemsFailurePersists(reqs, page, q);
    }
  }

  /** A filter on the unknown status requests nothing, so every list comes back empty. */
  lemma UnknownFilterFetchesNoTasks(lists: seq<ListRecord>, page: Request -> Option<Answer>)
    ensures Fetched(lists, Some(Unknown), page).Some?
    ensures var r := Fetched(lists, Some(Unknown), page).value;
      forall k :: 0 <= k < |r| ==> r[k].tasks == []
  {
    assert Requested(Some(Unknown)) == [];
    var reg := Registered(lists, []);
    var sorted := SortBy(reg, TitleLe);
    forall k | 0 <= k < |sorted| ensures sorted[k].tasks == [] {
      assert sorted[k] in multiset(reg);
    }
  }
}
