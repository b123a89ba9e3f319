/**
 * The title-keyed diff that `gen_tasklist_ops` and `gen_task_ops` compute.
 *
 * Both generators fill an insertion-ordered dictionary keyed by title: first
 * a DELETE entry for every old item, then, for every new item at index i, an
 * UPDATE that keeps the item the entry already held, or a fresh INSERT.
 * `GenOps` is that loop; `Ops` states its result declaratively, title by title,
 * and the lemmas below state what the result means. The two generators
 * differ only in the item type, which is a type parameter here together with
 * the item's title.
 */
module Matcher {

  /** `ReconcileOp` together with the tuple it tags. */
  datatype Op<T> = Delete(item: T) | Insert(item: T, idx: nat) | Update(oldItem: T, newItem: T, idx: nat)
  {
    /** The tuple's second component: what an overwriting UPDATE keeps. */
    function Held(): T
    {
      match this
      case Delete(x) => x
      case Insert(x, _) => x
      case Update(o, _, _) => o
    }
  }

  function Titles<T>(s: seq<T>, title: T -> string): (r: seq<string>)
    ensures |r| == |s|
    ensures forall i :: 0 <= i < |s| ==> r[i] == title(s[i])
  {
    seq(|s|, i requires 0 <= i < |s| => title(s[i]))
  }

  ghost predicate Distinct(ts: seq<string>)
  {
    forall i, j :: 0 <= i < j < |ts| ==> ts[i] != ts[j]
  }

  /** The key order of a dictionary filled with the keys `ts` in order: first occurrences. */
  function Keys(ts: seq<string>): (ks: seq<string>)
    ensures forall t :: t in ks <==> t in ts
    ensures Distinct(ks)
  {
    if ts == [] then []
    else
      var ks := Keys(ts[..|ts| - 1]);
      if ts[|ts| - 1] in ks then ks else ks + [ts[|ts| - 1]]
  }

  /** The last index holding `t`, or -1. */
  function LastIndex(ts: seq<string>, t: string): (i: int)
    ensures -1 <= i < |ts|
    ensures i == -1 <==> t !in ts
    ensures i >= 0 ==> ts[i] == t && forall j :: i < j < |ts| ==> ts[j] != t
  {
    if ts == [] then -1
    else if ts[|ts| - 1] == t then |ts| - 1
    else LastIndex(ts[..|ts| - 1], t)
  }

  /** The first index holding `t`, or -1. */
  function FirstIndex(ts: seq<string>, t: string): (i: int)
    ensures -1 <= i < |ts|
    ensures i == -1 <==> t !in ts
    ensures i >= 0 ==> ts[i] == t && forall j :: 0 <= j < i ==> ts[j] != t
  {
    if ts == [] then -1
    else if ts[0] == t then 0
    else
      var i := FirstIndex(ts[1..], t);
      if i == -1 then -1 else i + 1
  }

  /**
   * The entry the dictionary ends up holding for title `t`:
   * - no new item has the title: DELETE of the last old item with it;
   * - otherwise the last new item with the title, at index i, decides: an
   *   UPDATE against the last old item with the title if there is one, else
   *   against the first new item with the title if that is another item, else
   *   an INSERT.
   */
  function OpFor<T>(olds: seq<T>, news: seq<T>, title: T -> string, t: string): (r: Op<T>)
    requires t in Titles(olds, title) || t in Titles(news, title)
    ensures FromInputs(r, olds, news, title) && title(r.Held()) == t
    ensures r.Delete? <==> t !in Titles(news, title)
  {
    var ot, nt := Titles(olds, title), Titles(news, title);
    if t !in nt then Delete(olds[LastIndex(ot, t)])
    else
      var i := LastIndex(nt, t);
      if t in ot then Update(olds[LastIndex(ot, t)], news[i], i)
      else if FirstIndex(nt, t) < i then Update(news[FirstIndex(nt, t)], news[i], i)
      else Insert(news[i], i)
  }

  /**
   * Where an entry's items come from: a DELETE holds an old item; an INSERT or
   * UPDATE targets a new index and carries the new item there, with the same
   * title; an UPDATE's old item is an old item or another new item.
   */
  ghost predicate FromInputs<T>(op: Op<T>, olds: seq<T>, news: seq<T>, title: T -> string)
  {
    match op
    case Delete(x) => x in olds
    case Insert(x, i) => i < |news| && x == news[i]
    case Update(o, n, i) =>
      && i < |news| && n == news[i] && title(o) == title(n)
      && (o in olds || exists f :: 0 <= f < |news| && f != i && news[f] == o)
  }

  /** The whole op list: one entry per distinct title, in dictionary key order. */
  function Ops<T>(olds: seq<T>, news: seq<T>, title: T -> string): (ops: seq<Op<T>>)
    ensures forall k :: 0 <= k < |ops| ==> FromInputs(ops[k], olds, news, title)
    ensures forall k :: 0 <= k < |ops| ==> (ops[k].Delete? <==> title(ops[k].Held()) !in Titles(news, title))
  {
    var ts := Titles(olds, title) + Titles(news, title);
    var ks := Keys(ts);
    seq(|ks|, k requires 0 <= k < |ks| =>
      assert ks[k] in ts;
      OpFor(olds, news, title, ks[k]))
  }

  // ---------------------------------------------------------------------------
  // The generator
  // ---------------------------------------------------------------------------

  lemma TitlesPrefix<T>(s: seq<T>, title: T -> string, i: nat)
    requires i < |s|
    ensures Titles(s[..i + 1], title) == Titles(s[..i], title) + [title(s[i])]
    ensures Titles(s[..i + 1], title)[..i] == Titles(s[..i], title)
  {
  }

  /** One step of the first loop: DELETE(olds[i]) overwrites the entry for its title. */
  lemma OpForOldStep<T>(olds: seq<T>, title: T -> string, i: nat, t: string)
    requires i < |olds|
    requires t in Titles(olds[..i + 1], title)
    ensures t == title(olds[i]) ==> OpFor(olds[..i + 1], [], title, t) == Delete(olds[i])
    ensures t != title(olds[i]) ==>
      t in Titles(olds[..i], title) && OpFor(olds[..i + 1], [], title, t) == OpFor(olds[..i], [], title, t)
  {
    var ot, ot' := Titles(olds[..i], title), Titles(olds[..i + 1], title);
    TitlesPrefix(olds, title, i);
    if t != title(olds[i]) {
      assert ot' == ot + [title(olds[i])];
      assert LastIndex(ot', t) == LastIndex(ot, t);
    }
  }

  /** One step of the second loop, for the title of news[j]. */
  lemma OpForNewStep<T>(olds: seq<T>, news: seq<T>, title: T -> string, j: nat)
    requires j < |news|
    ensures var t := title(news[j]);
      OpFor(olds, news[..j + 1], title, t) ==
        if t in Titles(olds, title) || t in Titles(news[..j], title)
        then Update(OpFor(olds, news[..j], title, t).Held(), news[j], j)
        else Insert(news[j], j)
  {
    var t := title(news[j]);
    var nt := Titles(news[..j], title);
    TitlesPrefix(news, title, j);
    if t in Titles(olds, title) {
      OpForNewStepOld(olds, news, title, j);
    } else if t in nt {
      OpForNewStepRepeat(olds, news, title, j);
    } else {
      FirstIndexAppend(nt, t, t);
    }
  }

  lemma OpForNewStepOld<T>(olds: seq<T>, news: seq<T>, title: T -> string, j: nat)
    requires j < |news|
    requires title(news[j]) in Titles(olds, title)
    ensures var t := title(news[j]);
      OpFor(olds, news[..j + 1], title, t) == Update(OpFor(olds, news[..j], title, t).Held(), news[j], j)
  {
    var t := title(news[j]);
    TitlesPrefix(news, title, j);
    assert LastIndex(Titles(news[..j + 1], title), t) == j;
  }

  lemma OpForNewStepRepeat<T>(olds: seq<T>, news: seq<T>, title: T -> string, j: nat)
    requires j < |news|
    requires title(news[j]) !in Titles(olds, title)
    requires title(news[j]) in Titles(news[..j], title)
    ensures var t := title(news[j]);
      OpFor(olds, news[..j + 1], title, t) == Update(OpFor(olds, news[..j], title, t).Held(), news[j], j)
  {
    var t := title(news[j]);
    var nt, nt' := Titles(news[..j], title), Titles(news[..j + 1], title);
    TitlesPrefix(news, title, j);
    FirstIndexAppend(nt, t, t);
    var f := FirstIndex(nt, t);
    assert LastIndex(nt', t) == j && FirstIndex(nt', t) == f;
    RepeatedTitleIsUpdate(olds, news[..j + 1], title, t);
    HeldOfNewTitle(olds, news[..j], title, t);
    assert news[..j + 1][f] == news[f] == news[..j][f];
    assert news[..j + 1][j] == news[j];
  }

  /** A title only new items carry, met twice or more, becomes an UPDATE of the first by the last. */
  lemma RepeatedTitleIsUpdate<T>(olds: seq<T>, news: seq<T>, title: T -> string, t: string)
    requires t !in Titles(olds, title) && t in Titles(news, title)
    requires FirstIndex(Titles(news, title), t) < LastIndex(Titles(news, title), t)
    ensures var nt := Titles(news, title);
      OpFor(olds, news, title, t) == Update(news[FirstIndex(nt, t)], news[LastIndex(nt, t)], LastIndex(nt, t))
  {
  }

  /** For a title only new items carry, the entry holds the first of them. */
  lemma HeldOfNewTitle<T>(olds: seq<T>, news: seq<T>, title: T -> string, t: string)
    requires t !in Titles(olds, title) && t in Titles(news, title)
    ensures OpFor(olds, news, title, t).Held() == news[FirstIndex(Titles(news, title), t)]
  {
    var nt := Titles(news, title);
    assert FirstIndex(nt, t) <= LastIndex(nt, t);
  }

  /** The entries for every other title stay as they were. */
  lemma OpForNewOther<T>(olds: seq<T>, news: seq<T>, title: T -> string, j: nat, t: string)
    requires j < |news|
    requires t != title(news[j])
    requires t in Titles(olds, title) || t in Titles(news[..j], title)
    ensures OpFor(olds, news[..j + 1], title, t) == OpFor(olds, news[..j], title, t)
  {
    var nt, nt' := Titles(news[..j], title), Titles(news[..j + 1], title);
    TitlesPrefix(news, title, j);
    assert t in nt' <==> t in nt;
    if t in nt {
      assert LastIndex(nt', t) == LastIndex(nt, t);
      FirstIndexAppend(nt, title(news[j]), t);
    }
  }

  lemma FirstIndexAppend(ts: seq<string>, x: string, t: string)
    ensures t in ts ==> FirstIndex(ts + [x], t) == FirstIndex(ts, t)
    ensures t !in ts && t == x ==> FirstIndex(ts + [x], t) == |ts|
  {
    var i := FirstIndex(ts + [x], t);
    if t in ts {
      var k := FirstIndex(ts, t);
      assert (ts + [x])[k] == t;
    }
  }

  lemma KeysStep(ts: seq<string>, x: string)
    ensures Keys(ts + [x]) == if x in ts then Keys(ts) else Keys(ts) + [x]
  {
    assert (ts + [x])[..|ts|] == ts;
  }

  /** The dictionary's domain is exactly its key list. */
  ghost predicate Domain<T>(keys: seq<string>, table: map<string, Op<T>>)
  {
    table.Keys == set u | u in keys
  }

  /** Every entry is the one `OpFor` gives after the first loop has seen olds[..i]. */
  ghost predicate OldTable<T>(olds: seq<T>, title: T -> string, i: nat, table: map<string, Op<T>>)
    requires i <= |olds|
  {
    forall t :: t in table ==> t in Titles(olds[..i], title) && table[t] == OpFor(olds[..i], [], title, t)
  }

  /** Every entry is the one `OpFor` gives after the second loop has seen news[..j]. */
  ghost predicate NewTable<T>(olds: seq<T>, news: seq<T>, title: T -> string, j: nat, table: map<string, Op<T>>)
    requires j <= |news|
  {
    forall t :: t in table ==>
      (t in Titles(olds, title) || t in Titles(news[..j], title)) && table[t] == OpFor(olds, news[..j], title, t)
  }

  /** The dictionary after the first loop has seen olds[..i]. */
  ghost predicate AfterOld<T>(olds: seq<T>, title: T -> string, i: nat, keys: seq<string>, table: map<string, Op<T>>)
    requires i <= |olds|
  {
    keys == Keys(Titles(olds[..i], title)) && Domain(keys, table) && OldTable(olds, title, i, table)
  }

  /** The dictionary after the second loop has also seen news[..j]. */
  ghost predicate AfterNew<T>(olds: seq<T>, news: seq<T>, title: T -> string, j: nat, keys: seq<string>, table: map<string, Op<T>>)
    requires j <= |news|
  {
    keys == Keys(Titles(olds, title) + Titles(news[..j], title)) && Domain(keys, table) && NewTable(olds, news, title, j, table)
  }

  /** One key more or none: the key list and the table's domain stay in step. */
  lemma DomainStep<T>(keys: seq<string>, table: map<string, Op<T>>, t: string, op: Op<T>)
    requires Domain(keys, table)
    ensures Domain(if t in table then keys else keys + [t], table[t := op])
  {
    var keys' := if t in table then keys else keys + [t];
    forall u ensures u in table[t := op] <==> u in keys' {
      assert u in table <==> u in keys;
    }
  }

  lemma OldTableStep<T>(olds: seq<T>, title: T -> string, i: nat, table: map<string, Op<T>>)
    requires i < |olds| && OldTable(olds, title, i, table)
    ensures OldTable(olds, title, i + 1, table[title(olds[i]) := Delete(olds[i])])
  {
    var table' := table[title(olds[i]) := Delete(olds[i])];
    forall u | u in table'
      ensures u in Titles(olds[..i + 1], title) && table'[u] == OpFor(olds[..i + 1], [], title, u)
    {
      OpForOldStep(olds, title, i, u);
    }
  }

  lemma AfterOldStep<T>(olds: seq<T>, title: T -> string, i: nat, keys: seq<string>, table: map<string, Op<T>>)
    requires i < |olds| && AfterOld(olds, title, i, keys, table)
    ensures var t := title(olds[i]);
      AfterOld(olds, title, i + 1, if t in table then keys else keys + [t], table[t := Delete(olds[i])])
  {
    var t := title(olds[i]);
    TitlesPrefix(olds, title, i);
    assert t in table <==> t in Titles(olds[..i], title) by {
      assert t in table <==> t in keys;
    }
    KeysStep(Titles(olds[..i], title), t);
    DomainStep(keys, table, t, Delete(olds[i]));
    OldTableStep(olds, title, i, table);
  }

  lemma AfterOldDone<T>(olds: seq<T>, news: seq<T>, title: T -> string, keys: seq<string>, table: map<string, Op<T>>)
    requires AfterOld(olds, title, |olds|, keys, table)
    ensures AfterNew(olds, news, title, 0, keys, table)
  {
    assert olds[..|olds|] == olds;
    assert news[..0] == [];
    assert Titles(olds, title) + Titles(news[..0], title) == Titles(olds, title);
  }

  lemma AfterNewStep<T>(olds: seq<T>, news: seq<T>, title: T -> string, j: nat, keys: seq<string>, table: map<string, Op<T>>)
    requires j < |news| && AfterNew(olds, news, title, j, keys, table)
    ensures var t := title(news[j]);
      AfterNew(olds, news, title, j + 1,
        if t in table then keys else keys + [t],
        table[t := if t in table then Update(table[t].Held(), news[j], j) else Insert(news[j], j)])
  {
    var t := title(news[j]);
    AfterNewKeys(olds, news, title, j, keys);
    assert t in table <==> t in keys;
    DomainStep(keys, table, t, if t in table then Update(table[t].Held(), news[j], j) else Insert(news[j], j));
    NewTableStep(olds, news, title, j, keys, table);
  }

  lemma NewTableStep<T>(olds: seq<T>, news: seq<T>, title: T -> string, j: nat, keys: seq<string>, table: map<string, Op<T>>)
    requires j < |news| && AfterNew(olds, news, title, j, keys, table)
    ensures var t := title(news[j]);
      NewTable(olds, news, title, j + 1, table[t := if t in table then Update(table[t].Held(), news[j], j) else Insert(news[j], j)])
  {
    var t := title(news[j]);
    var table' := table[t := if t in table then Update(table[t].Held(), news[j], j) else Insert(news[j], j)];
    forall u | u in table'
      ensures (u in Titles(olds, title) || u in Titles(news[..j + 1], title)) && table'[u] == OpFor(olds, news[..j + 1], title, u)
    {
      AfterNewEntry(olds, news, title, j, keys, table, u);
    }
  }

  lemma AfterNewKeys<T>(olds: seq<T>, news: seq<T>, title: T -> string, j: nat, keys: seq<string>)
    requires j < |news| && keys == Keys(Titles(olds, title) + Titles(news[..j], title))
    ensures var t := title(news[j]);
      (if t in keys then keys else keys + [t]) == Keys(Titles(olds, title) + Titles(news[..j + 1], title))
  {
    var t := title(news[j]);
    var ot := Titles(olds, title);
    TitlesPrefix(news, title, j);
    assert ot + Titles(news[..j + 1], title) == (ot + Titles(news[..j], title)) + [t];
    KeysStep(ot + Titles(news[..j], title), t);
  }

  lemma AfterNewEntry<T>(olds: seq<T>, news: seq<T>, title: T -> string, j: nat, keys: seq<string>, table: map<string, Op<T>>, u: string)
    requires j < |news| && AfterNew(olds, news, title, j, keys, table)
    requires u in table || u == title(news[j])
    ensures var t := title(news[j]);
      var table' := table[t := if t in table then Update(table[t].Held(), news[j], j) else Insert(news[j], j)];
      (u in Titles(olds, title) || u in Titles(news[..j + 1], title)) && table'[u] == OpFor(olds, news[..j + 1], title, u)
  {
    TitlesPrefix(news, title, j);
    if u != title(news[j]) {
      OpForNewOther(olds, news, title, j, u);
    } else {
      OpForNewStep(olds, news, title, j);
    }
  }

  lemma AfterNewDone<T>(olds: seq<T>, news: seq<T>, title: T -> string, keys: seq<string>, table: map<string, Op<T>>)
    requires AfterNew(olds, news, title, |news|, keys, table)
    ensures forall k :: 0 <= k < |keys| ==> keys[k] in table
    ensures |keys| == |Ops(olds, news, title)|
    ensures forall k :: 0 <= k < |keys| ==> table[keys[k]] == Ops(olds, news, title)[k]
  {
    assert news[..|news|] == news;
  }

  /**
   * `gen_task_ops` (and `gen_tasklist_ops`): the dictionary is a key list in
   * insertion order plus a map; the op list is its values in key order.
   */
  method GenOps<T>(olds: seq<T>, news: seq<T>, title: T -> string) returns (ops: seq<Op<T>>)
    ensures ops == Ops(olds, news, title)
  {
    var keys: seq<string> := [];
    var table: map<string, Op<T>> := map[];
    for i := 0 to |olds|
      invariant AfterOld(olds, title, i, keys, table)
    {
      AfterOldStep(olds, title, i, keys, table);
      var t := title(olds[i]);
      if t !in table {
        keys := keys + [t];
      }
      table := table[t := Delete(olds[i])];
    }
    AfterOldDone(olds, news, title, keys, table);
    for j := 0 to |news|
      invariant AfterNew(olds, news, title, j, keys, table)
    {
      AfterNewStep(olds, news, title, j, keys, table);
      var t := title(news[j]);
      if t in table {
        table := table[t := Update(table[t].Held(), news[j], j)];
      } else {
        keys := keys + [t];
        table := table[t := Insert(news[j], j)];
      }
    }
    AfterNewDone(olds, news, title, keys, table);
    ops := seq(|keys|, k requires 0 <= k < |keys| => table[keys[k]]);
  }

  // ---------------------------------------------------------------------------
  // What the op list means
  // ---------------------------------------------------------------------------

  /** The position of the entry for title `t` in the op list. */
  lemma OpIndex<T>(olds: seq<T>, news: seq<T>, title: T -> string, t: string) returns (k: nat)
    requires t in Titles(olds, title) || t in Titles(news, title)
    ensures k < |Ops(olds, news, title)| && Ops(olds, news, title)[k] == OpFor(olds, news, title, t)
  {
    var ks := Keys(Titles(olds, title) + Titles(news, title));
    assert t in Titles(olds, title) + Titles(news, title);
    k := FirstIndex(ks, t);
  }

  /**
   * One entry per distinct title of old and new together: every title has an
   * entry, and no two entries share a title.
   */
  lemma OpsOnePerTitle<T>(olds: seq<T>, news: seq<T>, title: T -> string)
    ensures var ops := Ops(olds, news, title);
      forall k1, k2 :: 0 <= k1 < k2 < |ops| ==> title(ops[k1].Held()) != title(ops[k2].Held())
    ensures var ops := Ops(olds, news, title);
      forall t :: (t in Titles(olds, title) || t in Titles(news, title)) <==>
        exists k :: 0 <= k < |ops| && title(ops[k].Held()) == t
  {
    var ops := Ops(olds, news, title);
    var ts := Titles(olds, title) + Titles(news, title);
    var ks := Keys(ts);
    forall k | 0 <= k < |ops| ensures title(ops[k].Held()) == ks[k] && ks[k] in ts {
      assert ks[k] in ts;
    }
    forall t | t in Titles(olds, title) || t in Titles(news, title)
      ensures exists k :: 0 <= k < |ops| && title(ops[k].Held()) == t
    {
      var k := OpIndex(olds, news, title, t);
    }
  }

  /** A title no new item carries yields a DELETE, of the last old item with that title, and only then. */
  lemma DeleteIffVanished<T>(olds: seq<T>, news: seq<T>, title: T -> string)
    ensures var ops := Ops(olds, news, title);
      forall k :: 0 <= k < |ops| ==> (ops[k].Delete? <==> title(ops[k].Held()) !in Titles(news, title))
    ensures var ops, ot := Ops(olds, news, title), Titles(olds, title);
      forall p :: 0 <= p < |olds| && ot[p] !in Titles(news, title) && LastIndex(ot, ot[p]) == p ==>
        Delete(olds[p]) in ops
  {
    var ops := Ops(olds, news, title);
    var ts := Titles(olds, title) + Titles(news, title);
    forall k | 0 <= k < |ops|
      ensures ops[k].Delete? <==> title(ops[k].Held()) !in Titles(news, title)
    {
      assert Keys(ts)[k] in ts;
    }
    forall p | 0 <= p < |olds| && Titles(olds, title)[p] !in Titles(news, title) && LastIndex(Titles(olds, title), Titles(olds, title)[p]) == p
      ensures Delete(olds[p]) in ops
    {
      var k := OpIndex(olds, news, title, title(olds[p]));
    }
  }

  /** A title carried on both sides yields an UPDATE from the last old item to the last new one, at that new index. */
  lemma UpdateForKeptTitle<T>(olds: seq<T>, news: seq<T>, title: T -> string, t: string)
    requires t in Titles(olds, title) && t in Titles(news, title)
    ensures var i := LastIndex(Titles(news, title), t);
      Update(olds[LastIndex(Titles(olds, title), t)], news[i], i) in Ops(olds, news, title)
  {
    var k := OpIndex(olds, news, title, t);
  }

  lemma FirstIndexConcat(a: seq<string>, b: seq<string>, t: string)
    requires t in a + b
    ensures t in a ==> FirstIndex(a + b, t) == FirstIndex(a, t)
    ensures t !in a ==> FirstIndex(a + b, t) == |a| + FirstIndex(b, t)
  {
    var i := FirstIndex(a + b, t);
    if t in a {
      var k := FirstIndex(a, t);
      assert (a + b)[k] == t;
    } else {
      assert t in b;
      var k := FirstIndex(b, t);
      assert (a + b)[|a| + k] == t;
      assert forall m :: 0 <= m < |a| ==> (a + b)[m] != t;
    }
  }

  /** Dictionary keys come out in the order of their first occurrence. */
  lemma {:induction false} KeysInFirstOccurrenceOrder(ts: seq<string>)
    ensures forall k1, k2 :: 0 <= k1 < k2 < |Keys(ts)| ==>
      FirstIndex(ts, Keys(ts)[k1]) < FirstIndex(ts, Keys(ts)[k2])
  {
    if ts != [] {
      var init, x := ts[..|ts| - 1], ts[|ts| - 1];
      assert ts == init + [x];
      KeysInFirstOccurrenceOrder(init);
      var ks := Keys(ts);
      forall k | 0 <= k < |ks| ensures ks[k] in init ==> FirstIndex(ts, ks[k]) == FirstIndex(init, ks[k]) {
        FirstIndexAppend(init, x, ks[k]);
      }
      if x !in init {
        FirstIndexAppend(init, x, x);
      }
    }
  }

  /**
   * Entries for titles some old item carries come first, in the order those
   * titles first occur among the old items; entries for titles only new items
   * carry (the INSERTs among them) follow, in the order those titles first
   * occur among the new items.
   */
  lemma OpsOrder<T>(olds: seq<T>, news: seq<T>, title: T -> string)
    ensures var ops, ot, nt := Ops(olds, news, title), Titles(olds, title), Titles(news, title);
      forall k1, k2 :: 0 <= k1 < k2 < |ops| && title(ops[k2].Held()) in ot ==>
        title(ops[k1].Held()) in ot &&
        FirstIndex(ot, title(ops[k1].Held())) < FirstIndex(ot, title(ops[k2].Held()))
    ensures var ops, ot, nt := Ops(olds, news, title), Titles(olds, title), Titles(news, title);
      forall k1, k2 :: 0 <= k1 < k2 < |ops| && title(ops[k1].Held()) !in ot ==>
        title(ops[k2].Held()) !in ot &&
        FirstIndex(nt, title(ops[k1].Held())) < FirstIndex(nt, title(ops[k2].Held()))
    ensures var ops := Ops(olds, news, title);
      forall k :: 0 <= k < |ops| && ops[k].Insert? ==> title(ops[k].Held()) !in Titles(olds, title)
  {
    var ops, ot, nt := Ops(olds, news, title), Titles(olds, title), Titles(news, title);
    var ts := ot + nt;
    var ks := Keys(ts);
    KeysInFirstOccurrenceOrder(ts);
    forall k | 0 <= k < |ops| ensures title(ops[k].Held()) == ks[k] {
      assert ks[k] in ts;
    }
    forall k | 0 <= k < |ks|
      ensures ks[k] in ot ==> FirstIndex(ts, ks[k]) == FirstIndex(ot, ks[k]) < |ot|
      ensures ks[k] !in ot ==> FirstIndex(ts, ks[k]) == |ot| + FirstIndex(nt, ks[k])
    {
      assert ks[k] in ts;
      FirstIndexConcat(ot, nt, ks[k]);
    }
  }

  /**
   * With distinct titles on each side the diff is a complete matching: every
   * new item is the target of exactly the UPDATE (from the old item with its
   * title) or INSERT at its own index, and every old item is either updated
   * into the new item with its title or deleted.
   */
  lemma DiffMatchesDistinctTitles<T>(olds: seq<T>, news: seq<T>, title: T -> string)
    requires Distinct(Titles(olds, title)) && Distinct(Titles(news, title))
    ensures var ops, ot, nt := Ops(olds, news, title), Titles(olds, title), Titles(news, title);
      forall i :: 0 <= i < |news| ==>
        (if nt[i] in ot then Update(olds[FirstIndex(ot, nt[i])], news[i], i) else Insert(news[i], i)) in ops
    ensures var ops, ot, nt := Ops(olds, news, title), Titles(olds, title), Titles(news, title);
      forall p :: 0 <= p < |olds| ==>
        (if ot[p] in nt then Update(olds[p], news[FirstIndex(nt, ot[p])], FirstIndex(nt, ot[p])) else Delete(olds[p])) in ops
  {
    var ops, ot, nt := Ops(olds, news, title), Titles(olds, title), Titles(news, title);
    forall i | 0 <= i < |news|
      ensures (if nt[i] in ot then Update(olds[FirstIndex(ot, nt[i])], news[i], i) else Insert(news[i], i)) in ops
    {
      var k := OpIndex(olds, news, title, nt[i]);
      assert LastIndex(nt, nt[i]) == i == FirstIndex(nt, nt[i]);
      if nt[i] in ot {
        assert LastIndex(ot, nt[i]) == FirstIndex(ot, nt[i]);
      }
    }
    forall p | 0 <= p < |olds|
      ensures (if ot[p] in nt then Update(olds[p], news[FirstIndex(nt, ot[p])], FirstIndex(nt, ot[p])) else Delete(olds[p])) in ops
    {
      var k := OpIndex(olds, news, title, ot[p]);
      assert LastIndex(ot, ot[p]) == p;
      if ot[p] in nt {
        assert LastIndex(nt, ot[p]) == FirstIndex(nt, ot[p]);
      }
    }
  }

  lemma {:induction false} KeysOfDistinct(ts: seq<string>)
    requires Distinct(ts)
    ensures Keys(ts) == ts
  {
    if ts != [] {
      var init, x := ts[..|ts| - 1], ts[|ts| - 1];
      assert Distinct(init);
      assert x !in init by {
        forall k | 0 <= k < |init| ensures init[k] != x {
          assert init[k] == ts[k];
        }
      }
      KeysOfDistinct(init);
      assert init + [x] == ts;
    }
  }

  /** Appending keys that are already present leaves the key order alone. */
  lemma {:induction false} KeysAbsorb(a: seq<string>, b: seq<string>)
    requires forall t :: t in b ==> t in a
    ensures Keys(a + b) == Keys(a)
    decreases |b|
  {
    if b == [] {
      assert a + b == a;
    } else {
      var b', x := b[..|b| - 1], b[|b| - 1];
      assert a + b == (a + b') + [x];
      KeysAbsorb(a, b');
      KeysStep(a + b', x);
      assert x in a + b';
    }
  }

  /**
   * Diffing a sequence with distinct titles against itself gives, in order,
   * one UPDATE per item from the item to itself at its own index: nothing is
   * inserted or deleted.
   */
  lemma DiffIdentity<T>(xs: seq<T>, title: T -> string)
    requires Distinct(Titles(xs, title))
    ensures Ops(xs, xs, title) == seq(|xs|, i requires 0 <= i < |xs| => Update(xs[i], xs[i], i))
  {
    var ops := Ops(xs, xs, title);
    var want := seq(|xs|, i requires 0 <= i < |xs| => Update(xs[i], xs[i], i));
    IdentityKeys(xs, title);
    forall i | 0 <= i < |xs| ensures ops[i] == want[i] {
      DiffIdentityAt(xs, title, i);
    }
  }

  lemma IdentityKeys<T>(xs: seq<T>, title: T -> string)
    requires Distinct(Titles(xs, title))
    ensures Keys(Titles(xs, title) + Titles(xs, title)) == Titles(xs, title)
  {
    var ts := Titles(xs, title);
    KeysAbsorb(ts, ts);
    KeysOfDistinct(ts);
  }

  lemma DiffIdentityAt<T>(xs: seq<T>, title: T -> string, i: nat)
    requires Distinct(Titles(xs, title)) && i < |xs|
    requires Keys(Titles(xs, title) + Titles(xs, title)) == Titles(xs, title)
    ensures Ops(xs, xs, title)[i] == Update(xs[i], xs[i], i)
  {
    var ts := Titles(xs, title);
    assert Ops(xs, xs, title)[i] == OpFor(xs, xs, title, ts[i]);
    IndexOfDistinct(ts, i);
  }

  /**
   * Two new items sharing a title, with no old item carrying it: the second
   * overwrites the INSERT of the first, which is never created; the entry is
   * an UPDATE from the first to the second.
   */
  lemma DuplicateNewTitleCollapses<T>(x1: T, x2: T, title: T -> string)
    requires title(x1) == title(x2)
    ensures Ops([], [x1, x2], title) == [Update(x1, x2, 1)]
  {
    var t := title(x1);
    var nt := Titles([x1, x2], title);
    assert nt == [t, t];
    assert Titles([], title) + nt == [t] + [t];
    assert Keys([t] + [t]) == [t] by {
      KeysStep([], t);
      assert [] + [t] == [t];
      KeysStep([t], t);
    }
    assert LastIndex(nt, t) == 1;
    assert FirstIndex(nt, t) == 0;
    assert OpFor([], [x1, x2], title, t) == Update(x1, x2, 1);
  }

  /** No two INSERT/UPDATE entries target the same new index. */
  lemma OpsTargetsDistinct<T>(olds: seq<T>, news: seq<T>, title: T -> string)
    ensures var ops := Ops(olds, news, title);
      forall k1, k2 :: 0 <= k1 < |ops| && 0 <= k2 < |ops| && k1 != k2 && !ops[k1].Delete? && !ops[k2].Delete? ==>
        ops[k1].idx != ops[k2].idx
  {
    var ops := Ops(olds, news, title);
    OpsOnePerTitle(olds, news, title);
    forall k1, k2 | 0 <= k1 < |ops| && 0 <= k2 < |ops| && k1 != k2 && !ops[k1].Delete? && !ops[k2].Delete?
      ensures ops[k1].idx != ops[k2].idx
    {
      assert FromInputs(ops[k1], olds, news, title) && FromInputs(ops[k2], olds, news, title);
      if k1 < k2 {
        assert title(ops[k1].Held()) != title(ops[k2].Held());
      } else {
        assert title(ops[k2].Held()) != title(ops[k1].Held());
      }
    }
  }

  /**
   * When old and new carry the same titles in the same order, every entry is
   * an UPDATE from the old item at some index to the new item at that index.
   */
  lemma DiffOfSameTitles<T>(olds: seq<T>, news: seq<T>, title: T -> string)
    requires Titles(olds, title) == Titles(news, title)
    ensures var ops := Ops(olds, news, title);
      forall k :: 0 <= k < |ops| ==>
        ops[k].Update? && ops[k].idx < |olds| && ops[k].oldItem == olds[ops[k].idx] && ops[k].newItem == news[ops[k].idx]
  {
    var ops := Ops(olds, news, title);
    var ts := Titles(olds, title) + Titles(news, title);
    forall k | 0 <= k < |ops|
      ensures ops[k].Update? && ops[k].idx < |olds| && ops[k].oldItem == olds[ops[k].idx] && ops[k].newItem == news[ops[k].idx]
    {
      assert Keys(ts)[k] in ts;
    }
  }

  /** In a sequence without repeats, an element's first and last index are its own. */
  lemma IndexOfDistinct(ts: seq<string>, i: nat)
    requires Distinct(ts) && i < |ts|
    ensures LastIndex(ts, ts[i]) == i && FirstIndex(ts, ts[i]) == i
  {
    var l, f := LastIndex(ts, ts[i]), FirstIndex(ts, ts[i]);
    assert ts[l] == ts[i] && ts[f] == ts[i];
  }

  lemma DiffFromNothingAt<T>(news: seq<T>, title: T -> string, i: nat)
    requires Distinct(Titles(news, title)) && i < |news|
    ensures |Ops([], news, title)| == |news| && Ops([], news, title)[i] == Insert(news[i], i)
  {
    var nt := Titles(news, title);
    var ot := Titles([], title);
    assert ot == [];
    assert ot + nt == nt;
    KeysOfDistinct(nt);
    var ops := Ops([], news, title);
    assert ops[i] == OpFor([], news, title, nt[i]);
    IndexOfDistinct(nt, i);
    assert nt[i] !in ot;
  }

  /** Against nothing, distinct titles give one INSERT per new item, in order. */
  lemma DiffFromNothing<T>(news: seq<T>, title: T -> string)
    requires Distinct(Titles(news, title))
    ensures Ops([], news, title) == seq(|news|, i requires 0 <= i < |news| => Insert(news[i], i))
  {
    var ops := Ops([], news, title);
    var want := seq(|news|, i requires 0 <= i < |news| => Insert(news[i], i));
    if news == [] {
      assert Titles([], title) + Titles(news, title) == [];
    } else {
      DiffFromNothingAt(news, title, 0);
      forall i | 0 <= i < |news| ensures ops[i] == want[i] {
        DiffFromNothingAt(news, title, i);
      }
    }
  }
}
