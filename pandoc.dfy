/**
 * The markdown side: task lists rendered to a pandoc document and parsed back.
 *
 * A document is a sequence of blocks over a small part of pandoc's AST: level-1
 * and level-2 headers, ordered lists of items (each item a sequence of blocks),
 * plain and paragraph blocks of inlines, and any other block. The pandoc
 * library itself (reading markdown, writing inlines, blocks and documents) is a
 * `Converter` of uninterpreted functions.
 */
module Pandoc {
  import opened Builtins
  import opened Tasks

  datatype Inline = Str(text: string) | Space | OtherInline(name: string)

  datatype Block =
    | Header(level: int, inlines: seq<Inline>)
    | OrderedList(items: seq<ListItem>)
    | Plain(inlines: seq<Inline>)
    | Para(inlines: seq<Inline>)
    | OtherBlock(name: string)

  /** One item of an ordered list: its blocks. */
  datatype ListItem = ListItem(blocks: seq<Block>)

  /**
   * The pandoc library: `read` gives the blocks of a markdown text, or nothing
   * when it yields no document; the writers give the markdown of a list of
   * inlines, of one block, of a document, and of a document without line wrapping.
   */
  datatype Converter = Converter(
    read: string -> Option<seq<Block>>,
    writeInlines: seq<Inline> -> string,
    writeBlock: Block -> string,
    writeDoc: seq<Block> -> string,
    writeUnwrapped: seq<Block> -> string)

  /** The exceptions the conversion raises. */
  datatype Error = SyntaxError | IndexError

  datatype Result<T> = Ok(value: T) | Err(error: Error)

  /** The ballot-box characters marking a task's status. */
  const Unchecked: string := "\U{2610}"
  const Checked: string := "\U{2612}"

  // ---------------------------------------------------------------------------
  // Rendering
  // ---------------------------------------------------------------------------

  /** The words as inlines: each word a `Str`, with a `Space` between two words. */
  function Spaced(ws: seq<string>): (r: seq<Inline>)
    ensures |r| == if ws == [] then 0 else 2 * |ws| - 1
    ensures forall k :: 0 <= k < |r| ==> r[k] == if k % 2 == 0 then Str(ws[k / 2]) else Space
    decreases |ws|
  {
    if ws == [] then []
    else if |ws| == 1 then [Str(ws[0])]
    else Spaced(ws[..|ws| - 1]) + [Space, Str(ws[|ws| - 1])]
  }

  /** The texts of the `Str` inlines, in order. */
  function Texts(xs: seq<Inline>): seq<string>
    decreases |xs|
  {
    if xs == [] then []
    else Texts(xs[..|xs| - 1]) + (if xs[|xs| - 1].Str? then [xs[|xs| - 1].text] else [])
  }

  /** `text_to_pandoc`: one `Str` per word, one `Space` after each, the last `Space` dropped. */
  method TextToPandoc(text: string) returns (elems: seq<Inline>)
    ensures elems == Spaced(Words(text))
  {
    var ws := Words(text);
    elems := [];
    for i := 0 to |ws|
      invariant |elems| == 2 * i
      invariant forall k :: 0 <= k < |elems| ==> elems[k] == if k % 2 == 0 then Str(ws[k / 2]) else Space
    {
      elems := elems + [Str(ws[i]), Space];
    }
    elems := if elems == [] then [] else elems[..|elems| - 1];
  }

  function Sign(t: Task): string
  {
    if IsCompleted(t) then Checked else Unchecked
  }

  /** The inlines of a task's first block: the status sign, a space, the title's words. */
  function TitleInlines(t: Task): seq<Inline>
  {
    [Str(Sign(t)), Space] + Spaced(Words(t.title))
  }

  /** `any(t.note for t in tasks)`. */
  predicate HasNotes(ts: seq<Task>)
  {
    exists k :: 0 <= k < |ts| && ts[k].note != ""
  }

  /**
   * The blocks of one task's list item: the title as a paragraph followed by
   * the note's blocks when a sibling has a note, as a plain block otherwise;
   * then the subtasks as an ordered list, when there are any. A note pandoc
   * cannot read raises.
   */
  function TaskBlocks(c: Converter, t: Task, notes: bool): Result<seq<Block>>
    decreases t, 1
  {
    var head :=
      if !notes then Ok([Plain(TitleInlines(t))])
      else if c.read(t.note).None? then Err(SyntaxError)
      else Ok([Para(TitleInlines(t))] + c.read(t.note).value);
    if head.Err? || t.subtasks == [] then head
    else
      var subs := TaskItems(c, t.subtasks, HasNotes(t.subtasks));
      if subs.Err? then Err(subs.error) else Ok(head.value + [OrderedList(subs.value)])
  }

  /** The list items of sibling tasks, all rendered alike; one failure fails them all. */
  function TaskItems(c: Converter, ts: seq<Task>, notes: bool): Result<seq<ListItem>>
    decreases ts, 0
  {
    if exists k :: 0 <= k < |ts| && TaskBlocks(c, ts[k], notes).Err? then Err(SyntaxError)
    else Ok(seq(|ts|, k requires 0 <= k < |ts| => ListItem(TaskBlocks(c, ts[k], notes).value)))
  }

  /** `task_to_pandoc`. */
  method TaskToPandoc(c: Converter, t: Task, notes: bool) returns (r: Result<seq<Block>>)
    ensures r == TaskBlocks(c, t, notes)
    decreases t, 1
  {
    var words := TextToPandoc(t.title);
    var title := [Str(if IsCompleted(t) then Checked else Unchecked), Space] + words;
    assert title == TitleInlines(t);
    var blocks: seq<Block>;
    if notes {
      blocks := [Para(title)];
      var doc := c.read(t.note);
      if doc.None? {
        return Err(SyntaxError);
      }
      blocks := blocks + doc.value;
    } else {
      blocks := [Plain(title)];
    }
    if t.subtasks != [] {
      var subNotes := HasNotes(t.subtasks);
      var subs: seq<ListItem> := [];
      for i := 0 to |t.subtasks|
        invariant |subs| == i
        invariant forall m :: 0 <= m < i ==> TaskBlocks(c, t.subtasks[m], subNotes) == Ok(subs[m].blocks)
      {
        var sub := TaskToPandoc(c, t.subtasks[i], subNotes);
        if sub.Err? {
          return Err(SyntaxError);
        }
        subs := subs + [ListItem(sub.value)];
      }
      TaskItemsOk(c, t.subtasks, subNotes, subs);
      blocks := blocks + [OrderedList(subs)];
    }
    return Ok(blocks);
  }

  /** `tasks_to_pandoc`. */
  method TasksToPandoc(c: Converter, ts: seq<Task>) returns (r: Result<seq<ListItem>>)
    ensures r == TaskItems(c, ts, HasNotes(ts))
  {
    var notes := HasNotes(ts);
    var items: seq<ListItem> := [];
    for i := 0 to |ts|
      invariant |items| == i
      invariant forall m :: 0 <= m < i ==> TaskBlocks(c, ts[m], notes) == Ok(items[m].blocks)
    {
      var item := TaskToPandoc(c, ts[i], notes);
      if item.Err? {
        return Err(SyntaxError);
      }
      items := items + [ListItem(item.value)];
    }
    TaskItemsOk(c, ts, notes, items);
    return Ok(items);
  }

  lemma TaskItemsOk(c: Converter, ts: seq<Task>, notes: bool, items: seq<ListItem>)
    requires |items| == |ts| && forall m :: 0 <= m < |ts| ==> TaskBlocks(c, ts[m], notes) == Ok(items[m].blocks)
    ensures TaskItems(c, ts, notes) == Ok(items)
  {
    assert items == seq(|ts|, k requires 0 <= k < |ts| => ListItem(TaskBlocks(c, ts[k], notes).value));
  }

  /** Each list as a level-2 header with its title, then its tasks as an ordered list. */
  function ListBlocks(c: Converter, lists: seq<TaskList>): Result<seq<Block>>
    decreases |lists|
  {
    if lists == [] then Ok([])
    else
      var n := |lists| - 1;
      var init := ListBlocks(c, lists[..n]);
      var items := TaskItems(c, lists[n].tasks, HasNotes(lists[n].tasks));
      if init.Err? then init
      else if items.Err? then Err(items.error)
      else Ok(init.value + [Header(2, Spaced(Words(lists[n].title))), OrderedList(items.value)])
  }

  const TopHeader: Block := Header(1, [Str("Google"), Space, Str("Tasks")])

  /** The document `task_lists_to_markdown` writes. */
  function Document(c: Converter, lists: seq<TaskList>): Result<seq<Block>>
  {
    var body := ListBlocks(c, lists);
    if body.Err? then body else Ok([TopHeader] + body.value)
  }

  function Markdown(c: Converter, lists: seq<TaskList>): Result<string>
  {
    var doc := Document(c, lists);
    if doc.Err? then Err(doc.error) else Ok(c.writeDoc(doc.value))
  }

  /** `task_lists_to_markdown`. */
  method TaskListsToMarkdown(c: Converter, lists: seq<TaskList>) returns (r: Result<string>)
    ensures r == Markdown(c, lists)
  {
    var content := [TopHeader];
    assert lists[..0] == [] && content[1..] == [];
    for i := 0 to |lists|
      invariant |content| >= 1 && content[0] == TopHeader
      invariant ListBlocks(c, lists[..i]) == Ok(content[1..])
    {
      assert lists[..i + 1][..i] == lists[..i];
      var title := TextToPandoc(lists[i].title);
      var tasks := TasksToPandoc(c, lists[i].tasks);
      if tasks.Err? {
        ListBlocksFailurePersists(c, lists, i + 1);
        return Err(SyntaxError);
      }
      ghost var body := content[1..];
      content := content + [Header(2, title), OrderedList(tasks.value)];
      assert content[1..] == body + [Header(2, title), OrderedList(tasks.value)];
    }
    assert lists[..|lists|] == lists;
    assert content == [TopHeader] + content[1..];
    return Ok(c.writeDoc(content));
  }

  lemma {:induction false} ListBlocksFailurePersists(c: Converter, lists: seq<TaskList>, i: nat)
    requires i <= |lists| && ListBlocks(c, lists[..i]).Err?
    ensures ListBlocks(c, lists) == Err(SyntaxError)
    decreases |lists| - i
  {
    if i < |lists| {
      assert lists[..i + 1][..i] == lists[..i];
      ListBlocksFailurePersists(c, lists, i + 1);
    } else {
      assert lists[..i] == lists;
      ListBlocksErrors(c, lists);
    }
  }

  /** Rendering only ever raises `SyntaxError`. */
  lemma {:induction false} ListBlocksErrors(c: Converter, lists: seq<TaskList>)
    ensures ListBlocks(c, lists).Err? ==> ListBlocks(c, lists).error == SyntaxError
    decreases |lists|
  {
    if lists != [] {
      ListBlocksErrors(c, lists[..|lists| - 1]);
    }
  }

  // ---------------------------------------------------------------------------
  // Parsing
  // ---------------------------------------------------------------------------

  /** `match_status`: the ballot boxes give pending and completed, anything else unknown. */
  function MatchStatus(x: Inline): TaskStatus
  {
    match x
    case Str(s) => if s == Unchecked then Pending else if s == Checked then Completed else Unknown
    case _ => Unknown
  }

  /**
   * The task one list item describes, at index `taskNo` among its siblings.
   * The first block is the title line: a known status sign and the space after
   * it are dropped from the title, an unknown one is kept. When the last block
   * is an ordered list it holds the subtasks and the blocks between are the
   * note; otherwise every block after the first is the note. An empty item or
   * title line raises `IndexError`, any other first block `SyntaxError`.
   */
  function TaskParsed(c: Converter, blocks: seq<Block>, taskNo: int): (r: Result<Task>)
    ensures r.Ok? ==> r.value.id == "" && r.value.position == taskNo
    ensures r.Ok? ==> blocks != [] && (blocks[0].Plain? || blocks[0].Para?) && blocks[0].inlines != []
    ensures r.Ok? ==> r.value.status == MatchStatus(blocks[0].inlines[0])
    ensures r.Ok? && r.value.subtasks != [] ==> |blocks| >= 2 && blocks[|blocks| - 1].OrderedList?
    decreases blocks
  {
    if blocks == [] then Err(IndexError)
    else if !(blocks[0].Plain? || blocks[0].Para?) then Err(SyntaxError)
    else
      var txt := blocks[0].inlines;
      if txt == [] then Err(IndexError)
      else
        var status := MatchStatus(txt[0]);
        var name := c.writeBlock(Plain(if status == Unknown then txt else if |txt| < 2 then [] else txt[2..]));
        var last := blocks[|blocks| - 1];
        if last.OrderedList? && |blocks| >= 2 then
          var subs := TasksParsed(c, last.items, 0);
          if subs.Err? then Err(subs.error)
          else Ok(Task("", Strip(name), Strip(c.writeUnwrapped(blocks[1..|blocks| - 1])), taskNo, status, subs.value))
        else Ok(Task("", Strip(name), Strip(c.writeUnwrapped(blocks[1..])), taskNo, status, []))
  }

  /** The tasks of list items `i..`, each at its own index; the first item that raises decides. */
  function TasksParsed(c: Converter, items: seq<ListItem>, i: nat): Result<seq<Task>>
    decreases OrderedList(items), |items| - i
  {
    if i >= |items| then Ok([])
    else
      var t := TaskParsed(c, items[i].blocks, i);
      if t.Err? then Err(t.error)
      else
        var rest := TasksParsed(c, items, i + 1);
        if rest.Err? then rest else Ok([t.value] + rest.value)
  }

  /**
   * `parse_task_lists` from block `idx`: a level-1 header is skipped; a
   * level-2 header starts a list with id "" and the header's text as title,
   * taking the ordered list right after it as its tasks when there is one;
   * any other block raises `SyntaxError`.
   */
  function ListsParsed(c: Converter, items: seq<Block>, idx: nat): Result<seq<TaskList>>
    decreases |items| - idx
  {
    if idx >= |items| then Ok([])
    else if !(items[idx].Header? && (items[idx].level == 1 || items[idx].level == 2)) then Err(SyntaxError)
    else if items[idx].level == 1 then ListsParsed(c, items, idx + 1)
    else
      var title := Strip(c.writeInlines(items[idx].inlines));
      if idx + 1 < |items| && items[idx + 1].OrderedList? then
        var tasks := TasksParsed(c, items[idx + 1].items, 0);
        if tasks.Err? then Err(tasks.error)
        else
          var rest := ListsParsed(c, items, idx + 2);
          if rest.Err? then rest else Ok([TaskList("", title, tasks.value)] + rest.value)
      else if idx + 1 < |items| then
        var rest := ListsParsed(c, items, idx + 1);
        if rest.Err? then rest else Ok([TaskList("", title, [])] + rest.value)
      else Ok([TaskList("", title, [])])
  }

  /**
   * What `markdown_to_task_lists` returns for a markdown text: SyntaxError when
   * pandoc yields no document, otherwise one list with id "" per level-2 header.
   */
  function Parsed(c: Converter, text: string): (r: Result<seq<TaskList>>)
    ensures c.read(text).None? ==> r == Err(SyntaxError)
    ensures r.Ok? ==> c.read(text).Some? && |r.value| == ListHeaders(c.read(text).value, 0)
    ensures r.Ok? ==> forall k :: 0 <= k < |r.value| ==> r.value[k].id == ""
  {
    match c.read(text)
    case None => Err(SyntaxError)
    case Some(items) =>
      var lists := ListsParsed(c, items, 0);
      if lists.Ok? then OneListPerHeader(c, items, 0); lists else lists
  }

  /** `parse_tasks`: each list item parsed at its index, in order, until one raises. */
  method ParseTasks(c: Converter, items: seq<ListItem>) returns (r: Result<seq<Task>>)
    ensures r == TasksParsed(c, items, 0)
  {
    var parsed: seq<Task> := [];
    for i := 0 to |items|
      invariant |parsed| == i
      invariant forall m :: 0 <= m < i ==> TaskParsed(c, items[m].blocks, m) == Ok(parsed[m])
    {
      var t := TaskParsed(c, items[i].blocks, i);
      if t.Err? {
        TasksParsedFails(c, items, 0, i);
        return Err(t.error);
      }
      parsed := parsed + [t.value];
    }
    TasksParsedOk(c, items, 0, parsed);
    return Ok(parsed);
  }

  /** When every item from `i` on parses, the tasks are those items' tasks, in order. */
  lemma TasksParsedOk(c: Converter, items: seq<ListItem>, i: nat, parsed: seq<Task>)
    requires i <= |items| == |parsed|
    requires forall m :: i <= m < |items| ==> TaskParsed(c, items[m].blocks, m) == Ok(parsed[m])
    ensures TasksParsed(c, items, i) == Ok(parsed[i..])
  {
    var g := (m: nat) => TasksParsed(c, items, m);
    var w := (m: nat) => Ok(if m <= |parsed| then parsed[m..] else []);
    TasksParsedConses(c, items, i, parsed, g, w);
    BackChain(g, w, i, |items|);
  }

  lemma TasksParsedConses(c: Converter, items: seq<ListItem>, i: nat, parsed: seq<Task>,
                          g: nat -> Result<seq<Task>>, w: nat -> Result<seq<Task>>)
    requires i <= |items| == |parsed|
    requires forall m :: i <= m < |items| ==> TaskParsed(c, items[m].blocks, m) == Ok(parsed[m])
    requires forall m: nat :: g(m) == TasksParsed(c, items, m)
    requires forall m: nat :: w(m) == Ok(if m <= |parsed| then parsed[m..] else [])
    ensures g(|items|) == w(|items|)
    ensures forall m: nat :: i <= m < |items| ==> (g(m + 1) == w(m + 1) ==> g(m) == w(m))
  {
    assert parsed[|parsed|..] == [];
    forall m: nat | i <= m < |items| ensures g(m + 1) == w(m + 1) ==> g(m) == w(m) {
      if g(m + 1) == w(m + 1) {
        TasksParsedCons(c, items, m, parsed);
      }
    }
  }

  /** An item that parses, in front of items that parse, adds its task in front of theirs. */
  lemma TasksParsedCons(c: Converter, items: seq<ListItem>, m: nat, parsed: seq<Task>)
    requires m < |items| == |parsed|
    requires TaskParsed(c, items[m].blocks, m) == Ok(parsed[m])
    requires TasksParsed(c, items, m + 1) == Ok(parsed[m + 1..])
    ensures TasksParsed(c, items, m) == Ok(parsed[m..])
  {
    assert parsed[m..] == [parsed[m]] + parsed[m + 1..];
  }

  /** A chain of values that agrees with `w` at its end, and at each link once the next one does, agrees at its start. */
  lemma {:induction false} BackChain<T>(g: nat -> T, w: nat -> T, i: nat, n: nat)
    requires i <= n && g(n) == w(n)
    requires forall m :: i <= m < n ==> (g(m + 1) == w(m + 1) ==> g(m) == w(m))
    ensures g(i) == w(i)
    decreases n - i
  {
    if i < n {
      BackChain(g, w, i + 1, n);
    }
  }

  /** The first item that raises makes the whole list raise, with its exception. */
  lemma TasksParsedFails(c: Converter, items: seq<ListItem>, i: nat, f: nat)
    requires i <= f < |items|
    requires forall m :: i <= m < f ==> TaskParsed(c, items[m].blocks, m).Ok?
    requires TaskParsed(c, items[f].blocks, f).Err?
    ensures TasksParsed(c, items, i) == Err(TaskParsed(c, items[f].blocks, f).error)
  {
    TasksParsedStop(c, items, f);
    TasksParsedSkips(c, items, i, f);
  }

  /** Items that parse are passed over until one that raises. */
  lemma TasksParsedSkips(c: Converter, items: seq<ListItem>, i: nat, f: nat)
    requires i <= f < |items| && TasksParsed(c, items, f).Err?
    requires forall m :: i <= m < f ==> TaskParsed(c, items[m].blocks, m).Ok?
    ensures TasksParsed(c, items, i) == TasksParsed(c, items, f)
  {
    var g := (m: nat) => TasksParsed(c, items, m);
    TasksParsedLinks(c, items, i, f, g);
    ErrPropagates(g, i, f);
  }

  lemma TasksParsedLinks(c: Converter, items: seq<ListItem>, i: nat, f: nat, g: nat -> Result<seq<Task>>)
    requires i <= f < |items|
    requires forall m :: i <= m < f ==> TaskParsed(c, items[m].blocks, m).Ok?
    requires forall m: nat :: g(m) == TasksParsed(c, items, m)
    ensures forall m: nat :: i <= m < f ==> (g(m + 1).Err? ==> g(m) == g(m + 1))
  {
    forall m: nat | i <= m < f ensures g(m + 1).Err? ==> g(m) == g(m + 1) {
      TasksParsedSkip(c, items, m);
    }
  }

  /** A chain of results, each equal to the next once that one fails, ends as it started. */
  lemma {:induction false} ErrPropagates<T>(g: nat -> Result<T>, i: nat, f: nat)
    requires i <= f && g(f).Err?
    requires forall m :: i <= m < f ==> (g(m + 1).Err? ==> g(m) == g(m + 1))
    ensures g(i) == g(f)
    decreases f - i
  {
    if i < f {
      ErrPropagates(g, i + 1, f);
    }
  }

  lemma TasksParsedSkip(c: Converter, items: seq<ListItem>, i: nat)
    requires i < |items| && TaskParsed(c, items[i].blocks, i).Ok?
    ensures TasksParsed(c, items, i + 1).Err? ==> TasksParsed(c, items, i) == TasksParsed(c, items, i + 1)
  {
  }

  lemma TasksParsedStop(c: Converter, items: seq<ListItem>, f: nat)
    requires f < |items| && TaskParsed(c, items[f].blocks, f).Err?
    ensures TasksParsed(c, items, f) == Err(TaskParsed(c, items[f].blocks, f).error)
  {
  }

  // ---------------------------------------------------------------------------
  // Properties
  // ---------------------------------------------------------------------------

  /** The words of a text come back from its inlines. */
  lemma {:induction false} TextsOfSpaced(ws: seq<string>)
    ensures Texts(Spaced(ws)) == ws
    decreases |ws|
  {
    if |ws| > 1 {
      var init := ws[..|ws| - 1];
      TextsOfSpaced(init);
      var xs := Spaced(ws);
      assert xs[..|xs| - 1] == Spaced(init) + [Space];
      assert xs[..|xs| - 1][..|xs| - 2] == Spaced(init);
      assert Texts(xs[..|xs| - 1]) == Texts(Spaced(init));
      assert ws == init + [ws[|ws| - 1]];
    } else if |ws| == 1 {
      assert Spaced(ws)[..0] == [];
    }
  }

  /** Only the two ballot boxes give a known status. */
  lemma MatchStatusSigns(x: Inline)
    ensures MatchStatus(x) == Pending <==> x == Str(Unchecked)
    ensures MatchStatus(x) == Completed <==> x == Str(Checked)
  {
  }

  /**
   * A task's sign reads back as its status when that is pending or
   * completed; an unknown status is written unchecked and reads back pending.
   */
  lemma SignRoundTrip(t: Task)
    ensures t.status != Unknown ==> MatchStatus(Str(Sign(t))) == t.status
    ensures t.status == Unknown ==> MatchStatus(Str(Sign(t))) == Pending
  {
  }

  /**
   * How a task is rendered: its first block holds the title line, a paragraph
   * exactly when a sibling has a note, starting with the checked box exactly
   * when the task is completed; its last block is an ordered list of one item
   * per subtask when it has subtasks.
   */
  lemma TaskBlocksShape(c: Converter, t: Task, notes: bool)
    requires TaskBlocks(c, t, notes).Ok?
    ensures var b := TaskBlocks(c, t, notes).value;
      && b != [] && (b[0].Para? || b[0].Plain?) && b[0].inlines == TitleInlines(t)
      && (b[0].Para? <==> notes)
      && (b[0].inlines[0] == Str(Checked) <==> IsCompleted(t))
      && (t.subtasks != [] ==> b[|b| - 1].OrderedList? && |b[|b| - 1].items| == |t.subtasks|)
  {
  }

  /** Siblings are rendered alike: all as paragraphs when one of them has a note, all as plain blocks otherwise. */
  lemma SiblingsRenderedAlike(c: Converter, ts: seq<Task>)
    requires TaskItems(c, ts, HasNotes(ts)).Ok?
    ensures var items := TaskItems(c, ts, HasNotes(ts)).value;
      && |items| == |ts|
      && forall k :: 0 <= k < |ts| ==>
           items[k].blocks != [] && (items[k].blocks[0].Para? <==> exists j :: 0 <= j < |ts| && ts[j].note != "")
  {
    forall k | 0 <= k < |ts| {
      TaskBlocksShape(c, ts[k], HasNotes(ts));
    }
  }

  /** Parsed tasks have id "" and their index as position. */
  lemma {:induction false} ParsedPositions(c: Converter, items: seq<ListItem>, i: nat)
    requires i <= |items| && TasksParsed(c, items, i).Ok?
    ensures var ts := TasksParsed(c, items, i).value;
      && |ts| == |items| - i
      && forall k :: 0 <= k < |ts| ==> ts[k].id == "" && ts[k].position == i + k
    decreases |items| - i
  {
    if i < |items| {
      ParsedPositions(c, items, i + 1);
    }
  }

  predicate IsListHeader(b: Block)
  {
    b.Header? && (b.level == 1 || b.level == 2)
  }

  /** Block `j` is where no list-level block may be: not a level-1 or level-2 header, nor the ordered list right after a level-2 header. */
  predicate Stray(items: seq<Block>, idx: nat, j: nat)
    requires j < |items|
  {
    && !IsListHeader(items[j])
    && !(idx < j && items[j - 1].Header? && items[j - 1].level == 2 && items[j].OrderedList?)
  }

  /** A stray block at list level makes the whole parse raise (a level-3 header, a paragraph after a list). */
  lemma {:induction false} StrayBlockRaises(c: Converter, items: seq<Block>, idx: nat, j: nat)
    requires idx <= j < |items| && Stray(items, idx, j)
    ensures ListsParsed(c, items, idx).Err?
    decreases |items| - idx
  {
    if idx < j && IsListHeader(items[idx]) {
      if items[idx].level == 1 {
        StrayBlockRaises(c, items, idx + 1, j);
      } else if items[idx + 1].OrderedList? {
        if TasksParsed(c, items[idx + 1].items, 0).Ok? {
          StrayBlockRaises(c, items, idx + 2, j);
        }
      } else {
        StrayBlockRaises(c, items, idx + 1, j);
      }
    }
  }

  /** The number of level-2 headers from block `idx` on. */
  function ListHeaders(items: seq<Block>, idx: nat): nat
    decreases |items| - idx
  {
    if idx >= |items| then 0
    else (if items[idx].Header? && items[idx].level == 2 then 1 else 0) + ListHeaders(items, idx + 1)
  }

  /** A parse that succeeds gives one list per level-2 header, each with id "". */
  lemma {:induction false} OneListPerHeader(c: Converter, items: seq<Block>, idx: nat)
    requires ListsParsed(c, items, idx).Ok?
    ensures var ls := ListsParsed(c, items, idx).value;
      |ls| == ListHeaders(items, idx) && forall k :: 0 <= k < |ls| ==> ls[k].id == ""
    decreases |items| - idx
  {
    if idx < |items| {
      if items[idx].level == 1 {
        OneListPerHeader(c, items, idx + 1);
      } else if idx + 1 < |items| && items[idx + 1].OrderedList? {
        OneListPerHeader(c, items, idx + 2);
        assert !(items[idx + 1].Header?);
      } else if idx + 1 < |items| {
        OneListPerHeader(c, items, idx + 1);
      }
    }
  }

  // ---------------------------------------------------------------------------
  // Rendering then parsing
  // ---------------------------------------------------------------------------

  /** pandoc reads a note into blocks that write back to it, and that do not end in an ordered list. */
  ghost predicate NoteSurvives(c: Converter, n: string)
  {
    && c.read(n).Some?
    && Strip(c.writeUnwrapped(c.read(n).value)) == n
    && (c.read(n).value == [] || !c.read(n).value[|c.read(n).value| - 1].OrderedList?)
  }

  /**
   * What pandoc must preserve for a task to come back: its title's words write
   * back to the title, its note (when notes are rendered) survives, and so do
   * its subtasks; and its status is one the sign can show.
   */
  ghost predicate TaskSurvives(c: Converter, t: Task, notes: bool)
    decreases t
  {
    && t.status != Unknown
    && Strip(c.writeBlock(Plain(Spaced(Words(t.title))))) == t.title
    && (notes ==> NoteSurvives(c, t.note))
    && forall k :: 0 <= k < |t.subtasks| ==> TaskSurvives(c, t.subtasks[k], HasNotes(t.subtasks))
  }

  /** A rendered task parses back to an equal task. */
  lemma {:induction false} TaskRoundTrip(c: Converter, t: Task, notes: bool, k: int)
    requires TaskSurvives(c, t, notes) && (!notes ==> t.note == "") && Strip(c.writeUnwrapped([])) == ""
    ensures TaskBlocks(c, t, notes).Ok?
    ensures TaskParsed(c, TaskBlocks(c, t, notes).value, k).Ok?
    ensures TaskEq(TaskParsed(c, TaskBlocks(c, t, notes).value, k).value, t)
    decreases t, 1
  {
    var head := if notes then [Para(TitleInlines(t))] + c.read(t.note).value else [Plain(TitleInlines(t))];
    var txt := TitleInlines(t);
    assert txt[2..] == Spaced(Words(t.title));
    SignRoundTrip(t);
    if t.subtasks == [] {
      assert TaskBlocks(c, t, notes) == Ok(head);
      assert head[1..] == if notes then c.read(t.note).value else [];
    } else {
      ItemsRoundTrip(c, t.subtasks);
      var items := TaskItems(c, t.subtasks, HasNotes(t.subtasks)).value;
      var b := head + [OrderedList(items)];
      assert TaskBlocks(c, t, notes) == Ok(b);
      assert b[1..|b| - 1] == if notes then c.read(t.note).value else [];
    }
  }

  /** Rendered sibling tasks parse back to pairwise-equal tasks. */
  lemma {:induction false} ItemsRoundTrip(c: Converter, ts: seq<Task>)
    requires forall k :: 0 <= k < |ts| ==> TaskSurvives(c, ts[k], HasNotes(ts))
    requires Strip(c.writeUnwrapped([])) == ""
    ensures TaskItems(c, ts, HasNotes(ts)).Ok?
    ensures TasksParsed(c, TaskItems(c, ts, HasNotes(ts)).value, 0).Ok?
    ensures TasksEq(TasksParsed(c, TaskItems(c, ts, HasNotes(ts)).value, 0).value, ts)
    decreases ts, 0
  {
    var notes := HasNotes(ts);
    forall k | 0 <= k < |ts|
      ensures TaskBlocks(c, ts[k], notes).Ok?
      ensures TaskParsed(c, TaskBlocks(c, ts[k], notes).value, k).Ok?
      ensures TaskEq(TaskParsed(c, TaskBlocks(c, ts[k], notes).value, k).value, ts[k])
    {
      TaskRoundTrip(c, ts[k], notes, k);
    }
    var items := seq(|ts|, k requires 0 <= k < |ts| => ListItem(TaskBlocks(c, ts[k], notes).value));
    TaskItemsOk(c, ts, notes, items);
    var parsed := seq(|ts|, k requires 0 <= k < |ts| => TaskParsed(c, items[k].blocks, k).value);
    TasksParsedOk(c, items, 0, parsed);
    assert parsed[0..] == parsed;
  }

  /** The rendered document: the top header, then each list's header and ordered list. */
  lemma RenderedDocument(c: Converter, lists: seq<TaskList>) returns (doc: seq<Block>)
    requires forall m :: 0 <= m < |lists| ==> ListSurvives(c, lists[m])
    requires Strip(c.writeUnwrapped([])) == ""
    ensures Document(c, lists) == Ok(doc) && |doc| == 1 + 2 * |lists|
    ensures forall m :: 0 <= m < |lists| ==> RendersList(c, lists[m], doc, 1 + 2 * m)
  {
    forall m | 0 <= m < |lists| ensures TaskItems(c, lists[m].tasks, HasNotes(lists[m].tasks)).Ok? {
      ListRenders(c, lists[m]);
    }
    ListBlocksShape(c, lists);
    var body := ListBlocks(c, lists).value;
    doc := [TopHeader] + body;
    BodyRenders(c, lists, body, doc);
  }

  /** Each list's two blocks, one past the top header, render it. */
  lemma BodyRenders(c: Converter, lists: seq<TaskList>, body: seq<Block>, doc: seq<Block>)
    requires forall m :: 0 <= m < |lists| ==> ListSurvives(c, lists[m])
    requires forall m :: 0 <= m < |lists| ==> TaskItems(c, lists[m].tasks, HasNotes(lists[m].tasks)).Ok?
    requires |body| == 2 * |lists| && doc == [TopHeader] + body
    requires forall k :: 0 <= k < |lists| ==>
      && body[2 * k] == Header(2, Spaced(Words(lists[k].title)))
      && body[2 * k + 1] == OrderedList(TaskItems(c, lists[k].tasks, HasNotes(lists[k].tasks)).value)
    ensures forall m :: 0 <= m < |lists| ==> RendersList(c, lists[m], doc, 1 + 2 * m)
  {
    forall m | 0 <= m < |lists| ensures RendersList(c, lists[m], doc, 1 + 2 * m) {
      assert doc[1 + 2 * m] == body[2 * m];
      assert doc[2 + 2 * m] == body[2 * m + 1];
      RendersAt(c, lists[m], doc, 1 + 2 * m);
    }
  }

  /** A list whose tasks pandoc preserves renders without raising. */
  lemma ListRenders(c: Converter, l: TaskList)
    requires ListSurvives(c, l) && Strip(c.writeUnwrapped([])) == ""
    ensures TaskItems(c, l.tasks, HasNotes(l.tasks)).Ok?
  {
    ItemsRoundTrip(c, l.tasks);
  }

  lemma RendersAt(c: Converter, l: TaskList, doc: seq<Block>, idx: nat)
    requires ListSurvives(c, l) && TaskItems(c, l.tasks, HasNotes(l.tasks)).Ok? && idx + 1 < |doc|
    requires doc[idx] == Header(2, Spaced(Words(l.title)))
    requires doc[idx + 1] == OrderedList(TaskItems(c, l.tasks, HasNotes(l.tasks)).value)
    ensures RendersList(c, l, doc, idx)
  {
  }

  /** The blocks of the lists: a level-2 header with the title's words, then the ordered list of tasks. */
  lemma {:induction false} ListBlocksShape(c: Converter, lists: seq<TaskList>)
    requires forall k :: 0 <= k < |lists| ==> TaskItems(c, lists[k].tasks, HasNotes(lists[k].tasks)).Ok?
    ensures ListBlocks(c, lists).Ok?
    ensures var b := ListBlocks(c, lists).value;
      && |b| == 2 * |lists|
      && forall k :: 0 <= k < |lists| ==>
           && b[2 * k] == Header(2, Spaced(Words(lists[k].title)))
           && b[2 * k + 1] == OrderedList(TaskItems(c, lists[k].tasks, HasNotes(lists[k].tasks)).value)
    decreases |lists|
  {
    if lists != [] {
      ListBlocksShape(c, lists[..|lists| - 1]);
    }
  }

  /** What pandoc must preserve for a list to come back: its title, and each of its tasks. */
  ghost predicate ListSurvives(c: Converter, l: TaskList)
  {
    && Strip(c.writeInlines(Spaced(Words(l.title)))) == l.title
    && forall k :: 0 <= k < |l.tasks| ==> TaskSurvives(c, l.tasks[k], HasNotes(l.tasks))
  }

  /**
   * Blocks `idx` and `idx + 1` of the document are the header and the ordered
   * list a list renders to, and pandoc gives back its title and its tasks.
   */
  ghost predicate RendersList(c: Converter, l: TaskList, doc: seq<Block>, idx: nat)
  {
    && idx + 1 < |doc|
    && doc[idx].Header? && doc[idx].level == 2 && Strip(c.writeInlines(doc[idx].inlines)) == l.title
    && doc[idx + 1].OrderedList?
    && TaskItems(c, l.tasks, HasNotes(l.tasks)) == Ok(doc[idx + 1].items)
    && forall k :: 0 <= k < |l.tasks| ==> TaskSurvives(c, l.tasks[k], HasNotes(l.tasks))
  }

  lemma {:induction false} ListsRoundTripFrom(c: Converter, lists: seq<TaskList>, doc: seq<Block>, k: nat)
    requires k <= |lists| && |doc| == 1 + 2 * |lists|
    requires forall m :: 0 <= m < |lists| ==> RendersList(c, lists[m], doc, 1 + 2 * m)
    requires Strip(c.writeUnwrapped([])) == ""
    ensures ListsParsed(c, doc, 1 + 2 * k).Ok?
    ensures var r := ListsParsed(c, doc, 1 + 2 * k).value;
      |r| == |lists| - k && forall m :: 0 <= m < |r| ==> ListEq(r[m], lists[k + m])
    decreases |lists| - k
  {
    if k < |lists| {
      ListsRoundTripFrom(c, lists, doc, k + 1);
      var l := OneListRoundTrip(c, lists[k], doc, 1 + 2 * k);
      ListsEqCons(l, ListsParsed(c, doc, 3 + 2 * k).value, lists, k);
    }
  }

  lemma ListsEqCons(l: TaskList, rest: seq<TaskList>, lists: seq<TaskList>, k: nat)
    requires k < |lists| && ListEq(l, lists[k])
    requires |rest| == |lists| - (k + 1) && forall m :: 0 <= m < |rest| ==> ListEq(rest[m], lists[k + 1 + m])
    ensures var r := [l] + rest; |r| == |lists| - k && forall m :: 0 <= m < |r| ==> ListEq(r[m], lists[k + m])
  {
    var r := [l] + rest;
    forall m | 0 < m < |r| ensures ListEq(r[m], lists[k + m]) {
      assert r[m] == rest[m - 1] && k + m == k + 1 + (m - 1);
    }
  }

  /** The header and ordered list of one rendered list parse back to a list equal to it. */
  lemma OneListRoundTrip(c: Converter, list: TaskList, doc: seq<Block>, idx: nat) returns (l: TaskList)
    requires RendersList(c, list, doc, idx) && Strip(c.writeUnwrapped([])) == ""
    requires ListsParsed(c, doc, idx + 2).Ok?
    ensures ListsParsed(c, doc, idx) == Ok([l] + ListsParsed(c, doc, idx + 2).value)
    ensures ListEq(l, list)
  {
    ItemsRoundTrip(c, list.tasks);
    ListsParsedStep(c, doc, idx);
    l := TaskList("", Strip(c.writeInlines(doc[idx].inlines)), TasksParsed(c, doc[idx + 1].items, 0).value);
  }

  /** A level-2 header followed by an ordered list gives one list, then the lists after them. */
  lemma ListsParsedStep(c: Converter, doc: seq<Block>, idx: nat)
    requires idx + 1 < |doc| && doc[idx].Header? && doc[idx].level == 2 && doc[idx + 1].OrderedList?
    requires TasksParsed(c, doc[idx + 1].items, 0).Ok? && ListsParsed(c, doc, idx + 2).Ok?
    ensures ListsParsed(c, doc, idx) ==
      Ok([TaskList("", Strip(c.writeInlines(doc[idx].inlines)), TasksParsed(c, doc[idx + 1].items, 0).value)]
         + ListsParsed(c, doc, idx + 2).value)
  {
  }

  /**
   * A level-2 header with no ordered list right after it gives a list with no
   * tasks, then the lists after it; an error after it is raised as it is.
   */
  lemma HeaderOnlyList(c: Converter, doc: seq<Block>, idx: nat)
    requires idx < |doc| && doc[idx].Header? && doc[idx].level == 2
    requires idx + 1 == |doc| || !doc[idx + 1].OrderedList?
    ensures var rest := ListsParsed(c, doc, idx + 1);
      ListsParsed(c, doc, idx) ==
        if rest.Err? then rest else Ok([TaskList("", Strip(c.writeInlines(doc[idx].inlines)), [])] + rest.value)
  {
    if idx + 1 == |doc| {
      var l := TaskList("", Strip(c.writeInlines(doc[idx].inlines)), []);
      assert [l] + ListsParsed(c, doc, idx + 1).value == [l];
    }
  }

  /** The parse from block `i` depends only on the blocks from `i` on. */
  lemma {:induction false} ListsParsedSuffix(c: Converter, a: seq<Block>, i: nat, b: seq<Block>, j: nat)
    requires i <= |a| && j <= |b| && a[i..] == b[j..]
    ensures ListsParsed(c, a, i) == ListsParsed(c, b, j)
    decreases |a| - i
  {
    if i < |a| {
      assert a[i] == a[i..][0] && b[j] == b[j..][0];
      assert a[i + 1..] == a[i..][1..] && b[j + 1..] == b[j..][1..];
      ListsParsedSuffix(c, a, i + 1, b, j + 1);
      if i + 1 < |a| {
        assert a[i + 1] == a[i..][1] && b[j + 1] == b[j..][1];
        assert a[i + 2..] == a[i..][2..] && b[j + 2..] == b[j..][2..];
        ListsParsedSuffix(c, a, i + 2, b, j + 2);
      }
    }
  }

  /** The blocks with every top-level ordered list that has no items left out, as pandoc writes them. */
  function DropEmptyLists(bs: seq<Block>): seq<Block>
  {
    DropEmptyListsFrom(bs, 0)
  }

  /** The blocks from `i` on, with the top-level ordered lists that have no items left out. */
  function DropEmptyListsFrom(bs: seq<Block>, i: nat): seq<Block>
    decreases |bs| - i
  {
    if i >= |bs| then []
    else (if bs[i] == OrderedList([]) then [] else [bs[i]]) + DropEmptyListsFrom(bs, i + 1)
  }

  /** Every ordered list from block `i` on comes right after a level-2 header. */
  predicate ListsFollowHeaders(items: seq<Block>, i: nat)
  {
    forall j :: i <= j < |items| && items[j].OrderedList? ==> i < j && items[j - 1].Header? && items[j - 1].level == 2
  }

  /**
   * Leaving out the empty ordered lists does not change the parse when every
   * ordered list comes right after a level-2 header: such a header then
   * parses alone, as a list with no tasks, which is what it gave with its
   * empty list.
   */
  lemma {:induction false} DropEmptyListsParse(c: Converter, items: seq<Block>, i: nat)
    requires i <= |items| && ListsFollowHeaders(items, i)
    ensures ListsParsed(c, DropEmptyListsFrom(items, i), 0) == ListsParsed(c, items, i)
    decreases |items| - i
  {
    var d := DropEmptyListsFrom(items, i);
    if i < |items| {
      assert d == [items[i]] + DropEmptyListsFrom(items, i + 1);
      if IsListHeader(items[i]) && items[i].level == 1 {
        DropEmptyListsParse(c, items, i + 1);
        ListsParsedSuffix(c, d, 1, DropEmptyListsFrom(items, i + 1), 0);
      } else if IsListHeader(items[i]) && i + 1 < |items| {
        if items[i + 1] == OrderedList([]) {
          DropEmptyListsParse(c, items, i + 2);
          DroppedHeaderParse(c, items, i);
        } else if items[i + 1].OrderedList? {
          DropEmptyListsParse(c, items, i + 2);
          KeptListParse(c, items, i);
        } else {
          DropEmptyListsParse(c, items, i + 1);
          ListsParsedSuffix(c, d, 1, DropEmptyListsFrom(items, i + 1), 0);
          HeaderOnlyList(c, d, 0);
          HeaderOnlyList(c, items, i);
        }
      }
    }
  }

  /** A header whose empty list is dropped parses alone, as it parsed with the list. */
  lemma DroppedHeaderParse(c: Converter, items: seq<Block>, i: nat)
    requires i + 1 < |items| && items[i].Header? && items[i].level == 2 && items[i + 1] == OrderedList([])
    requires ListsFollowHeaders(items, i)
    requires ListsParsed(c, DropEmptyListsFrom(items, i + 2), 0) == ListsParsed(c, items, i + 2)
    ensures ListsParsed(c, DropEmptyListsFrom(items, i), 0) == ListsParsed(c, items, i)
  {
    var rest := DropEmptyListsFrom(items, i + 2);
    var d := DropEmptyListsFrom(items, i);
    assert DropEmptyListsFrom(items, i + 1) == rest;
    assert d == [items[i]] + DropEmptyListsFrom(items, i + 1);
    assert i + 2 < |items| ==> rest[0] == items[i + 2] && !rest[0].OrderedList?;
    ListsParsedSuffix(c, d, 1, rest, 0);
    HeaderOnlyList(c, d, 0);
    assert TasksParsed(c, [], 0) == Ok([]);
  }

  /** A header and its ordered list with items are kept, and parse as before. */
  lemma KeptListParse(c: Converter, items: seq<Block>, i: nat)
    requires i + 1 < |items| && items[i].Header? && items[i].level == 2
    requires items[i + 1].OrderedList? && items[i + 1].items != []
    requires ListsParsed(c, DropEmptyListsFrom(items, i + 2), 0) == ListsParsed(c, items, i + 2)
    ensures ListsParsed(c, DropEmptyListsFrom(items, i), 0) == ListsParsed(c, items, i)
  {
    var rest := DropEmptyListsFrom(items, i + 2);
    var d := DropEmptyListsFrom(items, i);
    assert DropEmptyListsFrom(items, i + 1) == [items[i + 1]] + rest;
    assert d == [items[i]] + DropEmptyListsFrom(items, i + 1);
    assert d == [items[i], items[i + 1]] + rest;
    ListsParsedSuffix(c, d, 2, rest, 0);
  }

  /** In the rendered document every ordered list comes right after a list's level-2 header. */
  lemma RenderedListsFollowHeaders(doc: seq<Block>, n: nat)
    requires |doc| == 1 + 2 * n && doc[0] == TopHeader
    requires forall m :: 0 <= m < n ==> doc[1 + 2 * m].Header? && doc[1 + 2 * m].level == 2
    ensures ListsFollowHeaders(doc, 0)
  {
    forall j | 0 <= j < |doc| && doc[j].OrderedList?
      ensures 0 < j && doc[j - 1].Header? && doc[j - 1].level == 2
    {
      if j % 2 == 1 {
        assert doc[1 + 2 * ((j - 1) / 2)].Header?;
      } else if j > 0 {
        assert 1 + 2 * ((j - 2) / 2) == j - 1;
      }
    }
  }

  /**
   * Rendering task lists and parsing the markdown back gives lists equal to
   * them, title by title and task by task, provided pandoc preserves every
   * title and note and reads the written document back, either as it was or
   * with its empty ordered lists left out (a list with no tasks is written as
   * its header alone).
   */
  lemma RoundTrip(c: Converter, lists: seq<TaskList>)
    requires forall m :: 0 <= m < |lists| ==> ListSurvives(c, lists[m])
    requires Strip(c.writeUnwrapped([])) == ""
    requires Document(c, lists).Ok? ==>
      var doc := Document(c, lists).value;
      c.read(c.writeDoc(doc)) in {Some(doc), Some(DropEmptyLists(doc))}
    ensures Markdown(c, lists).Ok?
    ensures Parsed(c, Markdown(c, lists).value).Ok?
    ensures ListsEq(Parsed(c, Markdown(c, lists).value).value, lists)
  {
    var doc := RenderedDocument(c, lists);
    ListsRoundTripFrom(c, lists, doc, 0);
    if c.read(c.writeDoc(doc)) != Some(doc) {
      forall m | 0 <= m < |lists| ensures doc[1 + 2 * m].Header? && doc[1 + 2 * m].level == 2 {
        assert RendersList(c, lists[m], doc, 1 + 2 * m);
      }
      RenderedListsFollowHeaders(doc, |lists|);
      DropEmptyListsParse(c, doc, 0);
    }
  }
}
