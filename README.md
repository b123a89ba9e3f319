# gtasks-md in Dafny

gtasks-md edits Google Tasks as a markdown document. It fetches every task list
with its tasks and subtasks and renders them as markdown. The user edits the
text, which is parsed back into task lists. The program then reconciles the old
and the new snapshot by sending delete, insert, patch and move calls to the
service. Before each edit it stores a backup of the document in a ring of ten
slots, and a rollback replays the latest backup.

This project models four parts of that program and proves what they promise.

- **Task data model** (`tasks.dfy`): the task status enum with its
  case-insensitive lookup; tasks and task lists with the equality the
  reconciler uses; the request bodies sent to the service.
- **Reconciler** (`matcher.dfy`, `remote.dfy`, `reconcile.dfy`,
  `level_facts.dfy`, `list_facts.dfy`, `service.dfy`):
  - the title-keyed diff that builds the DELETE / UPDATE / INSERT entries;
  - the per-list and per-task application of those entries through batched
    requests and their callbacks, with remote ids copied into the new tasks in
    place and subtasks reconciled recursively;
  - the chains of move calls that restore sibling order.

  The service is a `GoogleApiService` object. It keeps the trace of calls made
  so far and an oracle that gives each call's outcome. `module Reconcile`
  defines the behaviour as functions, and the methods of `GoogleApiService`
  (arrays updated in place, loops over the batch) are proved equal to them.
- **Fetch assembly** (`fetch.dfy`, `fetch_facts.dfy`): how `fetch_task_lists`
  turns the service's task-list and task records into lists of tasks with
  subtasks.
- **Markdown conversion** (`pandoc.dfy`): the rendering of task lists to a
  pandoc document and the recursive-descent parse back, over a small pandoc
  AST. The pandoc library is a record of uninterpreted reader and writer
  functions.
- **Backups** (`backup.dfy`): the ten-slot ring with its marker file, as a
  `Backup` object whose fields are the marker and the slot contents.

`builtins.dfy` holds the Python built-ins the code relies on: `str.strip`,
`str.split` with Python's whitespace set, ASCII case folding, string order and
a stable sort.

## Model

| member | source | states |
|---|---|---|
| Tasks.Missing | app/tasks.py:25-30 | the fallback lookup finds the member whose value matches the string ignoring case, and finds none exactly when no member matches |
| Tasks.StatusOfMatches | app/tasks.py:25-30 | the status a string names matches it ignoring case; there is none iff no member's folded value equals the folded string; any member that matches is the one found |
| Tasks.FoldedValuesDistinct | app/tasks.py:20-23 | no two members share a folded value, so a case-insensitive match is unambiguous |
| Tasks.Lookup | app/tasks.py:20-30 | `TaskStatus(value)`: an exact value gives its member, otherwise the case-insensitive fallback decides |
| Tasks.Content | app/tasks.py:45-52 | the part of a task equality looks at: title, note, status and, recursively, the subtasks, with id and position cleared |
| Tasks.TaskEqIsContentEq | app/tasks.py:45-52 | two tasks are equal iff their contents are identical |
| Tasks.TaskEqIgnoresIdAndPosition | app/tasks.py:45-49 | changing a task's id or position leaves it equal to itself |
| Tasks.TaskEqReflexive | app/tasks.py:45-52 | task equality is reflexive |
| Tasks.TaskEqSymmetric | app/tasks.py:45-52 | task equality is symmetric |
| Tasks.TaskEqTransitive | app/tasks.py:45-52 | task equality is transitive |
| Tasks.ListEqIsContentEq | app/tasks.py:79-84 | two task lists are equal iff they have the same title and the same task contents in the same order; the id is ignored |
| Tasks.TaskBody | app/tasks.py:60-67 | a task's request body has exactly the keys id, kind, notes, status and title, with kind `tasks#task` and the status's wire value |
| Tasks.RequestDeterminesTask | app/tasks.py:60-67 | equal task bodies mean equal id, title, note and status |
| Tasks.ListBody | app/tasks.py:89-94 | a list's request body has exactly the keys id, kind and title, with kind `tasks#taskList` |
| Tasks.ListRequestIgnoresTasks | app/tasks.py:89-94 | a list's body does not depend on its tasks |
| Builtins.Strip | app/googleapi.py:300 | a stripped string neither starts nor ends with whitespace |
| Builtins.TrimStartDropsSpaces | app/googleapi.py:300 | stripping the front removes exactly a prefix of whitespace |
| Builtins.TrimEndDropsSpaces | app/googleapi.py:300 | stripping the end removes exactly a suffix of whitespace |
| Builtins.Words | app/pandoc.py:41 | `str.split()` yields only non-empty words |
| Builtins.WordsHaveNoSpaces | app/pandoc.py:41 | no word of `str.split()` contains whitespace |
| Builtins.WordsCoverText | app/pandoc.py:41 | the words, run together, are exactly the text's non-whitespace characters in order |
| Builtins.WordsOfRun | app/pandoc.py:41 | a non-empty run without whitespace splits into itself alone |
| Builtins.WordsSplitAtSpace | app/pandoc.py:41 | a whitespace character splits the text into the words before it followed by the words after it; with `WordsOfRun` this fixes the words as the maximal runs |
| Builtins.Casefold | app/tasks.py:28 | folding keeps the length of a string |
| Builtins.StrLeTotal | app/googleapi.py:332 | string order is total |
| Builtins.StrLeTransitive | app/googleapi.py:332 | string order is transitive |
| Builtins.SortByIsSorted | app/googleapi.py:332-337 | the sort gives a sorted permutation of its input |
| Builtins.SortByStable | app/googleapi.py:332-337 | the sort is stable: elements with equal keys come out in the order they went in |
| Builtins.MapSortBy | app/googleapi.py:332-337 | sorting keeps the multiset of any projection of the items |
| Matcher.OpFor | app/googleapi.py:209-224 | the entry for a title holds an item with that title and is a DELETE iff no new item has the title |
| Matcher.Ops | app/googleapi.py:208-224 | every entry is built from the inputs, and an entry is a DELETE iff its title is gone from the new items |
| Matcher.GenOps | app/googleapi.py:208-224 | the dictionary-filling loops give exactly the entries, in the dictionary's insertion order |
| Matcher.OpForNewStep | app/googleapi.py:213-222 | a new item whose title is already keyed turns the entry into UPDATE of the held item, and otherwise adds INSERT with its index |
| Matcher.OpIndex | app/googleapi.py:224 | every title of either snapshot has its entry in the list |
| Matcher.OpsOnePerTitle | app/googleapi.py:209-224 | one entry per distinct title of old and new together, and no other |
| Matcher.DeleteIffVanished | app/googleapi.py:210-211 | an entry is a DELETE iff its title is gone, and the last old item with a vanished title is deleted |
| Matcher.UpdateForKeptTitle | app/googleapi.py:213-220 | a title in both snapshots gives UPDATE of the last old item with it and the last new item with it, at that new item's index |
| Matcher.RepeatedTitleIsUpdate | app/googleapi.py:213-222 | a title found twice among the new items only gives UPDATE of its first new item by its last one |
| Matcher.HeldOfNewTitle | app/googleapi.py:214-222 | the item held for a title that only the new snapshot has is its first new item |
| Matcher.DuplicateNewTitleCollapses | app/googleapi.py:213-222 | two new items with one title and nothing old give the single entry UPDATE(first, second, 1) |
| Matcher.OpsOrder | app/googleapi.py:221-224 | entries for old titles come first in old order, then entries for new-only titles in new order, and no INSERT has an old title |
| Matcher.KeysInFirstOccurrenceOrder | app/googleapi.py:224 | the dictionary's keys appear in the order of their first insertion |
| Matcher.DiffMatchesDistinctTitles | app/googleapi.py:208-224 | with distinct titles, each new item gets UPDATE with its old namesake or INSERT, and each old item gets UPDATE or DELETE |
| Matcher.DiffIdentity | app/googleapi.py:208-224 | diffing a snapshot with itself gives UPDATE(x, x, i) for each item in order |
| Matcher.DiffFromNothing | app/googleapi.py:208-224 | diffing distinct-titled items against nothing gives INSERT(x, i) for each item in order |
| Matcher.OpsTargetsDistinct | app/googleapi.py:213-222 | no two non-DELETE entries name the same new index |
| Matcher.DiffOfSameTitles | app/googleapi.py:208-224 | equal title sequences give only UPDATE entries pairing items at the same index |
| Remote.MoveChain | app/googleapi.py:228-238 | one move per task, each naming its predecessor's id, the first naming "" |
| Remote.MoveChainOrders | app/googleapi.py:226-238 | under the service's move semantics, a chain puts its ids first, in order, followed by the other siblings in their old order |
| Remote.MoveChainIdempotent | app/googleapi.py:228-238 | replaying a move chain changes nothing |
| Remote.TwoChainsOrder | app/googleapi.py:124-133 | the pending chain and then the completed chain leave the completed tasks first, then the pending ones, then the rest |
| Reconcile.CallbackSmaller | app/googleapi.py:155-172 | the subtasks a callback reconciles are strictly smaller than the level, so the recursion ends |
| Reconcile.BatchOnList | app/googleapi.py:178-204 | every batched request addresses the list being reconciled and none is a move |
| Reconcile.FreshTasksAreInserted | app/googleapi.py:186-192 | reconciling distinct-titled tasks against nothing batches one insert per task, in order |
| Reconcile.PendingOf | app/googleapi.py:117-123 | the pending group holds only tasks of the level that are not completed |
| Reconcile.CompletedOf | app/googleapi.py:117-123 | the completed group holds only completed tasks of the level |
| Reconcile.PartitionPermutes | app/googleapi.py:117-123 | the two groups together are a permutation of the level |
| Reconcile.PartitionIds | app/googleapi.py:117-123 | distinct ids stay distinct in each group, and no id is in both |
| Reconcile.FinalSiblingOrder | app/googleapi.py:117-133 | with distinct non-empty ids, the two chains order the level as completed tasks, then pending tasks, each in level order |
| Reconcile.MovesSent | app/googleapi.py:228-238 | moves execute one by one; a failed move raises and stops the chain after it |
| Reconcile.MovesSentAll | app/googleapi.py:233-238 | when every move succeeds, the whole chain is sent |
| Reconcile.MovesSentFailure | app/googleapi.py:233-238 | the first failed move is the last one sent |
| Reconcile.Prepared | app/googleapi.py:193-194 | building the batch changes only the ids of the new tasks |
| Reconcile.Callbacks | app/googleapi.py:179-206 | the callbacks keep the length of the new tasks |
| Reconcile.Callback | app/googleapi.py:137-176 | one callback keeps the length of the new tasks |
| Reconcile.BatchStep | app/googleapi.py:193-203 | an entry adds one request to the batch, except an UPDATE of equal tasks, which adds none |
| Reconcile.CallbacksRaised | app/googleapi.py:149-153 | once a callback has raised, later entries change nothing |
| Reconcile.CallbacksStopped | app/googleapi.py:149-153 | a raised run stays as it is through all later entries |
| Reconcile.EntryUnchanged | app/googleapi.py:193-203 | an UPDATE of equal tasks sends nothing and runs no callback |
| Reconcile.EntrySent | app/googleapi.py:179-204 | any other entry's callback runs with the outcome of its own request |
| Reconcile.CallbacksStep | app/googleapi.py:179-204 | after the callbacks before it succeed, entry k runs its callback with its request's outcome |
| LevelFacts.LevelExtends | app/googleapi.py:110-134 | reconciling a level only appends calls on that list to the trace |
| LevelFacts.CallbacksExtends | app/googleapi.py:136-206 | the callbacks only append calls on that list |
| LevelFacts.CallbackExtends | app/googleapi.py:137-176 | one callback only appends calls on that list |
| LevelFacts.LevelContent | app/googleapi.py:110-134 | the returned tasks have exactly the new tasks' content: only ids and reconciled subtasks' ids change |
| LevelFacts.CallbacksContent | app/googleapi.py:136-206 | the callbacks keep the new tasks' content |
| LevelFacts.CallbackContent | app/googleapi.py:147-176 | one callback keeps the new tasks' content |
| LevelFacts.PreparedContent | app/googleapi.py:193-194 | copying the old ids keeps the new tasks' content |
| LevelFacts.LevelKeepsEquality | app/googleapi.py:134 | the returned tasks equal the new tasks under task equality |
| LevelFacts.PreparedIds | app/googleapi.py:193-194 | every UPDATE copies the old id into its new task, even when the tasks are equal; untouched tasks stay as they were |
| LevelFacts.CallbacksIds | app/googleapi.py:152-194 | UPDATEs keep the old ids; a successful insert's task holds the id the service answered with |
| LevelFacts.CallbackKeepsOthers | app/googleapi.py:147-176 | a callback writes only its own task's id and subtasks |
| LevelFacts.LevelIds | app/googleapi.py:110-206 | in the returned tasks, each UPDATE's task holds the old id and each inserted task the id the service gave it |
| LevelFacts.OrderedSent | app/googleapi.py:117-133 | after the batch, the level sends the pending chain and then the completed chain |
| LevelFacts.LevelEndsWithMoves | app/googleapi.py:110-134 | a level that succeeds sends its batch and callbacks, then the pending chain, then the completed chain |
| LevelFacts.UnchangedBatch | app/googleapi.py:195 | a level whose entries are all UPDATEs of equal tasks batches nothing |
| LevelFacts.UnchangedCallbacks | app/googleapi.py:193-204 | such a level runs no callback, only copies the ids |
| LevelFacts.UnchangedLevelOnlyMoves | app/googleapi.py:110-134 | reconciling equal task sequences sends only the two move chains |
| ListFacts.ListOpCalls | app/googleapi.py:90-108 | DELETE sends exactly the list delete; INSERT sends the list insert, then only calls on the created list; UPDATE only calls on the old list |
| ListFacts.ListOpGrows | app/googleapi.py:90-108 | a list entry never takes back a call |
| ListFacts.ListOpsGrow | app/googleapi.py:245-248 | the trace after k list entries is a prefix of the trace after more of them |
| ListFacts.EntryFirstCall | app/googleapi.py:245-248 | a DELETE or INSERT entry's list call comes right after the calls of the entries before it |
| ListFacts.VanishedListsAreDeleted | app/googleapi.py:73-93 | every old list whose title is gone is deleted, even when other lists raised |
| ListFacts.NewListsAreInserted | app/googleapi.py:78-100 | every new list with a fresh, unrepeated title is created, even when other lists raised |
| ListFacts.UnchangedListsNoCalls | app/googleapi.py:103-104 | equal snapshots make no call and raise nothing |
| GoogleApi.GoogleApiService.constructor | app/googleapi.py:35-46 | a service starts with an empty trace and its outcome oracle |
| GoogleApi.GoogleApiService.Send | app/googleapi.py:204 | one call is appended to the trace and gets the oracle's outcome for its position |
| GoogleApi.GoogleApiService.Reconcile | app/googleapi.py:245-248 | `reconcile` makes exactly the calls of the list entries run in turn, and raises iff one of them did |
| GoogleApi.GoogleApiService.ApplyTaskListOp | app/googleapi.py:90-108 | one list entry makes exactly the calls `Reconcile.ListOp` gives |
| GoogleApi.GoogleApiService.ReconcileTasks | app/googleapi.py:110-134 | a level makes exactly its calls and leaves the array holding the level's resulting tasks |
| GoogleApi.GoogleApiService.ApplyTaskOps | app/googleapi.py:136-206 | the batch and its callbacks make exactly their calls and update the array in place as `Reconcile.Callbacks` gives |
| GoogleApi.GoogleApiService.PrepareBatch | app/googleapi.py:178-203 | the loop builds exactly the batch and copies the old ids into the array |
| GoogleApi.GoogleApiService.SendBatch | app/googleapi.py:204 | executing the batch sends every request in order, and each gets its own outcome |
| GoogleApi.GoogleApiService.RunCallbacks | app/googleapi.py:204 | the callbacks run in batch order, and each sees its own request's outcome |
| GoogleApi.GoogleApiService.Entry | app/googleapi.py:179-203 | one batch entry's callback, matched to its response by counting the requests before it |
| GoogleApi.GoogleApiService.Respond | app/googleapi.py:137-176 | the callback of a sent entry, as `Reconcile.Callback` gives |
| GoogleApi.GoogleApiService.InsertCallback | app/googleapi.py:147-161 | a failed insert raises and changes nothing; a successful one stores the new id and replaces the subtasks with those reconciled against nothing under that id |
| GoogleApi.GoogleApiService.UpdateCallback | app/googleapi.py:163-176 | a failed patch changes nothing and does not raise; a successful one replaces the subtasks with those reconciled under the old id |
| GoogleApi.GoogleApiService.Partition | app/googleapi.py:117-123 | the loop splits the tasks into the pending and completed groups |
| GoogleApi.GoogleApiService.FixTaskOrder | app/googleapi.py:228-243 | the loop sends the move chain until a move fails, and raises iff one did |
| Fetch.Requested | app/googleapi.py:325-328 | pending tasks are requested iff there is no filter or the filter is PENDING; completed tasks iff there is no filter or it is COMPLETED |
| Fetch.RequestsFor | app/googleapi.py:325-328 | one request per wanted completion state, for the list |
| Fetch.Requests | app/googleapi.py:321-328 | every request is for a listed list id and a wanted completion state |
| Fetch.Convert | app/googleapi.py:297-305 | a record becomes a task without subtasks, with the status that matches its status string; an unmatched status raises |
| Fetch.ConvertAll | app/googleapi.py:297-305 | all records convert, one task each, or the callback raises |
| Fetch.ConvertAllFails | app/googleapi.py:297-305 | one record with an unknown status makes the whole answer raise |
| Fetch.ItemsFailurePersists | app/googleapi.py:320-329 | an answer that raised makes the whole batch raise |
| Fetch.Children | app/googleapi.py:307-312 | nothing is set aside under the empty parent |
| Fetch.Registered | app/googleapi.py:321-331 | the dictionary holds one list per distinct listed id, in first-listed order |
| Fetch.Attached | app/googleapi.py:333-336 | attaching subtasks keeps the number of tasks |
| Fetch.Finish | app/googleapi.py:333-337 | the final pass keeps the number of lists |
| Fetch.RegisterLists | app/googleapi.py:318-328 | the registration loop keys each list by id, with the last title seen, and queues the wanted requests |
| Fetch.AddRequests | app/googleapi.py:325-328 | the loop queues the list's requests in order |
| Fetch.Callback | app/googleapi.py:281-314 | a request that raised is ignored; an answer naming a next page raises; otherwise every record is filed, or the callback raises on an unknown status |
| Fetch.TakeRecords | app/googleapi.py:297-314 | the record loop files every record, or raises exactly when one does not convert |
| Fetch.TakeRecord | app/googleapi.py:297-314 | a record with a parent is set aside under it; any other is appended to its list |
| Fetch.RunBatch | app/googleapi.py:320-329 | the batch files every answer in order, and raises iff some answer raised |
| Fetch.AttachSubtasks | app/googleapi.py:333-336 | each top-level task gets exactly the subtasks set aside for its id |
| Fetch.ListValues | app/googleapi.py:331 | the dictionary's values are the registered lists in order |
| Fetch.Assemble | app/googleapi.py:331-337 | the final pass sorts the lists by title, attaches subtasks and sorts by position |
| Fetch.BuildAll | app/googleapi.py:333-337 | given the subtasks set aside by parent id, each list ends with its tasks carrying their subtasks, every level sorted by position |
| Fetch.FetchTaskLists | app/googleapi.py:297-337 | the whole assembly gives exactly the lists `Fetch.Fetched` gives, or raises exactly when it is `None` |
| FetchFacts.ConvertAllBare | app/googleapi.py:297-305 | converted records carry no subtasks and the list they came from |
| FetchFacts.ItemsBare | app/googleapi.py:297-314 | every item the callbacks produce is a task without subtasks |
| FetchFacts.TopLevelBare | app/googleapi.py:314 | a list's top-level tasks carry no subtasks before attachment |
| FetchFacts.ChildrenBare | app/googleapi.py:312 | the subtasks set aside carry no subtasks |
| FetchFacts.AttachedBare | app/googleapi.py:335 | attaching subtasks changes nothing but the subtasks |
| FetchFacts.FetchedSortedByTitle | app/googleapi.py:331-332 | the lists come back sorted by title |
| FetchFacts.SortedEntry | app/googleapi.py:321-332 | each sorted list is a listed id with its last-listed title and its top-level tasks |
| FetchFacts.FetchedOneListPerId | app/googleapi.py:321-331 | exactly one list per distinct listed id, holding the title of that id's last record |
| FetchFacts.BuiltTasks | app/googleapi.py:333-337 | a list's tasks are its top-level tasks sorted by position, each holding exactly the subtasks set aside for its id, sorted by position |
| FetchFacts.SubtasksPlaced | app/googleapi.py:336 | a task's subtasks come out sorted by position and without subtasks of their own |
| FetchFacts.FetchedTasksPlaced | app/googleapi.py:307-337 | every fetched list holds exactly its top-level tasks, by position, with exactly their subtasks, by position, and nothing deeper |
| FetchFacts.NextPageRaises | app/googleapi.py:288-295 | any answer that names a next page makes the whole fetch raise |
| FetchFacts.UnknownFilterFetchesNoTasks | app/googleapi.py:325-328 | a filter on UNKNOWN requests nothing, so every list comes back empty |
| Pandoc.Spaced | app/pandoc.py:39-44 | n words give 2n-1 inlines alternating Str(word) and Space, starting and ending with Str; no words give none |
| Pandoc.TextToPandoc | app/pandoc.py:39-44 | the append loop and the final `[:-1]` give exactly the alternating inlines |
| Pandoc.TextsOfSpaced | app/pandoc.py:39-44 | the words can be read back from the inlines |
| Pandoc.TaskToPandoc | app/pandoc.py:53-79 | a task renders to its title block, its note's blocks when notes are shown, and an ordered list of its subtasks when it has any |
| Pandoc.TasksToPandoc | app/pandoc.py:46-51 | sibling tasks render with notes iff any of them has a note |
| Pandoc.TaskListsToMarkdown | app/pandoc.py:36-91 | the document is the level-1 header followed by a level-2 header and an ordered list per list |
| Pandoc.ListBlocksFailurePersists | app/pandoc.py:61-67 | a note pandoc cannot read makes the whole rendering raise |
| Pandoc.ListBlocksErrors | app/pandoc.py:61-67 | rendering can only raise SyntaxError |
| Pandoc.TaskBlocksShape | app/pandoc.py:56-77 | a rendered task starts with Para iff notes are shown (else Plain), whose first inline is the checked box iff the task is completed, and ends with an ordered list of its subtasks when it has any |
| Pandoc.SiblingsRenderedAlike | app/pandoc.py:48-73 | all siblings start with Para iff one of them has a note |
| Pandoc.ListBlocksShape | app/pandoc.py:85-89 | each list renders to a level-2 header of its title's words and an ordered list of its tasks |
| Pandoc.MatchStatusSigns | app/pandoc.py:128-135 | `MatchStatus` (`match_status`): the unchecked box reads PENDING, the checked box COMPLETED, anything else UNKNOWN |
| Pandoc.SignRoundTrip | app/pandoc.py:56-135 | a PENDING or COMPLETED task's box reads back its status; an UNKNOWN task's box reads back PENDING |
| Pandoc.TaskParsed | app/pandoc.py:127-160 | a parsed task has id "" and the given position; its first block is Plain or Para with a status from its first inline; subtasks come only from a final ordered list |
| Pandoc.ParseTasks | app/pandoc.py:119-125 | the loop parses every item in order, or raises what the first bad item raises |
| Pandoc.ParsedPositions | app/pandoc.py:119-160 | parsed tasks have id "" and positions equal to their indices |
| Pandoc.StrayBlockRaises | app/pandoc.py:97-117 | `ListsParsed` (`parse_task_lists`): any block at list level other than a level-1 header, a level-2 header or the ordered list right after one raises |
| Pandoc.OneListPerHeader | app/pandoc.py:97-117 | `ListsParsed` (`parse_task_lists`): a parse that succeeds gives one list with id "" per level-2 header, level-1 headers being skipped |
| Pandoc.TaskRoundTrip | app/pandoc.py:53-160 | a task that pandoc preserves renders and parses back to an equal task |
| Pandoc.ItemsRoundTrip | app/pandoc.py:46-125 | sibling tasks render and parse back pairwise equal |
| Pandoc.RenderedDocument | app/pandoc.py:81-89 | the rendered document has 1 + 2n blocks, the pair for list m at 1 + 2m |
| Pandoc.ListsRoundTripFrom | app/pandoc.py:97-115 | parsing the rendered document from list k gives lists equal to the rest of the input |
| Pandoc.OneListRoundTrip | app/pandoc.py:104-111 | a rendered header and ordered list parse back to one equal list |
| Pandoc.ListsParsedStep | app/pandoc.py:104-111 | `ListsParsed`: a level-2 header followed by an ordered list gives a list with the header's text and the parsed tasks, then the lists after both |
| Pandoc.HeaderOnlyList | app/pandoc.py:104-115 | `ListsParsed`: a level-2 header with no ordered list right after it gives a list with the header's text and no tasks, then the lists after the header, or the error raised after it |
| Pandoc.Parsed | app/pandoc.py:162-166 | `markdown_to_task_lists` raises SyntaxError when pandoc yields no document; a parse that succeeds gives one list with id "" per level-2 header of the document |
| Pandoc.DropEmptyListsParse | app/pandoc.py:104-115 | when every ordered list follows a level-2 header, leaving out the empty ordered lists does not change the parse: the header alone gives the same list with no tasks |
| Pandoc.RenderedListsFollowHeaders | app/pandoc.py:81-89 | in the rendered document every ordered list comes right after a list's level-2 header |
| Pandoc.RoundTrip | app/test_pandoc.py:103-107 | rendering task lists to markdown and parsing it back gives equal task lists, lists with no tasks included, when pandoc preserves titles and notes and reads the document back with or without its empty ordered lists |
| Backups.WriteSlot | app/backup.py:34 | the slot a write uses is always in 0..9 |
| Backups.DiscardSlot | app/backup.py:51 | the slot a rollback returns is always in 0..9 |
| Backups.Backup.constructor | app/backup.py:24-25 | a backup object for a user over the directory as found |
| Backups.Backup.WriteBackup | app/backup.py:27-40 | the marker is set to (marker + 1) % 10, or 0 without a number, and the text is stored in that slot |
| Backups.Backup.DiscardBackup | app/backup.py:42-56 | no marker file gives none and changes nothing; otherwise the marked slot % 10 is returned and the marker set one below it |
| Backups.WriteThenRollback | app/backup.py:34-53 | a rollback right after a write returns the slot just written, which holds the text |
| Backups.RollbackThenWrite | app/backup.py:34-53 | a write right after a rollback reuses its slot; a second rollback returns the slot before it, 0 being followed by 9 through the marker -1 |
| Backups.RollbackPastOldest | app/backup.py:46-56 | after one write into a fresh directory, a second rollback names slot 9, which holds no backup |
| Backups.WritesFillRing | app/backup.py:34-40 | up to ten writes fill consecutive slots after the marked one and leave the marker on the last |
| Backups.RollbacksStepBack | app/backup.py:51-54 | rollbacks leave the backups alone and step back one slot each |
| Backups.NewestFirst | app/backup.py:27-56 | after up to ten writes, successive rollbacks return the backups newest first |

## Left out

- Credentials, building the service client, the CLI, the editor subprocess and
  logging. These are files, OAuth and processes, not logic.
- The network. Each call's outcome, and the id the service answers with, come
  from an oracle parameter. Batch transport and request building with ISO
  dates are left out.
- Fetch pagination. Each answer is its first page plus the token of the next
  one; only whether that token is empty matters, because a further page makes
  the callback raise. `maxResults=100` on the list of task lists is not
  modelled.
- `asyncio`. The list coroutines contain no `await`, so they run one after
  another in creation order. That is how `GoogleApiService.Reconcile` runs
  them.
- The service's own state. Only the order of siblings under moves is
  modelled, by `Remote.Move`, which is an assumption of this model: a move
  after an id that is not a sibling is taken to change nothing. No proved
  order reaches that branch, because under the requires of
  `MoveChainOrders`, `MoveChainIdempotent` and `TwoChainsOrder` every
  `previous` is the id that the chain placed just before.
- Fetch.Convert: `int(position)` is taken as already parsed, and a missing
  `id`, `title` or `position` field (a KeyError) is not modelled.
- Backups.Backup.WriteBackup: a marker that `int()` cannot parse is not
  modelled, because the marker is always written by the program itself.
- Backups.Backup.DiscardBackup: it returns the slot number, which stands for
  the path `{cache}/{slot}.bak.md`. The cache directory and the file I/O are
  not modelled.
- Builtins.Casefold: only ASCII letters are folded. A string that folds to a
  status value only through non-ASCII letters (`ſ` to `s`, the Kelvin sign to
  `k`) is accepted by Python's `casefold` but raises in the model. The
  service sends only the exact values.
- pandoc itself. Reading markdown and writing inlines, blocks and documents
  are the uninterpreted functions of `Pandoc.Converter`. The assertions in the
  tests about exact markdown text are not provable here. The pandoc AST is cut
  down to the blocks and inlines the program inspects; every other node is
  `OtherBlock` or `OtherInline`.
- Pandoc.RoundTrip: the round trip is proved under explicit assumptions,
  given by `ListSurvives` and the reading of the written document:
  - titles and notes survive writing and reading;
  - pandoc reads the written document back either as it was or with its empty
    ordered lists left out (a list with no tasks is written as its header
    alone);
  - no task's status is UNKNOWN. An UNKNOWN task renders as an unchecked box
    and comes back PENDING, which `Pandoc.SignRoundTrip` states;
  - no note that is rendered reads back to blocks ending in an ordered list
    (`NoteSurvives`). This condition comes from the program's own parser, not
    from pandoc; see "Notes ending in a numbered list" below.
- Object identity. Tasks and lists are values, and the in-place updates of
  `apply_task_ops` act on an array of task values. Aliasing between a task
  held by an entry and the array cell it updates is not modelled. The code
  reads the entry's own copy in the callbacks, and the array is what is
  returned.

## Behaviour worth knowing

The model follows the code in each case.

- **Subtask recursion.** The subtasks of a matched task are reconciled only
  when a patch was sent, because the old and new tasks differ
  (app/googleapi.py:194-203), and only when that patch succeeded: the update
  callback returns on an exception (app/googleapi.py:165-168).
- **Failures that escape.**
  - A failed task insert logs the error and then still reads `response["id"]`,
    which raises (app/googleapi.py:148-152). The exception escapes the batch
    and every enclosing level, which the model treats as an abort
    (`InsertCallback`).
  - A failed move raises out of `fix_task_order` (app/googleapi.py:233-238),
    and so does a failed list delete or insert (app/googleapi.py:93, 98).
  - Failed task deletes and patches are only logged
    (app/googleapi.py:137-143, 165-168).
  - Every list entry still runs, because each one is its own task for
    `asyncio.gather` and none of them awaits (app/googleapi.py:246-248).
- **Sibling order.** The pending chain is sent first and the completed chain
  second, and each chain starts again from the front
  (app/googleapi.py:124-133, 230-237). Completed tasks therefore end up before
  pending ones among siblings (`Remote.TwoChainsOrder`).
- **Answers with a further page.** When an answer names a next page, the
  callback calls `get` on the request object built for that page, not on an
  executed answer (app/googleapi.py:289-295). That raises, and the exception
  escapes `batched_request.execute()` (app/googleapi.py:329), so the whole
  fetch raises (`FetchFacts.NextPageRaises`).
- **Notes ending in a numbered list.** The parser takes a final ordered list
  in a task's item as its subtasks (app/pandoc.py:151-156). A task without
  subtasks whose note ends in a numbered list therefore comes back with the
  note cut before the list, and the list's items come back as subtasks. Their
  lines carry no status box, so they are UNKNOWN (app/pandoc.py:128-135). The
  round trip is proved only for notes that do not end in an ordered list.
- **Lists without tasks.** An empty list renders as a level-2 header followed
  by an ordered list with no items (app/pandoc.py:85-89), which pandoc writes
  as the header alone. The header then parses through the branch for a header
  with no ordered list after it, as a list with no tasks
  (app/pandoc.py:104-115), so the list still comes back
  (`Pandoc.DropEmptyListsParse`).
- **Rollback past the oldest backup.** Rolling back more often than backups
  were written is not refused. The marker is written as one below the slot
  returned, so it wraps from slot 0 to slot 9 (app/backup.py:51-53) and names
  slots that may never have been written (`Backups.RollbackPastOldest`).
