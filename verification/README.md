# Verification of the generated data access layer

The `ent/` package is generated: every entity gets a query builder, a create and a bulk
create builder, an update builder and a row codec from one template. This project models
the four algorithms of that template and proves what they promise. The running example is
`ImportScan` / `ImportScanFile` / `ImportScanShow`, with the entities around `Episode` and `Movie` for
loaders that join in both directions.

* **Eager loading.** `sqlAll` fetches the nodes of one builder, each `load*` function runs
  one query for all of them, and joins the result back through an index.
  `Store`, `QueryTree` and `EagerSpec` give the table store, the builders as values and the run step by
  step; `Fetched` says what a run fetches in terms of the tables and of what the caller asked for, `EagerGraph`
  what the links of a loaded graph say about the stored rows, and `EagerFailure` when a run fails;
  `EagerIndex`, `EagerRows` and `EagerLinks` say what any run returns and leaves behind;
  `EagerJoin` is the naive join, `EagerWindows` and `EagerExact` say exactly when a run returns it;
  `EagerRerun` and `EagerStale` cover a builder that ran before, any number of times; `EagerPart` and `EagerPrefix`
  (over `Sublists`) compare a run with one over some of its rows, for `Terminals`, which covers `IDs`, `First`, `Only`
  and `Exist`; `EagerWitness` holds the smallest inputs that differ; `QueryClone` covers `Clone`.
  `EntityGraph` and `Builders` are the same code on the heap: loaded objects updated through the
  pointers in the index, builders that own their nested builders, and loops, each method proved to
  do what the value-level run says. `Entities` lists the entity types with
  their tables and edges, and shows that edges come in inverse pairs.
* **Bulk create and hooks.** `BulkSpec` is the chain of mutators as a function with its
  theorems; `BulkReady` says which mutations are accepted, what is said of the others and what is stored;
  `BulkOutcome` says exactly what success, a mark and a check are worth; `BulkCreate` is the chain on mutation objects; `Hooks` is `withHooks` and `withInterceptors`; `BulkRetries` is a bulk whose hooks call on
  several times.
* **Row codec.** `FileCodec`: `createSpec`, `scanValues`, `assignValues`; `FileRows` says, column by column, when a
  stored row stands for an entity, and `FileSchema` that the codec and the entity know the same columns.
* **Edge updates.** `EdgeUpdate`: the mutation's sets, the specs `sqlSave` emits, and their meaning.

Methods that change state are proved against a function of the old state; the lemmas about that
function say what it means. So a reader combines, for instance, `Builders.QueryBuilder.All` (the
objects returned are those of `EagerSpec.All`) with `EagerExact.EagerIsNaiveJoin` (which is the
naive nested join).

## What turned out not to hold

Each of these is kept as the code has it, with the exact condition proved and a smallest input
that shows it.

* Eager loading is not always the naive join. It is, exactly when no earlier occurrence of a repeated
  root id has children and no window below the root cuts anything (`EagerExact.NaiveExact`).
  * Repeated ids need a traversal with an explicit `Unique(false)`; children then go to the last
    occurrence (`EagerExact.RepeatedIDsExact`, `EagerWitness.RepeatLoses`).
  * A Limit or Offset on a nested builder is applied once for all nodes. For each edge, in either
    direction and with both at once, `EagerWindows.WindowExact` says when that is harmless, and
    `EagerExact.EdgeExact` lifts it to the loaded links (`EagerWitness.LimitLoses`, `EagerWitness.OffsetMoves`).
* A builder that ran keeps the `IN` predicates its loaders added. On an unchanged database
  that is harmless (`EagerRerun.RunTwice`). After any number of runs on any databases it returns what a fresh
  builder would exactly when, at every edge and depth, the rows the later run looks for have keys that every
  earlier run of the nested builder asked for (`EagerStale.RerunExact`). A new scan otherwise gets no files, and a
  file of a new scan no scan (`EagerWitness.SecondRunMisses`); further runs do not mend it
  (`EagerWitness.ThirdRunMisses`).
* `First` is not always the head of the list that `All` returns without the limit. It is, exactly when a limit of
  one loads the first row as no limit does: at every edge and depth the window leaves, for the ids of that row, what it
  leaves for all ids, and nothing is found for an id that occurs again (`Terminals.FirstExact`, `EagerPart.CutExact`;
  without nested windows, `Terminals.FirstWindowless`). The row itself is always the first one.
  `EagerWitness.FirstTakesChildren` has a repeated id, `EagerWitness.FirstEscapesLimit` a nested limit. `Only` has no
  such exception (`Terminals.OnlyExact`).
* `IDs` and `All` differ for an explicit `Limit(0)`, and for `Offset(0)` without a limit on more than
  2^31-1 rows (`Terminals.IDsExact`, `EagerWitness.ZeroLimitDiffers`). A second `IDs` on one builder
  always fails (`Terminals.IDsTwiceFails`).
* The comment on `Clone` promises a duplicate with all steps. The code drops `withFKs`;
  that never shows in the result (`QueryClone.CloneSameGraph`).
* A bulk create that succeeds need not have stored anything. With hooks that pass results through it has,
  exactly when the first builder that is not ready is not one that a hook skips
  (`BulkOutcome.SuccessMeansStored`, `BulkOutcome.SkippedSaveSucceeds`); `BulkOutcome.UnstoredSuccess` is for all hooks.
* Nor are marks all or nothing for hooks that hide an error, make one up or do not call on. A builder is marked
  exactly when the calls reach past it and what comes back to it is no error (`BulkOutcome.SaveMarks`,
  `BulkOutcome.AllOrNoneExact`). A hidden refusal leaves marks on builders that were not stored, and a made-up error
  leaves them on a save that failed (`BulkOutcome.HiddenRefusal`, `BulkOutcome.MadeUpFailure`).
* Bulk create checks a builder's own mutation before it takes over the one its hooks
  passed on. The two are one object exactly when no hook on the path swaps, and an entry of the batch
  fails the check exactly when what a hook put in its place does (`BulkOutcome.EntryExact`,
  `BulkOutcome.SwappedIsUnchecked`).
* `Clear` on an edge does not forget ids added before it (`EdgeUpdate.SequentialExact`,
  `EdgeUpdate.AddThenClear`).

## Assumptions about the libraries

The SQL library is a table store: a SELECT filters its source, drops repeated projections when
distinct is set, sorts stably and then cuts the window. In a graph query spec a limit or offset of 0
means "not set", and an offset without a limit becomes a limit of 2^31-1. In the database a negative
limit is no limit and a negative offset is none. Scanning into a list of ids needs a result of one column.
A batch insert returns one 64-bit id per spec or fails as a whole. An update applies the clears of an edge before the
additions, and a clear spec without targets clears the whole edge. JSON encoding has an inverse.
A row's primary key is unique in its table.

## Model

| member | source | states |
|---|---|---|
| EagerExact.EagerIsNaiveJoin | ent/importscan_query.go:406-511 | for every database and every tree of builders without nested Limit/Offset, `All` returns the graph of the naive join that runs each nested query once per row; so the foreign-key errors never occur |
| Entities.TypedTreesJoin | ent/episode_query.go:443-600 | the same for every tree of builders, of any depth, over the declared entity types, whose edges lead in both directions |
| Entities.TypedIsWellFormed | ent/importscan_query.go:312-334 | trees built with `With*` meet the shape the join theorems need |
| Entities.EdgesInvert | ent/episode/episode.go:47-68 | every edge of every entity type has exactly one inverse: an edge of its target, of the opposite kind, that leads back over the same column |
| Entities.ColumnsDiffer | ent/mediafile/mediafile.go:41-55 | no two edges of an entity type share a column |
| Entities.LoadedBothWays | ent/episode_query.go:533-600 | for each of these edges, in graphs loaded from its two ends: a node is in the list of its owner if and only if its own edge points back at that owner |
| EagerGraph.ChildrenExact | ent/episode_query.go:501-600 | a one-to-many edge of a loaded node lists, once each and in the order asked for, exactly the stored rows whose key names the node and that meet the nested predicates, with their columns and foreign keys |
| EagerGraph.ParentExact | ent/importscanfile_query.go:412-443 | a many-to-one edge points at the one stored row that the key names and that meets the nested predicates, with its columns, or at nothing if there is none |
| EagerGraph.BothWays | ent/episode_query.go:443-600 | the two ends of an edge and its inverse agree, whatever the roots select |
| Fetched.FetchedExact | ent/importscan_query.go:522-560 | a run without Limit and Offset fetches exactly the rows of its table or traversal that meet every predicate |
| Fetched.OrderExact | ent/ent.go:117-139 | of two rows of any run the first is preferred by the first order term whose keys differ, the smaller key for `Asc` and the larger for `Desc`; ties keep the order of the source |
| Fetched.WindowedExact | ent/importscan_query.go:546-551 | Offset and Limit cut the stretch they name out of those rows; 0 and negative values are none, and an Offset alone keeps at most 2^31-1 rows |
| Fetched.AllShows | ent/importscanfile_query.go:370-400 | every run that succeeds returns one node per fetched row, in order, with its id, exactly the columns asked for (all of the entity, or the id and those selected, and foreign keys when a loader needs them) that are not NULL, and for each edge whether it was requested |
| EagerFailure.FailsExact | ent/importscan_query.go:380-396 | a run fails if and only if a selected field is neither column nor foreign key, at the root or in a nested builder that was run; one at the root is named, the first of them |
| EagerExact.RootDistinct | ent/importscan_query.go:522-531 | a root query, including any traversal not marked `Unique(false)`, fetches no id twice |
| EagerExact.NaiveExact | ent/importscan_query.go:406-511 | for every database and every well-formed tree, windows and repeated ids included, `All` returns the naive join if and only if no earlier occurrence of a root id has children to lose and no window below the root, at any depth, cuts what a query per node would keep |
| EagerExact.NestedWindowsExact | ent/importscan_query.go:450-511 | for a root without repeats: if and only if no nested window cuts anything |
| EagerExact.IndexedExact | ent/episode_query.go:443-600 | for any root, `All` returns the join with children on the last occurrence of each id if and only if no nested window cuts anything |
| EagerExact.EdgeExact | ent/episode_query.go:501-563 | an edge, of either direction, gives every node the link of a query of its own if and only if its window, and every window below it, cuts nothing |
| EagerExact.RepeatedIDsExact | ent/episode_query.go:533-563 | with repeated ids and no nested windows the result is the naive join if and only if no earlier occurrence of an id has children to lose |
| EagerWindows.WindowExact | ent/importscan_query.go:450-480 | cutting Offset and Limit once and then splitting by key is splitting first and cutting each part, if and only if: without an offset the limit cuts nothing or there is one key; with one, all rows are skipped, or the rows up to the end of the window have one key and every other key has no more rows than the offset |
| EagerWindows.OneRowEach | ent/importscanfile_query.go:412-443 | for a many-to-one edge that means: without an offset the limit keeps all parents, with one the offset skips all |
| EagerPart.CutExact | ent/importscan_query.go:450-480 | cutting a window out of the rows for a few ids gives what the window over all rows leaves of them, if and only if the offset skips all rows, or: if all skipped rows are theirs, all rows in the window are or none behind it is; otherwise none in the window is and they are too few for the offset to reach |
| EagerPart.GroupsPart | ent/importscan_query.go:450-480 | a nested builder asked for some of a list of ids finds, for each, what it finds when asked for all (or nothing, for ids that are not served), if and only if its window and every window below cut alike |
| EagerPart.PartExact | ent/importscan_query.go:406-511 | two runs of one builder, the first over some of the rows of the second, load the rows they share alike if and only if at every edge and depth the windows leave, for the ids of the first, what they leave for all |
| EagerWitness.LimitLoses | ent/importscan_query.go:450-480 | two scans with a file each, and `Limit(1)` on the nested builder, in either direction: not the naive join |
| EagerWitness.OffsetMoves | ent/importscan_query.go:450-480 | the same with `Offset(1)` |
| EagerWitness.RepeatLoses | ent/importscanfile_query.go:65-86 | one scan with two files, and the scans of all files without dropping repeats: the scan is met twice and its first node gets no files |
| EagerLinks.AllIsEager | ent/importscan_query.go:406-448 | for every tree and database `All` returns, per row, the links its loaders' groups give it, or an invalid-field error; with valid fields it succeeds |
| EagerLinks.LoadManyLinks | ent/importscan_query.go:450-480 | a one-to-many loader meets no error and sets that edge of every node, to the found nodes with its id for the last occurrence and to an empty list otherwise, and changes nothing else |
| EagerLinks.LoadOneLinks | ent/importscanfile_query.go:412-443 | a many-to-one loader meets no error and sets that edge of every node whose key was found, and changes nothing else |
| EagerLinks.ChildrenKnown | ent/importscan_query.go:460-478 | every fetched child has a foreign key, and it names one of the nodes: both foreign-key errors are unreachable |
| EagerLinks.FoundRows | ent/importscanfile_query.go:428-441 | every row fetched by a loader of either direction has a key that the loader asked for, windows included |
| EagerLinks.GroupsDetermine | ent/importscan_query.go:466-478 | what the groups hold determines the whole fetched list |
| EagerRows.AllKeepsRows | ent/importscan_query.go:406-448 | for every tree and database, a run that succeeds returns the rows of its root query, in order, with their columns |
| EagerRows.ResultIDs | ent/importscan_query.go:406-448 | so its ids are theirs |
| EagerIndex.AttachChildrenExact | ent/importscan_query.go:450-480 | attaching succeeds if and only if every key is known; then the last node with an id holds its children in order and every other node an empty list |
| EagerIndex.RowsConserved | ent/importscan_query.go:450-480 | the children held by all nodes together are, as a multiset, exactly the fetched rows |
| EagerIndex.AttachParentsExact | ent/importscanfile_query.go:412-443 | attaching succeeds if and only if every parent was asked for; every node with that key points at it, and nodes with nil or dangling keys are untouched |
| EagerIndex.AttachChildrenFails | ent/importscan_query.go:466-478 | otherwise it stops at the first child without a known key: the error names that child if its key is nil and the key if it is unknown |
| EagerIndex.AttachParentsFails | ent/importscanfile_query.go:432-441 | otherwise it stops at the first parent that was not asked for and names its id |
| EagerIndex.KeysExact | ent/importscanfile_query.go:412-427 | the collected ids are duplicate-free and are exactly the non-nil foreign keys |
| EagerIndex.KeysInOrder | ent/importscanfile_query.go:412-427 | ids come in the order of first occurrence: those of a prefix of the nodes are a prefix |
| EagerIndex.LastIndexExact | ent/importscan_query.go:450-459 | the one-to-many index sends an id to its last occurrence, or to none if it does not occur |
| EagerRerun.RunTwice | ent/importscan_query.go:450-480 | a second run on the tree the first one left behind returns the same graph, for every tree, windows and errors included |
| EagerRerun.RunAgain | ent/importscan_query.go:450-480 | so does the run after any number of runs |
| EagerRerun.AllKeepsShape | ent/importscan_query.go:406-511 | a run changes only nested builders and neither adds nor drops one |
| EagerStale.RerunExact | ent/importscan_query.go:450-480 | for any number of earlier runs on any databases and every tree, windows included: the next run returns what a builder that never ran would, if and only if at every edge and depth the rows it looks for have keys that every earlier run of the nested builder asked for |
| EagerStale.UsedExact | ent/importscan_query.go:450-480 | the same when the root's own predicates differed from run to run |
| EagerStale.AgainExact | ent/importscanfile_query.go:412-443 | the same for one nested builder asked for several lists of ids, one after the other, in either direction |
| EagerStale.CommonExact | ent/importscan_query.go:460-464 | of several lists asked for, the ids still in reach are those in all of them |
| EagerStale.LinkCurrentExact | ent/importscan_query.go:450-480 | one row and one edge of either direction, with nothing loaded below: a used builder links it as a fresh one would if and only if no run loaded the edge, the row has no key, every run asked for its key, or it has nothing to find |
| EagerStale.UnseenFindsNothing | ent/importscanfile_query.go:424-441 | a row whose key one of the runs did not ask for joins to nothing, in either direction and whatever the tables hold |
| EagerWitness.SecondRunMisses | ent/importscan_query.go:450-480 | a scan, or a file, that appears between two runs is loaded by the second one without its file, or its scan |
| EagerWitness.ThirdRunMisses | ent/importscan_query.go:450-480 | and by a third one, although the second asked for it |
| EagerLinks.AllLeaves | ent/importscan_query.go:450-480 | what a run leaves of each nested builder: itself if the edge was not run, else what its own run over the asked ids leaves |
| Terminals.IDsOkExact | ent/importscan_query.go:230-239 | `IDs` runs if and only if no field is selected; otherwise it selects two columns, or an invalid one, and fails |
| Terminals.IDsFailsExact | ent/importscan_query.go:230-239 | with fields selected the error names the first unknown one, or, if all are known, counts one column more than there are fields |
| Terminals.IDsExact | ent/importscan_query.go:522-592 | through the other compiler `IDs` returns the ids of the graph `All` returns, in order, if and only if no field is selected and the two windows agree, as they do for every positive limit |
| EagerWitness.ZeroLimitDiffers | ent/importscan_query.go:522-592 | one scan and `Limit(0)`: `IDs` and `All` differ |
| Terminals.SameCandidates | ent/importscan_query.go:522-592 | both compilers select the same rows before the window, implicit distinct on traversals included |
| Terminals.IDsTwiceFails | ent/importscan_query.go:230-239 | after a successful `IDs` a second one selects two columns and fails |
| Terminals.FirstExact | ent/importscan_query.go:112-121 | `First` answers not-found if and only if the unlimited result is empty, and otherwise a node with the id of its head; it is the head if and only if a limit of one loads that row as no limit does |
| Terminals.FirstPreferred | ent/importscan_query.go:112-121 | without Offset, `First` answers a row that meets the predicates and that the order terms prefer to every other such row |
| Terminals.AnswersFail | ent/importscan_query.go:112-171 | `First` and `Only` fail if and only if their limited run does; an unknown field of the root is named |
| Terminals.FirstWindowless | ent/importscan_query.go:112-121 | without nested windows: if and only if no later row with the same id takes children from the head |
| EagerWitness.FirstTakesChildren | ent/importscanfile_query.go:65-86 | on the traversal above `First` gives the scan its files, and the head of the unlimited result has none |
| EagerWitness.FirstEscapesLimit | ent/importscan_query.go:112-121 | two scans with a file each and `Limit(1)` on files: the head of the unlimited result has no file, and `First` has one |
| Terminals.OnlyExact | ent/importscan_query.go:158-171 | for every tree and database: `Only` returns x if and only if the unlimited result is [x], not-found if and only if it is empty, not-singular if and only if it has two or more |
| Terminals.ExistExact | ent/importscan_query.go:269-279 | `Exist` answers if and only if no field is selected, and then with true if and only if the unlimited `All` returns a node |
| Terminals.LimitedExact | ent/importscan_query.go:112-171 | under a limit n the run returns the first n nodes of the unlimited one, edges included, if and only if it loads the first n rows alike |
| EagerPrefix.PrefixNodes | ent/importscan_query.go:450-480 | the nodes of a run over the first n rows are the first n of the run over all, if and only if at every edge and depth the window leaves for their ids what it leaves for all, and nothing is found for an id that occurs again behind them |
| EagerPrefix.WindowlessPrefix | ent/importscan_query.go:450-480 | without nested windows: if and only if no row that is the last of its id only among the first n has children |
| Terminals.LimitedGraph | ent/importscan_query.go:112-171 | so for a root without repeated ids and a tree without nested windows it always does |
| QueryClone.CloneSameGraph | ent/importscan_query.go:292-308 | a clone taken after any number of runs returns what the original returns, on any database |
| QueryClone.RunsKeepTidy | ent/importscan_query.go:450-480 | runs set `withFKs` only where a one-to-many loader sets it again |
| QueryClone.AlikeRuns | ent/importscanfile_query.go:370-410 | trees that differ only in such marks return the same graph |
| Builders.QueryBuilder.Clone | ent/importscan_query.go:292-308 | a fresh tree, disjoint from everything that existed, with the value of the original but for `withFKs` |
| Builders.RunClone | ent/importscan_query.go:290-308 | a `Where`, an `Order`, a `Limit` and a run on a clone write to no object that existed before |
| Builders.QueryBuilder.All | ent/importscan_query.go:211-218 | returns fresh objects that stand for the specified graph and leaves the tree in the specified state |
| Builders.QueryBuilder.SqlAll | ent/importscan_query.go:406-448 | the same once the fields are checked |
| Builders.QueryBuilder.LoadEdges | ent/episode_query.go:443-499 | loads the requested edges in order, stops at the first error, and reaches the specified nodes and nested builders |
| Builders.QueryBuilder.FetchNodes | ent/importscanfile_query.go:370-400 | one fresh object per selected row, in order; foreign keys are selected when `withFKs` or a many-to-one edge asks for them |
| Builders.LoadChildren | ent/importscan_query.go:450-480 | a one-to-many loader on objects does what the value-level one says, to nodes and nested builder |
| Builders.LoadParents | ent/importscanfile_query.go:412-443 | the same for a many-to-one loader, which runs no query when all keys are nil |
| Builders.QueryBuilder.PrepareQuery | ent/importscan_query.go:380-404 | reports the first selected field the entity does not have, or nothing |
| Builders.QueryBuilder.BuildSpec | ent/importscan_query.go:522-560 | the step-by-step `querySpec` is the specified one |
| Builders.QueryBuilder.BuildSelector | ent/importscan_query.go:562-592 | the step-by-step `sqlQuery` is the specified one |
| Builders.QueryBuilder.IDs | ent/importscan_query.go:230-239 | returns the specified ids or error and leaves `unique` and the id selected |
| Builders.QueryBuilder.First | ent/importscan_query.go:112-121 | returns the specified answer and leaves the limit at 1 |
| Builders.QueryBuilder.Only | ent/importscan_query.go:158-171 | returns the specified answer and leaves the limit at 2 |
| Builders.QueryBuilder.Exist | ent/importscan_query.go:269-279 | returns the specified answer or error and leaves the limit at 1 and the id selected |
| Builders.QueryBuilder.With | ent/importscan_query.go:312-331 | the nested builder becomes part of the tree and of what it owns |
| EntityGraph.IndexByID | ent/importscan_query.go:450-459 | collects all ids in node order, indexes the last object of each id and resets the edge to an empty list |
| EntityGraph.AttachChildren | ent/importscan_query.go:466-478 | the attaching loop updates exactly the specified objects, or stops with the specified error |
| EntityGraph.GroupByKey | ent/importscanfile_query.go:412-423 | the groups list, for each non-nil key, exactly the objects that hold it, and `ids` are the keys in order of first occurrence |
| EntityGraph.AttachParents | ent/importscanfile_query.go:432-441 | the assigning loop points every object of a group at the parent, or stops with the specified error |
| BulkSpec.OneBatchOrNone | ent/importscanfile_create.go:494-542 | one batch insert with the specs of all builders in order if every builder is ready, and no insert otherwise |
| BulkSpec.BatchExact | ent/importscanfile_create.go:494-534 | the same from any point of the chain |
| BulkSpec.MadeExact | ent/importscanfile_create.go:498-530 | a builder is marked done if and only if it has an entity, and entity i is built from the mutation that reached builder i, with id i |
| BulkSpec.ReadBack | ent/importscanfile_create.go:523-527 | the entity of builder i is what `assignValues` reads back from its stored row, when the store keeps given ids and chooses ids below 2^32 |
| BulkSpec.StoredExact | ent/importscanfile_create.go:512-523 | ids are set exactly when a batch was issued and stored, and are those the store returned |
| BulkSpec.SucceedsExactly | ent/importscanfile_create.go:494-542 | with hooks that call on and pass errors through, the save succeeds if and only if all builders are ready and the one batch is stored |
| BulkSpec.AllOrNothing | ent/importscanfile_create.go:494-542 | with such hooks a save that succeeds marks every mutation done, and one that fails marks none, whichever position failed |
| BulkSpec.TraceExact | ent/importscanfile_create.go:494-542 | when the batch is issued, all checks and specs happen in builder order before the one insert; hooks are left and marks set in reverse after it |
| BulkSpec.WellBracketed | ent/importscanfile_create.go:531-534 | the trace is well bracketed, for all hooks that call on at most once |
| BulkSpec.InsertAtCentre | ent/importscanfile_create.go:531-534 | at the insert all hooks of all builders are open, nested in builder order and, per builder, registration order |
| BulkOutcome.ErrorExact | ent/importscanfile_create.go:494-542 | for all such hooks, the error of a save is the innermost one, led out through the hooks that are open there |
| BulkOutcome.SuccessExact | ent/importscanfile_create.go:494-542 | with hooks that pass results through but may refuse or skip, a save succeeds if and only if all builders are ready and the batch is stored, or the first builder that is not ready is skipped |
| BulkOutcome.SuccessMeansStored | ent/importscanfile_create.go:511-542 | success means that the rows are stored if and only if the first builder that is not ready is not skipped |
| BulkOutcome.UnstoredSuccess | ent/importscanfile_create.go:511-542 | for all hooks: success without stored rows, if and only if the open hooks turn the innermost error into none |
| BulkOutcome.MarkExact | ent/importscanfile_create.go:509-529 | for all hooks that call on at most once and from any point of the chain: a builder is marked if and only if the calls reach past it and the innermost error, led out through the hooks open below it, is none |
| BulkOutcome.SaveMarks | ent/importscanfile_create.go:494-542 | the same for a whole save |
| BulkOutcome.AllOrNoneExact | ent/importscanfile_create.go:494-542 | for all such hooks, marks are all or nothing if and only if, on success, every builder was ready and none got an error back and, on failure, every builder that was reached did |
| BulkOutcome.RefusedMarks | ent/importscanfile_create.go:509-529 | a refused batch leaves a builder marked if and only if the hooks below it hide the refusal |
| BulkOutcome.MarksExact | ent/importscanfile_create.go:509-529 | with hooks that pass results through, a success marks exactly the builders before the skipped one, all if none is, and a failure marks none |
| BulkOutcome.HiddenRefusal | ent/importscanfile_create.go:509-529 | the smallest example: a hook hides that the batch was refused; the save succeeds with builder 0 of two marked |
| BulkOutcome.MadeUpFailure | ent/importscanfile_create.go:509-529 | the smallest example: a hook makes up an error after the batch was stored; the save fails with the builder marked |
| BulkOutcome.SameObjectExact | ent/importscanfile_create.go:498-506 | the mutation that is inserted is the object that was checked if and only if no hook on the path swaps |
| BulkOutcome.EntryExact | ent/importscanfile_create.go:498-522 | each entry of an issued batch is built from the mutation that arrived; it fails the check if and only if a hook put another in its place and that one fails |
| BulkOutcome.BatchChecked | ent/importscanfile_create.go:498-522 | an issued batch holds only mutations that pass the check if and only if every replacement does |
| BulkOutcome.SwappedIsUnchecked | ent/importscanfile_create.go:498-506 | the smallest example: a mutation that fails the check is inserted when a hook passes it on in place of the builder's own |
| BulkOutcome.SkippedSaveSucceeds | ent/importscanfile_create.go:509-529 | the smallest example: a hook that does not call on lets the save succeed with the earlier builder marked and nothing inserted |
| BulkCreate.FileCreateBulk.Save | ent/importscanfile_create.go:483-543 | on objects: sets the defaults, calls the first mutator, and returns the list, error, trace, marks and ids the specification says; an empty bulk inserts nothing |
| BulkCreate.FileCreateBulk.SavedOrUntouched | ent/importscanfile_create.go:483-543 | all or nothing on the objects, for faithful hooks: either entry k of the list is the entity of builder k with the k-th id and its mutation is done, or no mutation is newly done |
| BulkCreate.FileCreateBulk.Mutate | ent/importscanfile_create.go:498-541 | one call in the chain realises `BulkSpec.Mutate`, changes nothing that belongs to earlier builders, and points builders at their own or new mutations |
| BulkCreate.FileCreateBulk.Complete | ent/importscanfile_create.go:498-530 | the closure of one builder: check, spec, call on, id and mark |
| BulkCreate.FileCreateBulk.SetDefaults | ent/importscanfile_create.go:290-311 | fills in the five defaults of every builder's mutation and nothing else |
| BulkCreate.FileCreateBulk.UnhookedOutcome | ent/importscanfile_create.go:483-543 | on objects, without hooks: a save that succeeds had acceptable mutations alone and returns entities with what was set and the defaults; otherwise it names the first thing wrong with the first mutation that is not acceptable |
| BulkReady.CheckExact | ent/importscanfile_create.go:314-360 | a mutation passes if and only if it meets all twelve requirements |
| BulkReady.CheckNames | ent/importscanfile_create.go:314-360 | otherwise the error is the first one it does not meet |
| BulkReady.ReadyExact | ent/importscanfile_create.go:290-360 | a builder without hooks is ready if and only if a non-empty path, a size and a scan are set, and classification, decision and outcome are unset or among the listed values |
| BulkReady.RefusedExact | ent/importscanfile_create.go:314-360 | and otherwise turns the save back for the first of these that fails |
| BulkReady.RefusedSave | ent/importscanfile_create.go:494-542 | the first mutation that is not acceptable makes the save fail with that error; nothing is inserted and nothing marked |
| BulkReady.AcceptedSave | ent/importscanfile_create.go:494-542 | without hooks a batch is issued if and only if all mutations are acceptable, and the save ends as the batch does |
| BulkReady.StoredAsGiven | ent/importscanfile/importscanfile.go:123-178 | entry k of the batch, stored and read back, has what the caller set, "unmatched", "pending" and "pending" for unset states, the clock's instants, and zero for the rest |
| BulkReady.FinishedKept | ent/importscanfile_create.go:523-527 | so has the returned entity; its id is the one given, or the one the store chose |
| Hooks.WithHooks | ent/ent.go:525-557 | the world and the reply of the hooks composed around the operation, with an error for a value of another type, or, when a hook is nil, an error with the world unchanged |
| Hooks.EmptyAgrees | ent/ent.go:530-532 | the shortcut for an empty list returns what the composition would |
| Hooks.LayersNest | ent/ent.go:542-547 | hook 0 is outermost: first parts run in order, second parts in reverse; a hook that stops is answered by the hooks before it alone |
| Hooks.ExecSees | ent/ent.go:533-541 | the operation runs at most once, in the world the hooks built, with the builder's mutation replaced by the one passed on; it does not run for a foreign mutation |
| Hooks.ComposeAppend | ent/ent.go:542-547 | hooks registered earlier enclose those registered later |
| Hooks.RunsMultiply | ent/ent.go:542-547 | hooks that call on n1, n2, ... times run the operation n1 * n2 * ... times |
| Hooks.RetryCallsOn | ent/ent.go:542-547 | calling the next mutator n times in a row is such a hook |
| BulkRetries.BulkInserts | ent/importscanfile_create.go:498-534 | while every mutation passes the check, a bulk save whose hooks call on several times issues as many batch inserts as the numbers of all builders' hooks multiply to |
| BulkRetries.ClosureCallsOn | ent/importscanfile_create.go:498-530 | the closure of a builder, with its check, takeover, spec and id, calls on once and keeps every mutation checked |
| BulkRetries.ClosureInserts | ent/importscanfile_create.go:503-528 | the closure of the last builder inserts the earlier specs and the spec of the mutation that arrived, which then has the id of its row |
| BulkRetries.ClosureStops | ent/importscanfile_create.go:503-505 | the closure of a builder that fails the check returns an error, changes nothing and does not call on |
| BulkRetries.NothingBelow | ent/importscanfile_create.go:498-534 | so no hooks that leave it failing, however often they call, get a batch issued below it |
| Hooks.WithInterceptors | ent/ent.go:592-605 | the world and the reply of the interceptors composed around the querier, first one outermost, with an error for a value of another type |
| FileCodec.CreateReadRoundTrip | ent/importscanfile_create.go:382-477 | reading a created row through any list that names every column gives the fields of the entity `createSpec` returned, for every mutation |
| FileRows.ReadsExactly | ent/importscanfile.go:108-237 | a row that stands for an entity, column by column, reads back as that entity, through any list that names every column, in any order and with repeats |
| FileRows.WritesExactly | ent/importscanfile_create.go:382-477 | the row created for a mutation stands for the entity with the fields it sets |
| FileRows.SetAndRead | ent/importscanfile_create.go:382-477 | so every field that a mutation sets reads back as set, and every other one as zero |
| FileRows.NullExact | ent/importscanfile_create.go:382-477 | a column of the created row is NULL if and only if the mutation does not set it |
| FileRows.ReadFails | ent/importscanfile.go:108-237 | reading fails if and only if there are too few buffers or one has a fault; it stops at the first fault, with the columns before it assigned |
| FileRows.NarrowExact | ent/importscanfile.go:115-120 | narrowing a stored number keeps its low bits |
| FileSchema.SchemaExact | ent/importscanfile.go:85-104 | the columns with a case of their own are exactly those the entity declares, foreign key included |
| FileCodec.SpecWrites | ent/importscanfile_create.go:382-477 | the spec sets exactly the columns the mutation sets, to its values |
| FileCodec.BuildCreateSpec | ent/importscanfile_create.go:382-477 | entity and spec, filled in field by field, are the specified ones |
| FileCodec.CellRoundTrip | ent/importscanfile.go:108-237 | column by column: what is written reads back, and what is not written reads as NULL and leaves the zero value |
| FileCodec.NoTypeMismatch | ent/importscanfile.go:85-237 | buffers from `scanValues` for the same columns, in any order and with repeats, never give a type error; the only failure is candidates that do not decode |
| FileCodec.LastBufferWins | ent/importscanfile.go:108-237 | each field ends up with its last non-NULL buffer, or unchanged if there is none |
| FileCodec.UnnamedUntouched | ent/importscanfile.go:108-237 | fields of columns outside the list keep their values, whether the read succeeds or ends in an error |
| FileCodec.ImportScanFile.AssignValues | ent/importscanfile.go:108-237 | assigns column by column up to the first error, or nothing when there are too few values |
| FileCodec.ScanValues | ent/importscanfile.go:85-104 | one buffer per column, of the kind its column is read through |
| EdgeUpdate.SpecsRealise | ent/importscan_update.go:477-566 | applied by the store, the specs turn each edge, independently, into (empty if cleared, else old minus removed) plus added |
| EdgeUpdate.EmitEdge | ent/importscan_update.go:477-521 | a clear spec without targets is emitted only for a cleared edge; otherwise the targets are exactly the removed ids, and nothing is emitted for an empty set |
| EdgeUpdate.ScanMutation.Save | ent/importscan_update.go:402-577 | nothing is sent when the check fails; otherwise the specs of the pending changes are sent and realise them; not-found is reported if and only if the store found no row, a constraint error if and only if one was violated, and the mark is set only on success |
| EdgeUpdate.ScanMutation.SaveOne | ent/importscan_update.go:969-1163 | the same for one row, which must have an id; the selected columns are the id followed by the others in order, and the first unknown one is refused |
| EdgeUpdate.SameChanges | ent/importscan_update.go:1061-1150 | specs that `Save` and `SaveOne` send for the same pending changes have the same clears and additions in the same places, with the same targets in some order |
| EdgeUpdate.CallsExplained | ent/mutation.go:4245-4350 | after any sequence of calls the saved edge is what the calls say read in order, plus the ids a clear was meant to drop |
| EdgeUpdate.SequentialExact | ent/mutation.go:4245-4350 | the two are equal from every starting point if and only if no id was added before a clear and not mentioned since |
| EdgeUpdate.AddThenClear | ent/mutation.go:4245-4257 | the shortest call sequence for which they differ |

## Left out

- EagerExact.NaiveExact: requires valid field selections throughout, because an invalid field is an error; so do EagerStale.RerunExact and Terminals.FirstExact.
- EagerStale.LinkCurrentExact: is for a nested builder that loads nothing further; whole runs of any depth are in EagerStale.RerunExact.
- EagerExact.EagerIsNaiveJoin: is for trees without nested windows; EagerExact.NaiveExact has them.
- EagerGraph.ChildrenExact: is for trees without nested windows and a root that fetches no id twice; EagerExact.NaiveExact says when the others load the same. EagerGraph.BothWays is for nested builders without predicates of their own.
- BulkReady.ReadyExact: is for builders without hooks, whose effect on a mutation is arbitrary; BulkReady.CheckExact is for every mutation that is checked.
- EagerPart.PartExact: is for two runs without a path, as nested builders are; Terminals.LimitedExact has roots with one.
- Terminals.LimitedGraph: is for a root without repeated ids and a tree without nested windows; Terminals.LimitedExact has the rest.
- QueryClone.CloneSameGraph: requires a root whose `withFKs` is unset; the setters never set it, and a nested builder is not a root.
- BulkCreate.FileCreateBulk.Save: requires that no two builders share a mutation, and holds a mutation's id by value, so that a caller's later write to an entity's id does not show in the mutation.
- BulkSpec.BatchExact: hooks call on at most once (BulkRetries.BulkInserts counts the inserts when they do not), depend only on the mutation they get, and are not nil; a nil hook in a bulk is a run-time panic. An explicit id of 0 together with a skipped insert, which also panics, is not modelled.
- BulkSpec.WellBracketed: is for hooks that call on at most once.
- BulkOutcome.SuccessExact: is for hooks that pass results through; BulkOutcome.ErrorExact and BulkOutcome.UnstoredSuccess are for all.
- BulkOutcome.MarksExact: is for hooks that pass results through; BulkOutcome.MarkExact and BulkOutcome.SaveMarks are for all.
- BulkRetries.BulkInserts: counts batch inserts; marks, results and traces of hooks that call on more than once are not modelled.
- Hooks.ExecSees: is for hooks that call their next mutator at most once; `Hooks.WithHooks` and `Hooks.ComposeAppend` are for all hooks.
- FileCodec.CreateReadRoundTrip: takes an instant as an integer and JSON as a pair of inverse functions; a nil and an empty candidate list are one value.
- EdgeUpdate.ScanMutation.Save: takes the field specs and the outcome of `check` as given, and a conflict over an added file as an error of the store.
- One template stands for the per-entity code; builders carry a description of their entity type instead.
- Slices are sequences, so sharing of backing arrays between slices is not captured.
- Traversal closures are functions of the database that do not fail, and order terms compare integer keys.
- Builders.QueryBuilder.Clone: copies no interceptors and no cached selector, since builders here hold neither.
- Builders.QueryBuilder.All: has no interceptors, contexts or query hooks around it; `Hooks.WithInterceptors` covers how interceptors compose.
- Builders.QueryBuilder.PrepareQuery: leaves out the refusal of nil interceptors and errors of the traversal closure.
- Builders.RunClone: is one sequence of calls; that nothing older is written follows for any other from `Builders.QueryBuilder.Clone`, whose result owns only new objects.
- `scanWithInterceptors`, `GroupBy`, `Aggregate`, `Count`, `setContextOp`: reflection, library scanning or single branches.
- Single-row `Save`: it is `withHooks` around the same check, spec and id assignment.
- Fluent field setters, `SetNillable*`, panicking wrappers, `String`, client construction: single-branch code.
- The entities around `User` (requests, invites, sessions, keys, identities) are not listed in `Entities`; they come from the same template and have the same two kinds of edge.
