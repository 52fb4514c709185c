# Steve, verified

A Dafny model of the parts of Steve (a Kubernetes API proxy with an optional SQLite cache) where correctness depends on
several operations at once, with proofs. SQLite, Kubernetes and the cipher appear as small abstract types. Verify with
`dafny verify dfyconfig.toml`.

| module | models |
|---|---|
| `BackfillProxy`, `EventLog`, `Watch`, `WatchMeaning`, `WatchProgress`, `ListThenWatch` | the watch protocol of the SQL cache as a step machine: a writer whose transactions write one or more events in phases (fan-out under the read lock, unlock, publication of `latestRV`, and at last the commit), watchers that register, replay and go live, their proxies, the collector, and lists that hand over to watchers |
| `PartitionLister`, `PartitionRuns` | the parallel partition lister as a step machine over a fixed snapshot: main loop, goroutines, turns, shared capacity, continue tokens, whole sessions |
| `SelectorLexer`, `SelectorParser`, `SelectorRoundTrip`, `SelectorStable`, `SelectorSets` | the filter language: lexer and parser objects, printer, their round trips, and what is accepted and refused |
| `ListOptions`, `Like`, `Sql`, `QueryBuilder`, `ColumnNames`, `QueryMeaning`, `QueryResult`, `QueryColumns`, `QueryParams` | the query compiler: an SQL syntax with holes, positional parameters and three-valued logic, the loops that build it, and its meaning against a direct predicate on objects |
| `ProjectsInMemory`, `Pagination` | the in-memory list processing and its agreement with the SQL path |
| `AccessControl`, `Partitioner`, `SchemaAccess`, `ListRequest` | RBAC rules, the indexed access set with its shared maps, the access lists of schemas, the partitions derived from it, and the query built from them |
| `SchemaVisitor`, `SchemaMeaning` | the depth-first walk over cyclic schema graphs |
| `StoreTables`, `Store` | the store with its transactions, hooks, rollbacks and derived tables |
| `Counts`, `CountsWatch`, `Debounce` | incremental counts, the maps they share, the copies that are sent, debouncing |
| `Encryption` | data keys and their rotation |

Statements about the code that hold only under a condition are stated with that condition as an if-and-only-if over all
inputs or runs:

| condition | fails on |
|---|---|
| `Watch.ExactIff`, `Watch.LateTargetRepeats` | the runs `Watch.EventLost`, `Watch.ManyLost` and `Watch.EventRepeated` |
| `ListThenWatch.HandOffIff`, `ListThenWatch.ClientComplete` | the runs `ListThenWatch.ListMisses` and `ListThenWatch.ListRepeats` |
| `WatchProgress.FanOutFinishesIff` | the run `WatchProgress.FanOutStuck` |
| `PartitionLister.TokenExact` | the run `PartitionRuns.OverflowRepeats` |
| `PartitionRuns.StopsShortIff` | the run `PartitionRuns.FullChunkWithoutToken` |
| `QueryColumns.ColumnsExistIff` | `QueryColumns.SortedAndExcluded`, `QueryColumns.SortedByProject`, `QueryColumns.ClusterScopedProjects` |
| `ProjectsInMemory.AgreeIff` | `ProjectsInMemory.EmptyEntryDisagrees` |
| `Pagination.SameSliceIff` | `Pagination.OverflowWitness`, `Pagination.OverflowStartsOver` |
| `Partitioner.OneNamespaceMisses`, `Partitioner.ByIdMisses` | `Partitioner.MissedByName` |
| `StoreTables.LabelsExactIff`, `StoreTables.ImmutableColumns` | `StoreTables.LabelDropped`, `StoreTables.StateNameStale` |
| `Counts.StepRecountsIff`, `Counts.IgnoredRecountsIff` | `Counts.WrongRemoval` |
| `SelectorSets.SetParsesIff` | every list the condition excludes, such as `(a,,)` |
| `SelectorStable.ParseIsStableIff` | any quoted value that is no identifier, `SelectorStable.QuotedStableIff` |
| `QueryResult.UnionIff`, `QueryParams.ParamsFitIff`, `QueryMeaning.StrictMeansEqualIff` | every input the condition excludes |

Where code and comments differ the code is followed. Two examples: updating or deleting a key that is not stored fails
(`notifyEventModified` and `notifyEventDeleted` require the committed object), although the comment on `Update` speaks of
saving; and strict match targets are escaped as well.

Ranging over a Go map is modelled by `Prelude.Listed`, which yields the members in any order. Which calls to
the database fail, and what random bytes are read, are parameters.

## Model

| member | source | states |
|---|---|---|
| `Watch.DeliversStream` | pkg/sqlcache/informer/listoption_indexer.go:308-382 | in every state of every run a started watcher has received, in log order, a prefix of: the replayed range filtered by matchFilter, then everything written since it registered filtered by matchWatch; and all of it once nothing is in flight |
| `WatchMeaning.DeliveredMeans` | pkg/sqlcache/informer/listoption_indexer.go:1585-1615 | said of the objects: in every state of every run the notices a watcher has received carry, one by one, the kind, revision and object of events of the history, first those of the replayed range whose object has the name, namespace and labels asked for, then those since its registration whose object or replaced object has, each once and in order; and once nothing is in flight of all of them |
| `Watch.QuietWatcherExact` | pkg/sqlcache/informer/listoption_indexer.go:308-382 | a watcher that registers while no write is under way, with a retained target older than latestRV, receives every event after the target once, in log order, without a gap at the switch from replay to live |
| `Watch.ExactIff` | pkg/sqlcache/informer/listoption_indexer.go:536-566 | for every started watcher: the replay ends where the live events begin if and only if, for a target older than latestRV, the watcher did not register between the unlock and the publication of latestRV and everything written by then was committed before its read transaction, and, for any other target, exactly the events written before it registered were committed by then; where the replay ends otherwise; never more events are missing than the open transaction had written at registration, and an older target repeats none |
| `Watch.EventLost` | pkg/sqlcache/informer/listoption_indexer.go:548-566 | a run in which a watcher registers in that window and, with everything written and delivered, has received the second of three events and never the third |
| `Watch.ManyLost` | pkg/sqlcache/store/store.go:442-471 | for every n a run in which a transaction writes n events, as Replace does, and a watcher that registers and reads the log before the commit misses them all |
| `Watch.RefusedIffCollected` | pkg/sqlcache/informer/listoption_indexer.go:331-347 | ErrTooOld is returned exactly when the log does not hold the target and the target is not the latest revision; otherwise the replay starts right after the target's row |
| `Watch.TooOldDeliversNothing` | pkg/sqlcache/informer/listoption_indexer.go:331-342 | a refused watcher has received nothing, in every run |
| `Watch.LateTargetRepeats` | pkg/sqlcache/informer/listoption_indexer.go:325-366 | what a watcher that starts at latestRV or later has received when nothing is in flight: the events written since it registered and committed before its read transaction come twice, and those written at its registration but not committed by then never come |
| `Watch.EventRepeated` | pkg/sqlcache/informer/listoption_indexer.go:325-366 | a run in which such a watcher has, with everything delivered, received one event twice |
| `WatchProgress.FanOutFinishesIff` | pkg/sqlcache/informer/listoption_indexer.go:549-563 | from any reachable state a fan-out can still finish if and only if the event awaits no dead watcher: one whose proxy has returned, or that is full before its backfill and was cancelled or will be refused |
| `WatchProgress.StuckStays` | pkg/sqlcache/informer/listoption_indexer.go:549-563 | no step of the writer, the watchers, their proxies or the collector frees a fan-out that awaits a dead watcher |
| `WatchProgress.FanOutStuck` | pkg/sqlcache/informer/listoption_indexer.go:469-475 | a run in which a watcher is cancelled and its proxy returns before its registration is removed, and the next fan-out awaits it |
| `WatchProgress.MakeReady` | pkg/sqlcache/informer/listoption_indexer.go:410-472 | any watcher that is not dead can be brought to read by steps of its own: backfill, signal, flush |
| `WatchProgress.HundredBuffered` | pkg/sqlcache/informer/listoption_indexer.go:312-318 | while it replays, a watcher that was not cancelled takes a hundred events and no more, and a fan-out waits for it only when that many are queued |
| `ListThenWatch.HandOffIff` | pkg/sqlcache/informer/listoption_indexer.go:917-981 | for every list followed by a watch from the revision it returned, in any interleaving: what the list shows and what the watcher replays and receives live make up the whole history if and only if the list saw everything published when it read its revision, and, for a revision older than the latest at registration, nothing was written but unpublished then and all of it was committed before the watcher's read, or, for the latest, the log reaches back to it and exactly the events written before the registration were committed; a list is never ahead of its revision |
| `ListThenWatch.ClientComplete` | pkg/sqlcache/informer/listoption_indexer.go:308-382 | so a client that lists and then watches everything has, once nothing is in flight, been told of every event once and in order if and only if that holds |
| `ListThenWatch.ListMisses` | pkg/sqlcache/informer/listoption_indexer.go:977-981 | a run in which a list reads its rows and its revision between the publication of an event and its commit, and neither the list nor the later stream shows the event |
| `ListThenWatch.ListRepeats` | pkg/sqlcache/informer/listoption_indexer.go:336-351 | a run in which the watcher comes before that commit: its revision has no row yet, the whole log is replayed, and a listed event comes again |
| `Watch.RunInv` | pkg/sqlcache/informer/listoption_indexer.go:308-566 | the invariant of the log, the published revision, every watcher and every proxy holds in every reachable state |
| `Watch.NextInv` | pkg/sqlcache/informer/listoption_indexer.go:308-566 | every step of the writer, the watchers, their proxies and the collector keeps that invariant |
| `EventLog.CollectRows` | pkg/sqlcache/informer/listoption_indexer.go:111-116 | garbage collection keeps exactly the newest rows, a suffix of the log without holes |
| `EventLog.FindRowRows` | pkg/sqlcache/informer/listoption_indexer.go:100-103 | looking a revision up finds the row of that event and of no other |
| `EventLog.RowsFromRows` | pkg/sqlcache/informer/listoption_indexer.go:96-99 | selecting by rowid yields exactly the later events in log order |
| `BackfillProxy.EveryRun` | pkg/sqlcache/informer/listoption_indexer.go:399-479 | in every reachable state delivered events, then the queue, then the event in hand are the events received; the queue never exceeds its bound; nothing is delivered before the backfill is signalled, and until then, unless it is cancelled, it takes an event exactly when the queue is not full |
| `BackfillProxy.NextInv` | pkg/sqlcache/informer/listoption_indexer.go:399-479 | every step of the proxy goroutine keeps that |
| `PartitionLister.EmitsPrefix` | pkg/stores/partition/parallel.go:127-234 | every interleaving of the goroutines that ends emits exactly the first limit objects of the sequential concatenation from the resume point, or all of it without a limit |
| `PartitionLister.LimitInForce` | pkg/stores/partition/parallel.go:77-98 | a request that resumes at a token with a limit emits exactly that many objects of what the token denotes, or all if there are fewer, whatever limit it asks for itself; without a limit in the token its own counts, and without any it emits all; a token it leaves carries the limit in force |
| `PartitionLister.NothingAfterToken` | pkg/stores/partition/parallel.go:184-187 | once the continue state is set, no step emits anything or changes it |
| `PartitionLister.NoStartWhenFull` | pkg/stores/partition/parallel.go:143-146 | once the main loop finds no capacity left it starts no more goroutines, in any run |
| `PartitionLister.TokenExact` | pkg/stores/partition/parallel.go:197-216 | what was emitted followed by everything from the token is the whole list if and only if the resumed page does not hold more than limit objects behind a non-zero offset |
| `PartitionRuns.OverflowRepeats` | pkg/stores/partition/parallel.go:197-216 | a run in which such a page leaves a token that repeats an object |
| `PartitionLister.NoTokenComplete` | pkg/stores/partition/parallel.go:217-222 | no token means that everything from the resume point was emitted, unless the limit falls exactly on the end of a partition with objects behind it |
| `PartitionRuns.StopsShortIff` | pkg/stores/partition/parallel.go:143-146 | some run ends without a token although objects are left if and only if there is a limit and it falls exactly on the end of a partition with objects behind it |
| `PartitionRuns.CanStopShort` | pkg/stores/partition/parallel.go:143-146 | such a run for every such request: the main loop stops once the capacity is used up |
| `PartitionRuns.CanFinish` | pkg/stores/partition/parallel.go:127-234 | every request has a run that finishes |
| `PartitionRuns.FullChunkWithoutToken` | pkg/stores/partition/parallel.go:143-146 | a concrete one: one object per partition and a limit of one |
| `PartitionLister.SessionExact` | pkg/stores/partition/parallel.go:77-98 | whatever limit each request of a session asks for, with pages of at most the first request's limit: following continue tokens loses and repeats nothing, what all requests returned followed by everything from the last token is the whole list; every request returns as many objects as the first one's limit, or all that are left; and no token means nothing is left, unless that limit falls on the end of a partition |
| `PartitionLister.ChunkExact` | pkg/stores/partition/parallel.go:197-228 | each request of such a session returns a prefix of what its token denotes and leaves a token for exactly the rest |
| `PartitionLister.FirstRequestReadsAll` | pkg/stores/partition/parallel.go:62-72 | the empty token denotes the whole concatenation |
| `PartitionLister.RunInv` | pkg/stores/partition/parallel.go:127-234 | the invariant over capacity, turns, local states and the continue state holds in every reachable state |
| `QueryBuilder.ConstructQuery` | pkg/sqlcache/informer/listoption_indexer.go:668-828 | the loops over filters, projects, namespace and partitions build exactly the joins, clauses and positional parameters of the specification, or the first error |
| `QueryBuilder.BindJoins` | pkg/sqlcache/informer/listoption_indexer.go:724-751 | each filtered or unbound sort label gets one join index, sort labels first, the project label last |
| `QueryBuilder.GetUnboundSortLabels` | pkg/sqlcache/informer/listoption_indexer.go:1135-1161 | the labels bound to WITH tables are exactly the sort labels that no filter requiring them names, each once |
| `QueryBuilder.BuildGroup` | pkg/sqlcache/informer/listoption_indexer.go:1044-1075 | a group yields the OR of its filters with their parameters in order; an empty one yields nothing; the first error wins |
| `QueryBuilder.BuildFilters` | pkg/sqlcache/informer/listoption_indexer.go:754-764 | the groups' clauses and parameters in order, empty groups skipped |
| `QueryBuilder.BuildProjects` | pkg/sqlcache/informer/listoption_indexer.go:1077-1115 | the project filters joined by OR for IN and by AND for NOT IN, other operators refused |
| `QueryBuilder.BuildPartitions` | pkg/sqlcache/informer/listoption_indexer.go:783-828 | the partitions' clauses joined by OR, FALSE without partitions, nothing when none restricts |
| `QueryMeaning.FieldFilterMeans` | pkg/sqlcache/informer/listoption_indexer.go:1208-1266 | in three-valued logic a field clause is true exactly when the value of what the path stands for passes the direct test; strict tests compare with the target whose backslashes, underscores and percent signs are escaped |
| `ColumnNames.EntryForIff` | pkg/sqlcache/informer/listoption_indexer.go:1012-1042 | a path is taken exactly for what it stands for: the indexed column written with its parts at their places and dots between them, or with a last part that is no word in brackets, quotes left out; or else the element of an indexed column that the last numeral after the first part says, the other parts standing for the column; otherwise it is refused |
| `ColumnNames.PathsDiffer` | pkg/sqlcache/informer/listoption_indexer.go:1456-1474 | two paths of words stand for the same column only if they are equal |
| `QueryMeaning.StrictMeansEqualIff` | pkg/sqlcache/informer/listoption_indexer.go:1435-1450 | so a strict test means equality with the given text, for every value, if and only if the text is free of those characters |
| `QueryMeaning.LabelFilterMeans` | pkg/sqlcache/informer/listoption_indexer.go:1327-1419 | in three-valued logic a label clause is true of a joined row exactly when the row shows the label and its value passes, or, for negative operators, the object lacks the label |
| `QueryMeaning.FiltersMean` | pkg/sqlcache/informer/listoption_indexer.go:1044-1075 | the filter clauses, their parameters consumed by position, are all true of a row exactly when every group has a true alternative or is empty |
| `QueryMeaning.KeepsAll` | pkg/sqlcache/informer/listoption_indexer.go:830-840 | a conjunction of clauses that splits its parameters by the number of holes keeps a row exactly when each clause is true with its own parameters |
| `QueryMeaning.PartitionsMean` | pkg/sqlcache/informer/listoption_indexer.go:783-828 | the partition clause is true of an object exactly when a restricted partition holds it, or none is restricted and there is a partition |
| `QueryResult.ProjectsMean` | pkg/sqlcache/informer/listoption_indexer.go:1268-1325 | the projects clause is true of a joined row exactly when its namespace is, or is not, listed by name or by project label |
| `QueryResult.QuerySelects` | pkg/sqlcache/informer/listoption_indexer.go:668-828 | for all options, tables, namespaces and partitions whose query is accepted every parameter has a hole, and the query selects an object if and only if the object satisfies the direct AND-of-ORs predicate, the projects filter, the namespace and the partitions; with another filter on the project label the projects filter reads the label from the object itself |
| `QueryResult.QuerySelectsOnce` | pkg/sqlcache/informer/listoption_indexer.go:713-715 | every selected object comes at most once: DISTINCT is there, or only one joined row exists |
| `QueryResult.UnionIff` | pkg/sqlcache/informer/listoption_indexer.go:783-828 | the partition clauses keep exactly the union of the partitions, for every object, if and only if restricted and unrestricted partitions are not mixed |
| `QueryColumns.ColumnsExistIff` | pkg/sqlcache/informer/listoption_indexer.go:719-828 | every column that the joins and the WHERE clauses name exists if and only if no sort label is filtered by != or notin while no filter requires it, the project label is not a sort key without such a filter while projects are filtered, and neither a projects filter nor a namespace of the request or of a partition is there for a kind without a metadata.namespace column |
| `QueryColumns.ClusterScopedProjects` | pkg/sqlcache/informer/listoption_indexer.go:742-751 | filtering the objects of any cluster-scoped kind by projects gives a query that names a missing column |
| `QueryColumns.OrderColumnsIff` | pkg/sqlcache/informer/listoption_indexer.go:846-883 | ORDER BY compares, directive by directive and in this order, the value of the label or what the path stands for, and is refused exactly when there is nothing to compare for one of them; without directives it is the id or the name; its columns exist, except that the default order of a namespaced kind needs its id; a sort label always has a join |
| `QueryColumns.SortShowsLabel` | pkg/sqlcache/informer/listoption_indexer.go:1135-1186 | a label that no filter with =, in, <, > or existence requires is sorted by its own value: in every joined row the directive compares the object's value of the label, or NULL without one |
| `QueryBuilder.BuildOrderBy` | pkg/sqlcache/informer/listoption_indexer.go:846-883 | the loop over sort directives yields their expressions in order, or the first error, or the default order |
| `QueryColumns.SortedAndExcluded` | pkg/sqlcache/informer/listoption_indexer.go:1135-1161 | sorting by any label and filtering it by != gives a query that names a missing column |
| `QueryColumns.SortedByProject` | pkg/sqlcache/informer/listoption_indexer.go:724-751 | so does sorting by the project label while projects are filtered, although no label clashes |
| `QueryParams.ParamsFitIff` | pkg/sqlcache/informer/listoption_indexer.go:1383-1415 | every hole of the query has a parameter if and only if no label filter with in or notin has an empty list; otherwise parameters are missing |
| `QueryParams.AcceptedIff` | pkg/sqlcache/informer/listoption_indexer.go:668-828 | which requests lead to a query whose columns exist and whose parameters are complete |
| `QueryParams.AcceptedSelects` | pkg/sqlcache/informer/listoption_indexer.go:668-828 | every such query selects exactly the objects that satisfy the request, each once |
| `Like.PartialMatchIsOccurrence` | pkg/sqlcache/informer/listoption_indexer.go:1435-1450 | LIKE with the escaped and %-wrapped target matches a value if and only if the target occurs in it, up to ASCII case |
| `Like.EscapeMatchesLiterally` | pkg/sqlcache/informer/listoption_indexer.go:1443-1450 | an escaped target followed by a pattern matches exactly the target followed by a match of the pattern |
| `Like.StrictMatchIffPlain` | pkg/sqlcache/informer/listoption_indexer.go:1435-1450 | a strict target is passed unchanged if and only if it is free of backslash, underscore and percent |
| `ProjectsInMemory.FilterByProjectsAndNamespaces` | pkg/stores/partition/listprocessor/processor.go:438-464 | without a filter the list itself; otherwise, in order, exactly the objects whose namespace is known and whose namespace's name or project label, empty when missing, is listed, or for NotIn neither is |
| `ProjectsInMemory.AgreeIff` | pkg/stores/partition/listprocessor/processor.go:438-464 | the in-memory filter and the SQL clause agree on an object if and only if it is not matched by an empty list entry standing for a missing project |
| `ProjectsInMemory.SameObjects` | pkg/stores/partition/listprocessor/processor.go:438-464 | without an empty entry both keep the same objects in the same order, for all tables and both polarities |
| `ProjectsInMemory.EmptyEntryDisagrees` | pkg/stores/partition/listprocessor/processor.go:453-456 | with an empty entry some table tells them apart, for either polarity |
| `Pagination.SameSliceIff` | pkg/stores/partition/listprocessor/processor.go:416-436 | with 64-bit wrap-around PaginateList and LIMIT/OFFSET return the same slice, without failing, if and only if the offset arithmetic is safe |
| `Pagination.SameSlice` | pkg/sqlcache/informer/listoption_indexer.go:884-909 | whenever the start of the page does not overflow both return the page one expects, and neither fails |
| `Pagination.OverflowStartsOver` | pkg/stores/partition/listprocessor/processor.go:428-434 | a start that wraps to a negative offset makes slicing panic while the SQL path returns the first page |
| `Pagination.OverflowWitness` | pkg/stores/partition/listprocessor/processor.go:428-434 | page 2^32 + 1 of pages of 2^31 objects does so for every list |
| `Pagination.PagesCeiling` | pkg/stores/partition/listprocessor/processor.go:424-427 | the number of pages is the ceiling of the quotient |
| `Pagination.PageCount` | pkg/stores/partition/listprocessor/processor.go:416-436 | the number of pages returned with a page is the least that holds the list, and 0 without a page size |
| `Pagination.BeforeFirstPage` | pkg/stores/partition/listprocessor/processor.go:416-423 | pages before the first are the first, on both paths |
| `Pagination.PagesConcatenate` | pkg/stores/partition/listprocessor/processor.go:416-436 | pages 1 to the number of pages are non-empty and concatenate to the list |
| `Pagination.TokenIff` | pkg/sqlcache/informer/listoption_indexer.go:969-974 | a token is returned if and only if an object lies beyond the page, and it is where the next page starts |
| `SelectorLexer.ScanEnds` | pkg/stores/sqlpartition/queryparser/selector.go:606-614 | scanning any input ends, with exactly one end item, in last place, and at most one item per character besides |
| `SelectorLexer.Lexer.Lex` | pkg/stores/sqlpartition/queryparser/selector.go:541-556 | the position stays within the input and the item and the rest of the input are those of the specification, for any input, NUL and quotes included |
| `SelectorLexer.Lexer.ScanIdOrKeyword` | pkg/stores/sqlpartition/queryparser/selector.go:451-470 | reads up to the next symbol, blank, NUL or end |
| `SelectorLexer.Lexer.ScanQuotedString` | pkg/stores/sqlpartition/queryparser/selector.go:472-497 | reads up to the closing quote, honouring escapes, or reports an unterminated string |
| `SelectorLexer.Lexer.ScanSpecialSymbol` | pkg/stores/sqlpartition/queryparser/selector.go:501-526 | reads the longest operator, giving back a symbol that does not extend it |
| `SelectorParser.Parser.Parse` | pkg/stores/sqlpartition/queryparser/selector.go:618-649 | terminates on any input, never indexes past the items, and returns what the stateless grammar function returns, value or error |
| `SelectorParser.Parser.ScanItems` | pkg/stores/sqlpartition/queryparser/selector.go:606-614 | the items are the scan of the whole input, the end item last and only there |
| `SelectorParser.Parser.ParseRequirement` | pkg/stores/sqlpartition/queryparser/selector.go:651-680 | consumes one requirement, leaving the parser before the end item |
| `SelectorParser.Parser.ParseKeyAndInferOperator` | pkg/stores/sqlpartition/queryparser/selector.go:683-700 | infers existence from a following comma or end, absence from a leading bang |
| `SelectorParser.Parser.ParseOperator` | pkg/stores/sqlpartition/queryparser/selector.go:704-736 | the operator an item stands for, lt and gt included |
| `SelectorParser.Parser.ParseValues` | pkg/stores/sqlpartition/queryparser/selector.go:739-761 | a parenthesised set, the empty one holding the empty string |
| `SelectorParser.Parser.ParseIdentifiersList` | pkg/stores/sqlpartition/queryparser/selector.go:765-798 | values up to the closing parenthesis, empty ones where commas meet |
| `SelectorParser.Parser.ParseSingleValue` | pkg/stores/sqlpartition/queryparser/selector.go:801-813 | one identifier or quoted string |
| `SelectorParser.InsertKeeps` | pkg/stores/sqlpartition/queryparser/selector.go:209-215 | adding to a set keeps its list ascending and adds exactly that member |
| `SelectorParser.LabelKeyForms` | pkg/stores/sqlpartition/queryparser/selector.go:60-75 | which dotted and which bracketed keys count as label keys |
| `SelectorParser.RequirementString` | pkg/stores/sqlpartition/queryparser/selector.go:239-293 | the builder ends with the printed form |
| `SelectorParser.SelectorString` | pkg/stores/sqlpartition/queryparser/selector.go:318-324 | the printed requirements joined by commas |
| `SelectorRoundTrip.QuotedReadsBack` | pkg/stores/sqlpartition/queryparser/selector.go:472-497 | any text without NUL, its quotes and backslashes escaped, is read back from between quotes as it was |
| `SelectorRoundTrip.ScanPrinted` | pkg/stores/sqlpartition/queryparser/selector.go:239-324 | scanning printed requirements yields their items and the end |
| `SelectorRoundTrip.ParseAllBack` | pkg/stores/sqlpartition/queryparser/selector.go:618-813 | parsing those items yields the requirements |
| `SelectorRoundTrip.RoundTrip` | pkg/stores/sqlpartition/queryparser/selector.go:81-92 | parsing the printed form of any list of valid requirements with identifier keys, ascending values, possibly the empty one in sets, and existence on labels only, gives the list back, with either separator |
| `SelectorStable.RoundTripIff` | pkg/stores/sqlpartition/queryparser/selector.go:239-324 | for any list of requirements at all, its printed form parses to the same list if and only if every requirement is of that form |
| `SelectorStable.ParseIsStableIff` | pkg/stores/sqlpartition/queryparser/selector.go:846-868 | for any text that parses, printing and parsing again gives the same requirements if and only if every value of an operator with one value is an identifier; values that need quotes are lost |
| `SelectorStable.ParseParsable` | pkg/stores/sqlpartition/queryparser/selector.go:618-813 | whatever any text parses to has identifier keys, ascending values, identifiers or the empty string in sets, existence on labels only, and no NUL in a single value |
| `SelectorStable.QuotedNotItself` | pkg/stores/sqlpartition/queryparser/selector.go:472-497 | no text starts with a quoted string whose content is that very text up to the next separator |
| `SelectorStable.QuotedStableIff` | pkg/stores/sqlpartition/queryparser/selector.go:801-813 | any text without NUL can be given as a value in quotes, and is read back from the printed form if and only if it is an identifier |
| `SelectorStable.WordOperators` | pkg/stores/sqlpartition/queryparser/selector.go:704-736 | the words lt and gt stand for < and >, for all keys and numbers |
| `SelectorSets.SetParsesIff` | pkg/stores/sqlpartition/queryparser/selector.go:739-798 | for any values in any order, empty ones anywhere: key in (v1,v2,...) is accepted if and only if it is the empty list, or it does not end after a value in an even number of empty ones and is not an odd number of empty ones; it then asks for exactly those values; the same for notin |
| `SelectorSets.ExistenceOfFieldRefused` | pkg/stores/sqlpartition/queryparser/selector.go:651-665 | existence and absence are refused for every key that is no label |
| `SelectorSets.SingleValueRefused` | pkg/stores/sqlpartition/queryparser/selector.go:801-813 | a missing value is refused for every operator, and for < and > every value that is no number |
| `SelectorSets.Int64Numerals` | pkg/stores/sqlpartition/queryparser/selector.go:177-183 | a decimal numeral is a number exactly if it fits 64 bits, with or without a sign |
| `SelectorSets.Int64Digits` | pkg/stores/sqlpartition/queryparser/selector.go:177-183 | and nothing else but digits with a sign is one |
| `SelectorSets.BlanksIgnored` | pkg/stores/sqlpartition/queryparser/selector.go:528-539 | spaces, tabs and line ends before an item change nothing |
| `SelectorSets.FirstCharacter` | pkg/stores/sqlpartition/queryparser/selector.go:541-556 | which item each byte begins, and that every byte without a meaning is refused |
| `SelectorSets.NulEndsWord` | pkg/stores/sqlpartition/queryparser/selector.go:451-470 | a NUL ends a word and is dropped, and the text goes on behind it |
| `SelectorSets.KeywordIff` | pkg/stores/sqlpartition/queryparser/selector.go:451-470 | in and notin are keywords in small and capital letters alike, and no other word is one |
| `SelectorSets.SingleOperators` | pkg/stores/sqlpartition/queryparser/selector.go:704-736 | what =, ==, !=, ~, !~, > and < stand for, for all keys and values |
| `SelectorSets.ExistenceOperators` | pkg/stores/sqlpartition/queryparser/selector.go:683-700 | a label alone asks for its existence, with a bang for its absence |
| `SchemaVisitor.Definitions` | pkg/schema/definitions/visitor.go:15-107 | visiting any graph whose cycles pass through a kind and whose paths identify kinds terminates with exactly one completed definition per kind reachable from the root |
| `SchemaVisitor.Visitor.Accept` | pkg/schema/definitions/visitor.go:15-117 | a visit sets the field the node stands for, leaves earlier entries alone and adds only completed definitions of reachable kinds whose fields all have entries |
| `SchemaVisitor.Visitor.VisitKind` | pkg/schema/definitions/visitor.go:53-89 | the placeholder breaks the recursion and is replaced by the definition; the measure is the kinds not yet marked, then the distance to the next kind |
| `SchemaVisitor.Visitor.VisitArray` | pkg/schema/definitions/visitor.go:15-26 | an array's field names its element's type |
| `SchemaVisitor.Visitor.VisitMap` | pkg/schema/definitions/visitor.go:30-41 | a map's field names its element's type |
| `SchemaVisitor.Visitor.VisitReference` | pkg/schema/definitions/visitor.go:92-107 | a reference has the field of its target with its own description, or its name without a target |
| `SchemaVisitor.RankDrops` | pkg/schema/definitions/visitor.go:15-107 | following an array, map or reference gets strictly closer to the next kind or leaf when every cycle has a kind |
| `SchemaVisitor.VisitComplete` | pkg/schema/definitions/visitor.go:53-89 | a visit from nothing defines every kind reachable by any path |
| `SchemaVisitor.ResultUnique` | pkg/schema/definitions/visitor.go:75-78 | the definitions do not depend on the order in which fields are visited |
| `SchemaVisitor.NoPlaceholder` | pkg/schema/definitions/visitor.go:73-85 | no placeholder remains |
| `SchemaMeaning.DefinitionsMean` | pkg/schema/definitions/visitor.go:15-117 | said of the nodes: exactly the kinds that the root is made up of, through elements, values, targets and fields, are defined, each with its path, description and field names; a field is required if listed, has the description of its node, and the type of what its node resolves to along references: array or map with the type of the elements as subtype, int for integer and number, any other primitive's own type, a kind's path, string for arbitrary nodes, the name of a reference without a target |
| `SchemaMeaning.StandsOnce` | pkg/schema/definitions/visitor.go:92-107 | that determines type and subtype |
| `AccessControl.NewAccessSet` | pkg/accesscontrol/access_store.go:75-81 | the merged set of a user and the groups grants a request if and only if some rule of some binding allows it by direct scan |
| `AccessControl.UserAgrees` | pkg/accesscontrol/policy_rule_index.go:82-130 | the indexed pairs grant a request if and only if a rule matches verb, group, resource, namespace and name, with core namespaces of a RoleBinding reduced to the binding's own |
| `AccessControl.UserAgreesBy` | pkg/accesscontrol/policy_rule_index.go:82-130 | the same when only explicit names or only access to all namespaces counts |
| `AccessControl.RuleAgrees` | pkg/accesscontrol/policy_rule_index.go:92-130 | the same for one rule |
| `AccessControl.GroupOrder` | pkg/accesscontrol/access_store.go:88-100 | neither the order of groups nor repeating one changes the pairs |
| `AccessControl.AccessSet.Merge` | pkg/accesscontrol/access_set.go:53-79 | the pairs become the union, the argument and its maps stay as they are, and no map is shared, even when a set is merged into itself |
| `AccessControl.AccessSet.Add` | pkg/accesscontrol/access_set.go:148-161 | exactly one pair is added |
| `AccessControl.AccessSet.Grants` | pkg/accesscontrol/access_set.go:81-101 | the lookup under eight keys succeeds if and only if some pair grants the request |
| `AccessControl.AccessSet.AccessListFor` | pkg/accesscontrol/access_set.go:123-146 | the list holds exactly the accesses under matching keys, each once |
| `AccessControl.ListAgrees` | pkg/accesscontrol/access_set.go:243-268 | searching that list gives the same answer as Grants |
| `AccessControl.AddResourceAccess` | pkg/accesscontrol/policy_rule_index.go:92-130 | the four nested loops add exactly the rule's pairs |
| `AccessControl.AddAccess` | pkg/accesscontrol/policy_rule_index.go:82-90 | exactly the pairs of the role's resource rules are added |
| `AccessControl.ToAccessSet` | pkg/accesscontrol/user_grants.go:50-62 | a fresh set holds exactly the pairs of role and cluster role bindings |
| `Partitioner.Trim` | pkg/schema/factory.go:104-113 | exactly the accesses to all namespaces remain, in order |
| `Partitioner.Granted` | pkg/accesscontrol/access_set.go:197-230 | per namespace, whether everything is granted and exactly which names are, get accesses contributing only explicit names to lists |
| `Partitioner.GenerateAggregatePartitions` | pkg/stores/sqlpartition/partitioner.go:149-189 | one partition per namespace in any order, one for the requested namespace, or passing everything |
| `Partitioner.AllNamespacesExact` | pkg/stores/sqlpartition/partitioner.go:149-189 | a list over all namespaces lets through exactly the objects granted by a list access or by a get access with an explicit name |
| `Partitioner.OneNamespaceExact` | pkg/stores/sqlpartition/partitioner.go:157-169 | a list in one namespace lets through exactly the objects there that an access in that very namespace grants, or all when everything is granted |
| `Partitioner.OneNamespaceSound` | pkg/stores/sqlpartition/partitioner.go:157-169 | so every object it lets through is granted |
| `Partitioner.OneNamespaceMisses` | pkg/stores/sqlpartition/partitioner.go:157-169 | it misses a granted object if and only if the object is granted only by name in all namespaces |
| `Partitioner.MissedByName` | pkg/stores/sqlpartition/partitioner.go:157-169 | an access to one name in all namespaces is such a case |
| `Partitioner.GeneratePartitionsById` | pkg/stores/sqlpartition/partitioner.go:73-145 | the object's partition is returned exactly when everything, everything in its namespace, or its name is granted there; the namespace in the id comes first, and that of the request counts only without one |
| `Partitioner.ByIdExact` | pkg/stores/sqlpartition/partitioner.go:73-145 | the partitions of a request by id let through exactly the object asked for, when everything is granted or an access in its namespace covers it |
| `Partitioner.ByIdSound` | pkg/stores/sqlpartition/partitioner.go:73-145 | so what they let through is the object asked for, and granted |
| `Partitioner.ByIdMisses` | pkg/stores/sqlpartition/partitioner.go:73-145 | a request by id in a namespace misses the granted object if and only if it is granted only by name in all namespaces |
| `Partitioner.ListShowsWhatRulesAllow` | pkg/schema/factory.go:98-117 | for access lists that hold what AccessListFor finds: an object is shown if and only if a rule allows to list it or allows to get it by an explicit name, only access to all namespaces counting for a cluster-scoped kind |
| `SchemaAccess.Namespaces` | pkg/accesscontrol/access_set.go:33-51 | each namespace that an access for get or list is limited to, once |
| `SchemaAccess.AccessLists` | pkg/schema/factory.go:98-132 | the lists of all verbs of a kind, trimmed for a cluster-scoped one; or, for core namespaces without any, access by name to each of those namespaces for get and watch |
| `SchemaAccess.UserReachedIff` | pkg/accesscontrol/access_set.go:33-51 | a namespace is among them if and only if a role binding in it has a rule for the literal verb get or list on something other than the namespace itself |
| `SchemaAccess.ListShowsIff` | pkg/schema/factory.go:98-132 | from rules to lists, for every kind: an object is shown if and only if a rule allows to list it or to get it by an explicit name, or it is a core namespace of which no rule allows any verb for any object and a role binding reaches it |
| `SchemaAccess.ReachedIsShown` | pkg/schema/factory.go:119-131 | a role that only lets pods be listed in a namespace shows that namespace, though no rule allows it |
| `ListRequest.ListExact` | pkg/sqlcache/informer/listoption_indexer.go:649-655 | a list over all namespaces selects exactly the objects that pass the filters and that the user's access lists grant, each once; only a namespaced kind and a projects filter need the namespace column |
| `ListRequest.ListExactByRules` | pkg/schema/factory.go:98-132 | the whole way from RBAC rules to rows: it selects exactly the objects that pass the filters and that the rules of the user's bindings let be seen |
| `Store.Store.Add` | pkg/sqlcache/store/store.go:318-340 | it succeeds if and only if the object has a key, its index functions succeed with different values, its columns can be computed and no call outside fails; then the tables are those with one version more, and otherwise unchanged; the recomputation invariant is kept |
| `Store.Store.Update` | pkg/sqlcache/store/store.go:343-365 | the same, if and only if the key is stored as well |
| `Store.Store.Delete` | pkg/sqlcache/store/store.go:286-293 | the key disappears from all tables; it succeeds if and only if it is stored and no call outside fails |
| `Store.Store.Replace` | pkg/sqlcache/store/store.go:423-440 | it succeeds if and only if all objects have keys, those to be stored can be stored and no call outside fails; afterwards exactly they are stored, as if for the first time; on failure nothing changed |
| `Store.Store.ByKeyIsLast` | pkg/sqlcache/store/store.go:423-432 | of several objects with a key the last is stored, and every key that occurs is |
| `Store.Store.ReplaceByKey` | pkg/sqlcache/store/store.go:442-471 | the loop of upserts and hooks inside one transaction, in any key order |
| `Store.Store.AfterUpsert` | pkg/sqlcache/informer/indexer.go:118-154 | it succeeds if and only if every index function succeeds with different values and no call outside fails; the key's index rows are then exactly those of the object |
| `Store.Store.AddIndexFields` | pkg/sqlcache/informer/listoption_indexer.go:583-606 | a new row has every column, an existing one only its mutable columns rewritten |
| `Store.Store.AddLabels` | pkg/sqlcache/informer/listoption_indexer.go:609-621 | the object's labels are added or overwritten, none removed |
| `Store.Store.RunHooks` | pkg/sqlcache/store/store.go:535-566 | hooks run in order until one fails; they succeed if and only if each accepts the object and no call outside fails |
| `Store.UpsertHooks` | pkg/sqlcache/informer/listoption_indexer.go:192-197 | the registered hooks together have the effect of storing the object; the one for changes needs the key committed before |
| `StoreTables.StoredAgrees` | pkg/sqlcache/store/store.go:318-365 | storing an object keeps all tables equal to a recomputation from what was stored over time |
| `StoreTables.WithoutAgrees` | pkg/sqlcache/store/store.go:286-293 | so does deleting one, by the cascades |
| `StoreTables.IndexExact` | pkg/sqlcache/informer/indexer.go:118-154 | the index table holds exactly (name, value, key) for the index functions of the stored objects |
| `StoreTables.LookupIsScan` | pkg/sqlcache/informer/indexer.go:211-217 | a lookup by name and value finds exactly what a full scan finds |
| `Store.Store.ByIndex` | pkg/sqlcache/informer/indexer.go:211-217 | the objects a full scan finds, each once |
| `Store.Store.IndexKeys` | pkg/sqlcache/informer/indexer.go:220-233 | their keys, for an index that exists |
| `Store.Store.Index` | pkg/sqlcache/informer/indexer.go:159-202 | succeeds exactly when the index exists and its function succeeds on the object; returns, each once, the keys and the objects that share an indexed value with the given one |
| `StoreTables.MutableColumns` | pkg/sqlcache/informer/listoption_indexer.go:247-250 | mutable columns equal the stored object's fields |
| `StoreTables.ImmutableColumns` | pkg/sqlcache/informer/listoption_indexer.go:63-69 | an immutable column equals the stored object's field if and only if that field is what it was at the first insert |
| `StoreTables.StateNameStale` | pkg/sqlcache/informer/listoption_indexer.go:63-69 | an update that changes metadata.state.name leaves the old name in its column |
| `StoreTables.LabelsExactIff` | pkg/sqlcache/informer/listoption_indexer.go:609-621 | the label table has every current label with its current value, and exactly those if and only if no version dropped a label |
| `StoreTables.LabelDropped` | pkg/sqlcache/informer/listoption_indexer.go:609-621 | an update that drops a label leaves its row behind |
| `Counts.RunRecounts` | pkg/resources/counts/counts.go:142-194 | after every legal run of additions, changes and removals the incremental counts are a recount of the current objects, in total and by namespace |
| `Counts.StepRecounts` | pkg/resources/counts/counts.go:142-194 | each event keeps that |
| `Counts.StepRecountsIff` | pkg/resources/counts/counts.go:142-194 | a counted event keeps the counts a recount if and only if it is legal: it reports the state and namespace of the object that was counted, or nothing for a new one |
| `Counts.IgnoredRecountsIff` | pkg/resources/counts/counts.go:160-163 | an event that is ignored for its revision keeps the counts a recount if and only if it changes nothing |
| `Counts.RunRecountsIff` | pkg/resources/counts/counts.go:142-194 | the counts are a recount all along a run of newer events if and only if every event is legal |
| `Counts.NeverNegative` | pkg/resources/counts/counts.go:259-307 | so no count is ever negative |
| `Counts.WrongRemoval` | pkg/resources/counts/counts.go:275-290 | a removal reported in another state than the one counted drives a count below zero |
| `Counts.TallyRecounts` | pkg/resources/counts/counts.go:318-357 | the first count is a recount, and its revision is the newest of the counted objects, or 0 without any |
| `Counts.ObjectsAre` | pkg/resources/counts/counts.go:326-345 | what is counted first is exactly what can be read and is granted |
| `CountsWatch.Watch.OnChange` | pkg/resources/counts/counts.go:142-194 | a counted event changes that kind's counts by one step and sends a copy; other kinds, and everything sent before, never change |
| `CountsWatch.Watch.constructor` | pkg/resources/counts/counts.go:318-357 | every kind is counted anew into maps of its own |
| `CountsWatch.AddCounts` | pkg/resources/counts/counts.go:267-273 | the maps updated in place hold one object more, overall and in its namespace |
| `CountsWatch.RemoveCounts` | pkg/resources/counts/counts.go:259-265 | or one less |
| `CountsWatch.AddSummary` | pkg/resources/counts/counts.go:292-307 | one summary with an object more, its map of states made when it was nil |
| `CountsWatch.RemoveSummary` | pkg/resources/counts/counts.go:275-290 | one summary with an object less |
| `CountsWatch.CopyItem` | pkg/resources/counts/counts.go:76-86 | a deep copy has equal contents and shares no map |
| `CountsWatch.CountObjects` | pkg/resources/counts/counts.go:318-357 | the loop over listed objects computes the first count of a kind |
| `Debounce.Debouncer.First` | pkg/resources/counts/buffer.go:30-34 | the first message is sent at once |
| `Debounce.Debouncer.Receive` | pkg/resources/counts/buffer.go:37-48 | messages between ticks merge, later entries winning; what was sent and what is pending overlay to everything received |
| `Debounce.Debouncer.Tick` | pkg/resources/counts/buffer.go:49-53 | a tick sends what is pending and keeps that law; what was sent never changes |
| `Encryption.Manager.FetchActiveDataKey` | pkg/sqlcache/encryption/encrypt.go:117-127 | the active key is handed out and counted, or exactly when the counter reaches 2^32 a new one is made from the next random bytes, and it fails only without a key or without those; every key stays below the maximum number of uses |
| `Encryption.NoKeyWornOut` | pkg/sqlcache/encryption/encrypt.go:15-22 | in every reachable state with at most 2^32 keys each key was handed out fewer than 2^32 times |
| `Encryption.Manager.Encrypt` | pkg/sqlcache/encryption/encrypt.go:54-68 | existing keys keep their ids; it succeeds if and only if a key and a nonce can be had, and returns the data sealed with the newest key and that nonce, and the key's id |
| `Encryption.Manager.Decrypt` | pkg/sqlcache/encryption/encrypt.go:71-86 | opens with the key named, and so inverts every earlier Encrypt across any number of rotations; an unknown key id is refused |
| `Encryption.HandOutKeeps` | pkg/sqlcache/encryption/encrypt.go:117-127 | handing out the active key keeps every key below the maximum |
| `Encryption.RotateKeeps` | pkg/sqlcache/encryption/encrypt.go:129-145 | so does rotating |
| `Encryption.Manager.NewDataEncryptionKey` | pkg/sqlcache/encryption/encrypt.go:129-145 | appends a key and restarts the counter, or changes nothing without randomness |

## Left out

- SQLite, SQL text, encodings of objects and tokens, Kubernetes clients, HTTP, timers: foreign; tables are maps, tokens are records.
- ORDER BY is modelled as far as the columns it names: the meaning of queries is which objects they select, not their order; directions, the place of NULLs and `inet_aton` are not modelled.
- SQLite's limits on joined tables, parameters and the depth of expressions, and the revision a list request may demand.
- The numeric meaning of `<` and `>`: an opaque comparison in `Sql.Dialect`, as are number parsing and the splitting of array columns.
- Watch: one log row per revision is assumed (revisions are distinct), and errors of the read transaction other than ErrTooOld end the call and are not steps. A transaction that fails after it has fanned out an event is not a step: its events would have been sent and never logged.
- ListThenWatch: that the listed rows show the first committed events, one state of the objects per event, is taken from the store; the list is the number of those events.
- WatchProgress: that a fan-out can finish says that some continuation finishes it; which one is taken is left to the scheduler.
- PartitionLister: the semaphore, the revision in the token and errors of the lister are not modelled; runs that end in an error claim nothing, and the semaphore only removes interleavings: the runs constructed in `PartitionRuns` have one goroutine at a time, which any semaphore admits.
- QueryResult.QuerySelects: needs that the query's columns exist and its parameters fit; `QueryParams.AcceptedIff` says exactly when they do, and `QueryParams.AcceptedSelects` is stated for every such query. The tables of namespaces exist.
- ListRequest.ListExact: needs the same.
- ListRequest.ListExactByRules: needs the same.
- Pagination: lists have fewer than 2^62 objects.
- SelectorLexer: a character of the model is a byte; case folding covers what can yield a keyword; in the pattern for label keys a dot matches one byte where Go matches one encoded character.
- SelectorRoundTrip.RoundTrip: values that need quotes are excluded, because printing never quotes; `SelectorStable.RoundTripIff` shows that no other list is read back.
- AccessControl: non-resource URLs, the access-set cache and its key.
- Partitioner: splitting the id into namespace and name, and sorting the partitions; the namespaces of role bindings are non-empty.
- Partitioner.ListShowsWhatRulesAllow: leaves out the access to namespaces without a rule, which `SchemaAccess.ListShowsIff` covers.
- SchemaAccess: the methods a schema offers, and caching schemas by user.
- SchemaVisitor: the conversion of a map schema into a kind before the visit.
- Store: copying fields between kinds after an upsert, dropping tables, and adding index functions to a filled store; the event log is modelled in `Watch`.
- Counts.RunRecounts: events have revisions above that of the first count and report the state last counted; `Counts.StepRecountsIff` and `Counts.IgnoredRecountsIff` show that the counts go wrong with any other event that changes something.
- CountsWatch: finding schemas and access, and the summarising library; a read object is its namespace and two flags.
- Encryption.NoKeyWornOut: at most 2^32 keys and fewer than 2^63 - 1 fetches; beyond that ids and the counter wrap around.
- Encryption: keys are of the right size, so that making a cipher does not fail.
- The locking of the cache factory, the synthetic watcher's content, timestamps and summaries.
