# Verified model of a SCIM 2.0 server core

This project models the storage-neutral SCIM server in `pkg/scim` (RFC 7643, RFC 7644) in Dafny and
proves what its bulk executor, transactional store, reconciler, filter and search engine, resource
normal form and PATCH machinery guarantee over all inputs and all runs. `dafny verify dfyconfig.toml`
checks the whole project.

## Layout

| component | modules |
|---|---|
| bulk executor | `BulkReferences`, `BulkExecutor` (requests, runs as traces, the scheduler), `BulkTheorems`, `BulkBudget`, `BulkForecast` (what the request alone decides), `BulkMeaning` (calls and entries, place by place) |
| store and records | `Records`, `Memory` (calls as functions of the state, the classes that perform them), `StoreSafety`, `StoreLaws` (every outcome from the state alone), `RecordLaws`, `ExternalIds`, `Buffers` (the same with heap buffers), `Etag` |
| server writes | `ServerWrites`, `Concurrency`, `Readability` (which stores can be read back) |
| reconciler | `Reconciler` (plan and meaning), `ReconcilePlan`, `ReconcileTheorems`, `ReconcileStability`, `ReconcileRun` (the transaction itself), `ReconcileFailures`, `ReconcileLaws` |
| filters | `FilterSyntax` (parser), `FilterGrammar`, `Schema`, `FilterMeaning` (validator, evaluator, denotation), `FilterLaws` (what filters say, independently of both) |
| search | `SearchCount`, `Search` (sorting and paging in place), `SearchLaws`, `MixedSearch`, `Projection`, `ProjectionLaws`, `SearchScan` (the bounded scan and the whole search), `ReadableSearch` |
| documents | `Json` (decoder), `JsonLanguage`, `NormalForm` (preparation), `NormalFormSteps` (its loops), `NormalFormFacts`, `NormalFormTheorems`, `NormalLaws`, `SchemaLaws`, `StandardTables` (what an accepted document is), `ReadBack`, `StoredResources`, `UnstableUsers`, `Mutability`, `Patch`, `PatchRun`, `PatchLaws` (read at paths), `Slices` (arrays shared between elements) |
| shared | `Values`, `Text`, `TextLaws`, `Order` |

An imperative part of the program is a method or a class with loops, proved against a function that
says what it means; the theorems are about those functions. Documents are values: a map the program
edits in place is a variable of type `map` that the method reassigns.

## What is assumed

The libraries the program calls are function parameters, and each theorem names what it needs of them:

- Case folding and lower-casing are arbitrary functions, so folding is an equivalence on texts. The two
  are independent of each other; where they must tell schemas apart, `NormalFormTheorems.Sensible` says so.
- The version hash is injective where versions stand for content (`Records.InjectiveVersions`), and
  versions are one quoted strong entity tag (`Concurrency.QuotedVersions`).
- PRECIS preparation of a prepared name returns it (`NormalFormTheorems.Sensible`).
- The canonical codec returns a canonically spelled document it has written and accepted
  (`StoredResources.Codec`); `JsonLanguage.DocumentRoundTrip` proves this of the decoder on tokens.
- The known attribute spellings are filed under their own lower-cased form (`JsonLanguage.Named`).
- Clock values and generated IDs are parameters; a store behind the bulk executor answers each call in
  any way that depends on the calls before it; the order in which a Go map is walked is arbitrary.

## Where the code and the expectations differ

- Cycle failures are not counted toward `failOnErrors` (`pkg/scim/bulk_execute.go:121-130`). Execution does
  stop at the configured failure count, as documented: nothing runs after the k-th failure of any kind
  (`BulkBudget.NothingRunsAfterTheLastFailure`). But cycle reports come last, so a response may report more
  than k failures (`BulkBudget.CycleReportsExceedTheBudget`); `BulkBudget.BudgetBoundsTheResponse` says exactly when.
- The normal form is not always reproduced. A User whose `schemas` names the base schema in two spellings
  that fold together but lower-case apart, or whose prepared user name is longer than 1024 bytes, is
  accepted, and then neither accepted again nor rendered. `ReadBack.PreparingTwice` and
  `StoredResources.StoredResourcesCanBeRead` give the exact condition, `UnstableUsers` concrete inputs, and
  `Readability.StoresStayReadable` the consequence for whole histories.
- A record without indexes is stored and never rendered: preparation makes an empty list of indexes, the
  store keeps none, and `renderRecord` compares the two with `reflect.DeepEqual` (`pkg/scim/resource.go:446`,
  `pkg/scim/store.go:151`, `pkg/scim/server.go:665`). Users and Groups always have one; for custom types
  `StoredResources.OnlyIndexedResourcesCanBeRead` gives the condition, `MixedSearch.UnindexedWidgetIsLost` an input.
- Two elements given one array by a filtered PATCH share its buffer, and later additions for one may overwrite
  those for the other. No standard attribute has arrays inside its elements; a custom one may.
  `Slices.ChangeElements` and `Slices.ChangeInTurn` say when this cannot happen, `Slices.SharedRoomIsLost` that
  wherever room is shared it can, `Slices.SharedArrayIsOverwritten` an input.
- Sorting is not always by an order: values of another type tie with everything. For distinct IDs
  `Search.ComparatorIsStrictTotal` gives the exact condition, and `MixedSearch.IncomparableValuesMakeCycles`
  stored documents that fail it in a search over two resource types.
- Repeating a filtered PATCH addition may fail, because the first one may edit what the filter asks for
  (`PatchRun.RepeatedFilteredAdd`, `PatchRun.FilteredAddMayLoseItsTarget`).
- External IDs are not unique among live records (`ExternalIds.ExternalIdsAreNotUnique`). Which creates and
  replacements keep them unique is said by `ExternalIds.CreateKeepsExternalIds` and `ReplaceKeepsExternalIds`;
  a duplicate stops every reconciliation in its reach (`ExternalIds.DuplicatesStopReconciliation`). A replacement
  may also take over the external ID of a deleted record (`StoreLaws.ReplacementsIgnoreTombstones`).

## Model

| member | source | states |
|---|---|---|
| BulkExecutor.CheckRequest | pkg/scim/bulk.go:52-95 | Once the request is read, it is accepted exactly when the numbers of operations and of tolerated failures are within bounds, every operation is well formed by itself, and the bulkIds are pairwise different |
| BulkMeaning.WellFormedOperationsAre | pkg/scim/bulk.go:70-90 | A creation names a collection and itself and has an object, a change names its target and has an object, a removal names its target and has nothing, and no other operation is well formed |
| BulkReferences.Collect | pkg/scim/bulk.go:118-133 | The dependency walk adds exactly the references of a value to what was collected before |
| BulkReferences.ResolvesExactlyWhenKnown | pkg/scim/bulk_execute.go:218-270 | A value resolves if and only if every reference the dependency walk finds in it is known |
| BulkReferences.ResolvedIsReferenceFree | pkg/scim/bulk_execute.go:233-270 | A resolved value mentions no bulkId, given that known identifiers and locations are not references, so resolving it again leaves it alone |
| BulkReferences.ResolutionIsStable | pkg/scim/bulk_execute.go:233-270 | A resolution is not changed by learning more bulkIds: only the entries a value mentions matter |
| BulkExecutor.Classify | pkg/scim/bulk_execute.go:70-87 | The inner loop finds an operation blocked or ready exactly as its references demand, in whatever order the map is walked |
| BulkExecutor.Visit | pkg/scim/bulk_execute.go:66-120 | One step of a pass settles the operation at hand, or walks past it because it is settled or waiting, and extends the legal run by that event |
| BulkExecutor.ReportCycles | pkg/scim/bulk_execute.go:121-130 | After a pass without progress everything left gets the cycle failure, and the run is complete |
| BulkExecutor.Serve | pkg/scim/bulk_execute.go:52-132 | For every request and every store the multi-pass loop terminates, and its response is that of a legal, complete run |
| BulkTheorems.StateReflectsTrace | pkg/scim/bulk_execute.go:53-62 | The reference and failure maps say exactly which bulkIds have succeeded and failed so far |
| BulkTheorems.SettledOnce | pkg/scim/bulk_execute.go:66-108 | Each operation is settled at most once |
| BulkTheorems.DependenciesSucceedFirst | pkg/scim/bulk_execute.go:70-94 | An operation is attempted only after everything it refers to has succeeded earlier in the run |
| BulkTheorems.ReadyNeverUnresolved | pkg/scim/bulk_execute.go:70-94 | What the dependency check lets through never fails as unresolved |
| BulkTheorems.StoreSeesNoReference | pkg/scim/bulk_execute.go:135-200 | No reference ever reaches the store, neither in the data nor as the target of a call, and data without references arrives unchanged |
| BulkMeaning.ResolvedAt | pkg/scim/bulk_execute.go:233-270 | Place by place, a resolved value has the shape and the leaves that are no references as they were, and a reference bulkId:n has become the identifier of n, or in or under a field $ref, arrays included, its location |
| BulkMeaning.CallsAreMeant | pkg/scim/bulk_execute.go:135-200 | Every call of a run has the method, version and collection of its operation, as its target the ID in the path or that of the earlier success the path refers to, and data that is the client's at every place but for references, each of which stands for an earlier successful creation that declared its name |
| BulkMeaning.RefusalsAreUnknownCollections | pkg/scim/bulk_execute.go:135-198 | Of a well-formed request only operations with an unknown collection are refused before the store is called, as an invalid path |
| BulkMeaning.EntriesTellOutcomes | pkg/scim/bulk_execute.go:272-296 | The entry of every settled operation tells its outcome: status, location and version by method for a success, and for each kind of failure its status, 500 for what may not be shown, and the location as far as it is known |
| BulkTheorems.CyclesNeverRun | pkg/scim/bulk_execute.go:64-131 | No operation on a cycle of the bulkId graph, or depending on one through any chain, is ever attempted |
| BulkTheorems.CycleReportsAreTrue | pkg/scim/bulk_execute.go:121-130 | The 409 cycle failure goes only to operations whose dependency chain leads into a real cycle (pigeonhole) |
| BulkTheorems.CyclesComeLast | pkg/scim/bulk_execute.go:121-131 | Once a cycle is reported nothing but cycle reports follows |
| BulkTheorems.CycleReportsExactly | pkg/scim/bulk_execute.go:64-131 | In a run the budget does not cut short, the cycle failure goes to exactly the operations that lead into a cycle and have no undeclared or failed dependency |
| BulkTheorems.AcyclicRequestsNeverReportCycles | pkg/scim/bulk_execute.go:121-130 | A request without cycles never produces the cycle failure |
| BulkTheorems.BudgetIsRespected | pkg/scim/bulk_execute.go:96-119 | With failOnErrors = k > 0 fewer than k failures are counted before every event, and a run is cut short only by its k-th counted failure; cycle failures are not counted |
| BulkBudget.NothingRunsAfterTheLastFailure | pkg/scim/bulk_execute.go:66-119 | With failOnErrors = k > 0 nothing is attempted, blocked or refused once k operations have failed in any way, cycles included |
| BulkBudget.CycleReportsExceedTheBudget | pkg/scim/bulk_execute.go:121-130 | But a response may report more than k failures: two operations that refer to each other, in a request that decoding accepts, are both reported with k = 1, whatever the store |
| BulkBudget.BudgetBoundsTheResponse | pkg/scim/bulk_execute.go:66-131 | A complete response reports at most k failures if and only if the budget cut the run short, or the counted failures and the operations that lead into a cycle and have no undeclared or failed dependency are at most k together |
| BulkForecast.RunsWithoutFailures | pkg/scim/bulk_execute.go:66-131 | Whatever the store does, a complete run without counted failures reports exactly as many failures as operations lead into a cycle and have no undeclared dependency |
| BulkForecast.HopelessRequestsAreCutShort | pkg/scim/bulk_execute.go:70-84 | Whatever the store does, a request with at least k operations whose dependency chains end in an undeclared bulkId is cut short, with k failures reported |
| BulkForecast.ObligingStoresShowTheRequest | pkg/scim/bulk_execute.go:66-131 | With a store that accepts every call the request alone decides: its response stays within k failures if and only if k operations are hopeless in that way, or the hopeless ones and those that lead into a cycle are at most k together |
| BulkTheorems.BackwardReferencesSettleInOrder | pkg/scim/bulk_execute.go:66-108 | When every declared reference points to an earlier entry the t-th event settles the t-th operation: one pass in request order |
| BulkTheorems.BackwardReferencesNeverWait | pkg/scim/bulk_execute.go:85-87 | Once everything before an operation is settled, and no cycle was reported, it does not wait |
| BulkTheorems.BackwardRequestsTakeOnePass | pkg/scim/bulk_execute.go:64-131 | So such a request never waits at any event and never meets the cycle branch, and its run is complete exactly when every operation is settled or the budget is used up |
| BulkTheorems.EntryIsFinal | pkg/scim/bulk_execute.go:106-106 | An entry of the response is written once, by the event that settles its operation |
| BulkTheorems.ReportedInOrder | pkg/scim/bulk_execute.go:109-118 | The positions a response reports are exactly the settled ones, increasing |
| BulkTheorems.ResponseKeepsOrder | pkg/scim/bulk_execute.go:109-118 | The response lists the entries of exactly the settled operations in request order |
| BulkTheorems.RunIsUnique | pkg/scim/bulk_execute.go:52-132 | A request and a store determine the complete run, and with it the response |
| Order.SortSorts | pkg/scim/search.go:241-252 | Sorting distinct elements by a strict total order puts them in increasing order |
| Order.SortIgnoresInputOrder | pkg/scim/reconcile.go:97-102 | The sorted result does not depend on the order of the input |
| Order.ConverseSortsBackwards | pkg/scim/search.go:247-250 | Sorting by the converse order gives the reverse of the result |
| FilterLaws.CompareTextMeans | pkg/scim/filter_expression.go:604-604 | Texts are compared as in a dictionary: a proper prefix, or the smaller character at the first difference, comes first |
| TextLaws.ValidTextsAre | pkg/scim/resource.go:907-909 | A text is valid when its UTF-8 encoding is short enough and it holds no control character |
| TextLaws.ValidNamesAre | pkg/scim/resource.go:333-346 | A name has at most 128 letters, digits, hyphens and underscores and begins with a letter |
| TextLaws.ValidAttributeNamesAre | pkg/scim/resource.go:348-359 | An attribute name is a name, or two joined by a dot |
| Etag.ParseEntityTags | pkg/scim/etag.go:31-79 | The position-advancing scanner returns the tags of the header, or refuses it, as the list grammar says |
| Etag.TagListRoundTrip | pkg/scim/etag.go:31-79 | Parsing a written list of tags gives the same tags, in order, strength included |
| Etag.AcceptedHeadersSpellTheirTags | pkg/scim/etag.go:31-79 | A header is accepted as a list if and only if it spells at least one tag, with separators before each and blanks and then a comma or the end behind it, and the tags it spells are the ones returned |
| Etag.SpelledTagsAreWellFormed | pkg/scim/etag.go:49-66 | The tags of an accepted header consist of tag characters |
| Etag.TrimMeans | pkg/scim/etag.go:32-32 | What is read of a header is what stands between its leading and trailing blanks |
| Etag.VersionsAreStrongTags | pkg/scim/etag.go:134-140 | A version counts exactly as one strong tag |
| Etag.ConditionsCompareTags | pkg/scim/etag.go:83-132 | For every header that lists tags and every version that is one strong tag: If-Match admits exactly when some strong tag is the current one; If-None-Match refuses exactly when some tag, weak or strong, is |
| Etag.StarMatchesAnything | pkg/scim/etag.go:31-35 | A header is read as the asterisk exactly when that is all it is; then If-Match admits whatever exists and nothing else, and If-None-Match the opposite |
| Records.VersionTellsChange | pkg/scim/record.go:53-65 | Under an injective version function one write changes a record if and only if it changes its version |
| Records.ChangeIsVersionChange | pkg/scim/record.go:25-51 | A replacement reports a change exactly when the version changes; then last modification strictly grows, and identity, creation time and manager stay |
| RecordLaws.NewRecordsAre | pkg/scim/record.go:9-23 | A new record holds what it was made of, with one time and the version of exactly this content, and is refused only when no valid record does |
| RecordLaws.ReplacementsAre | pkg/scim/record.go:25-51 | A replacement with the same data, external ID and credential is the record itself; any other keeps coordinates, creation time and manager, takes the new content and moves the time on |
| RecordLaws.ValidRecordsAre | pkg/scim/store.go:102-147 | A record is valid exactly with coordinates within their limits, times in order, bounded data that decodes, an external ID and indexes as they stand in the data, and the one strong tag that is the version of this content |
| Memory.MemoryTransaction.List | pkg/scim/memory.go:77-96 | Fails when more records are selected than the limit allows, and otherwise returns exactly the selected ones, ordered by ID |
| Memory.MemoryTransaction.HasIndexConflict | pkg/scim/memory.go:157-180 | The nested loops find a conflict exactly when some neighbour disagrees on an index contract or holds the same unique value |
| Memory.MemoryTransaction.Create | pkg/scim/memory.go:113-133 | Adds the record or reports the first reason against it: validity, identity, tombstones, indexes; nothing else changes |
| Memory.MemoryTransaction.Replace | pkg/scim/memory.go:135-155 | Replaces a record against its expected version, keeping creation time and manager, or reports the first reason against it |
| Memory.MemoryTransaction.Delete | pkg/scim/memory.go:182-200 | Moves a record to its matching tombstone against its expected version, or reports the first reason against it |
| Memory.MemoryTransaction.Tombstones | pkg/scim/memory.go:202-214 | Returns exactly the tombstones of the scope and type, once each and ordered by ID, or refuses an empty scope or an invalid type |
| Memory.MemoryStore.Transact | pkg/scim/memory.go:35-54 | All calls of a callback take effect or none: an error or a cancellation before or after leaves the state as it was |
| StoreSafety.KeysAreInjective | pkg/scim/memory.go:67-67 | Records of different types or IDs never share a key |
| StoreSafety.LookupsFindTheRecord | pkg/scim/memory.go:69-75 | In every sound state a lookup returns x if and only if x is a live record with this scope, type and ID, and reports that there is none exactly when no live record has them |
| StoreLaws.CreateOutcomes | pkg/scim/memory.go:113-133 | From a sound state: a create fails for an invalid record, then for a live ID, then for an ID or an external ID in its scope and type that a tombstone has, then for an index that does not agree with a neighbour's, and else adds exactly the record |
| StoreLaws.ReplaceOutcomes | pkg/scim/memory.go:135-155 | And a replacement for an invalid record, a missing one, another version, another creation time or manager, or an index, and else it takes the record's place |
| StoreLaws.DeleteOutcomes | pkg/scim/memory.go:182-200 | And a delete for a missing record, another version or a tombstone that is not the record's in every field, and else that tombstone stands in its place |
| StoreLaws.SelectsExactly | pkg/scim/memory.go:77-111 | A listing selects exactly the records of scope and type with the external ID, or whose first index of the name has the value, with or without case as it says |
| StoreLaws.QueriesAreValid | pkg/scim/memory.go:77-80 | A listing needs a scope, a type name, an attribute name if it names one, and a positive limit |
| StoreSafety.RunsAreSound | pkg/scim/memory.go:113-200 | Every run of store calls, accepted or rejected, keeps: valid records under their own keys, unique IDs over all scopes and types, live and tombstoned IDs disjoint, unique indexes; and tombstones never change |
| StoreSafety.IdsAreNeverReassigned | pkg/scim/memory.go:118-127 | An ID once used is never given to another resource, live or deleted |
| StoreLaws.TombstonesReserve | pkg/scim/memory.go:123-127 | Whatever happens later, no create is accepted with the ID of a tombstone, or with its scope, type and external ID |
| StoreLaws.DeletedExternalIdsStayReserved | pkg/scim/memory.go:123-127 | So once a record with an external ID is deleted, no later create with its scope, type and external ID is accepted |
| StoreLaws.ReplacementsIgnoreTombstones | pkg/scim/memory.go:135-155 | But the outcome of a replacement does not depend on the tombstones |
| StoreSafety.DeleteNeverMeetsTombstone | pkg/scim/memory.go:194-196 | In every reachable state the branch of Delete that finds an existing tombstone is not taken |
| StoreSafety.IndexesStayUnique | pkg/scim/memory.go:157-180 | In every reachable state two records of one scope and type agree on the contract of equally named indexes and share no unique value |
| StoreSafety.IndexesAreInData | pkg/scim/store.go:127-146 | In every reachable state the value of every index of a record is the one at its path in the stored data |
| StoreSafety.HistoryIsItsCommits | pkg/scim/memory.go:35-54 | Failed and cancelled transactions leave no trace: a history ends where its committed callbacks alone would |
| StoreSafety.ServeHistory | pkg/scim/memory.go:35-54 | A store that serves any history of transactions ends sound, in the state made by the committed ones in order |
| ExternalIds.CreateKeepsExternalIds | pkg/scim/memory.go:113-133 | An accepted create keeps external IDs unique among live neighbours if and only if the new record has none or no live neighbour has the same |
| ExternalIds.ReplaceKeepsExternalIds | pkg/scim/memory.go:135-155 | And so does an accepted replacement, leaving out the record it replaces |
| ExternalIds.ExternalIdsAreNotUnique | pkg/scim/memory.go:113-133 | Two creates with one scope, type and external ID and different IDs are both accepted |
| ExternalIds.DuplicatesAreSeen | pkg/scim/reconcile.go:111-125 | The survey of a reconciliation meets a duplicate exactly when two live records in its reach share an external ID |
| ExternalIds.DuplicatesStopReconciliation | pkg/scim/reconcile.go:119-122 | And then there is no result, whatever is desired |
| Buffers.BufferStore.Put | pkg/scim/memory.go:131-131 | The store keeps a copy of the buffers it is given |
| Buffers.BufferStore.Get | pkg/scim/memory.go:69-75 | What is handed out lives in fresh buffers with the stored contents |
| Buffers.BufferStore.Clone | pkg/scim/memory.go:56-65 | A transaction works on a copy that shares no buffer with the original |
| Buffers.Serve | pkg/scim/store.go:149-153 | Any history of saving, loading and overwriting buffers passed in or handed out has the outcome it would have on plain values: buffer writes never reach the store |
| Buffers.Transact | pkg/scim/memory.go:35-54 | With buffers too a failed transaction leaves the store as it was and a committed one installs its copy, and the client's buffers stay its own |
| Reconciler.MakePlan | pkg/scim/reconcile.go:74-102 | The admission loop accepts exactly the plannable requests and sorts the normalized resources into the canonical plan |
| ReconcileLaws.PlansExactly | pkg/scim/reconcile.go:74-102 | There is a plan exactly for at most 10,000 resources of registered types with external IDs that are accepted with them, no two of one type and external ID, and it holds for each what acceptance made of it |
| ReconcileRun.Look | pkg/scim/reconcile.go:111-140 | The survey loop fills the live, managed and tombstoned maps exactly, and fails on duplicate external identities or an unlistable type |
| ReconcileRun.Apply | pkg/scim/reconcile.go:141-179 | One desired resource is created, replaced or left alone in the store as its meaning on the state says |
| ReconcileRun.DeleteAll | pkg/scim/reconcile.go:180-188 | Deleting what is left of the managed map buries exactly those records, in any order of the map |
| ReconcileRun.Callback | pkg/scim/reconcile.go:110-190 | The whole transaction body computes the reconciliation result on the state, or fails exactly when that is undefined |
| ReconcileRun.Reconcile | pkg/scim/reconcile.go:64-195 | Succeeds exactly when the request, the plan and the result exist; on failure nothing changes; the store stays sound |
| ReconcilePlan.PlanIsCarriedOut | pkg/scim/reconcile.go:141-179 | Carrying out a plan places every desired resource: in the record that had its external identity, or in a new one under a free key |
| ReconcilePlan.BuriedIsSound | pkg/scim/reconcile.go:180-188 | Burying any set of live records keeps the store invariant and continues the state before |
| ReconcileTheorems.ReconcileDelivers | pkg/scim/reconcile.go:110-194 | Full post-state: the owned live records are exactly the desired set with its canonical data (plus unlisted ones when deletion is off), survivors keep identity, creation time and manager, everyone else's records are unchanged, the deleted ones left their tombstones, and the counters add up |
| ReconcileLaws.ReconciledAreAccounted | pkg/scim/reconcile.go:141-179 | After a reconciliation every record is the one from before, or was made for a desired resource: with its data and indexes, created now, or replacing the one that had its external ID, whose creation time and credential it keeps, and modified now or just after |
| ReconcileFailures.ReconcileFailsExactlyWhen | pkg/scim/reconcile.go:103-190 | A reconciliation has no result if and only if the clock is unset, a type has too many records, two live records in its reach share an external ID, or some desired resource cannot be delivered in its turn: it is tombstoned, another manager has it, there is no free ID, it makes no valid record, or an index conflicts; versions and final deletions are never a cause |
| ReconcileFailures.ListableMeans | pkg/scim/reconcile.go:114-118 | The types can be listed when each has at most 10,000 live records in the scope |
| ReconcileFailures.DuplicatesMean | pkg/scim/reconcile.go:119-122 | A duplicate is two live records in the scope with one desired type and the same external ID |
| ReconcileFailures.ReplaceRefused | pkg/scim/reconcile.go:160-179 | A replacement of the current record is refused by the store only for its indexes, never for its version, creation time or manager |
| ReconcileFailures.CreateRefused | pkg/scim/reconcile.go:147-159 | A new record is refused by the store only because its ID is in use, live or deleted, or an index conflicts |
| ReconcileFailures.PlansAreClean | pkg/scim/reconcile.go:80-96 | Every plan made from a request meets what this asks of it when the registered types have valid names |
| ReconcileStability.RepeatingChangesNothing | pkg/scim/reconcile.go:165-173 | Repeating a successful request leaves the store untouched and reports every resource unchanged, as long as the types can still be listed |
| ReconcileStability.RequestOrderDoesNotMatter | pkg/scim/reconcile.go:97-102 | Permuting the desired list gives the same plan, so the same final store, generated IDs included |
| ReconcileStability.PlansAreUsable | pkg/scim/reconcile.go:74-102 | Every plan made from a request is sorted, free of duplicates and for registered types |
| ServerWrites.Server.Create | pkg/scim/server.go:352-386 | Stores the new record in one transaction, or fails and changes nothing |
| ServerWrites.Server.Write | pkg/scim/server.go:402-452 | PUT and PATCH read, check preconditions, edit and replace inside one transaction; a refused write changes nothing |
| ServerWrites.Server.Remove | pkg/scim/server.go:538-554 | DELETE checks preconditions and buries the record inside one transaction |
| Concurrency.IfMatchGuardsWrites | pkg/scim/server.go:556-596 | For all headers that list tags, a conditional write passes exactly when the current version is one of the If-Match tags, compared strongly, or weakly with weak entity tags, and none of the If-None-Match ones |
| Concurrency.StarGuardsWrites | pkg/scim/server.go:556-596 | For every live record If-Match with an asterisk passes and If-None-Match with one refuses, with weak entity tags too |
| Concurrency.PreconditionOutcomes | pkg/scim/server.go:556-596 | For all headers: a write or removal is refused for a malformed If-Match, then for one without the version, then for a malformed If-None-Match, then for one with it, and else passes |
| Concurrency.UnreadableVersionsFail | pkg/scim/server.go:574-596 | With weak tags a stored version that is no strong tag is the store's error, unless the header is malformed |
| Concurrency.WritesAreGuarded | pkg/scim/server.go:402-452 | A PUT or PATCH commits only against a version its preconditions admit, touches only its record, and leaves one that follows the one it saw |
| Concurrency.NoLostUpdate | pkg/scim/server.go:474-527 | After a write has changed a record, a second write conditional on the earlier version is refused |
| Concurrency.RemovesAreGuarded | pkg/scim/server.go:538-554 | A DELETE succeeds if and only if the record exists in scope and its preconditions hold; it never fails inside the store |
| Concurrency.StepFollows | pkg/scim/server.go:352-554 | Create, write, delete and reconcile each keep the store sound and change a surviving record only forward |
| Concurrency.RecordsAge | pkg/scim/record.go:25-51 | Over any history of server operations identity, creation time and manager of a record are constant and its last modification strictly increases at each change |
| FilterSyntax.FilterParser.Take | pkg/scim/filter_expression.go:199-205 | Advances by one token and never past the end token |
| FilterSyntax.FilterParser.Or | pkg/scim/filter_expression.go:211-225 | The loop reads a left-associated chain of conjunctions at its depth |
| FilterSyntax.FilterParser.And | pkg/scim/filter_expression.go:227-241 | The loop reads a left-associated chain of unary filters at its depth |
| FilterSyntax.FilterParser.Unary | pkg/scim/filter_expression.go:243-267 | Reads a negation, a group or an attribute within the depth limit |
| FilterSyntax.FilterParser.Attribute | pkg/scim/filter_expression.go:269-297 | Reads a value path, a presence test or a comparison within the depth limit |
| FilterSyntax.Parse | pkg/scim/filter_expression.go:97-105 | A whole filter is one expression followed by the end of the tokens, within depth 32 |
| FilterGrammar.ParseOrIsSound | pkg/scim/filter_expression.go:211-297 | What the parser returns spells the tokens it consumed, is well formed, and every attribute is within the exact depth budget |
| FilterGrammar.ParserAcceptsExactlyTheGrammar | pkg/scim/filter_expression.go:211-297 | The parser returns a tree if and only if the tokens are its sentence: not over and over or, left associative, 3 levels plus 3 for each group or negation and 4 for each bracket around every attribute |
| FilterGrammar.GrammarIsUnambiguous | pkg/scim/filter_expression.go:211-297 | Tokens determine the tree |
| FilterGrammar.FilterRoundTrip | pkg/scim/filter_expression.go:211-297 | Parsing a printed filter gives it back if and only if it fits the depth budget, and otherwise fails |
| Schema.ResolveParts | pkg/scim/filter_expression.go:391-411 | A dotted name resolves if and only if it has at most two parts and some attribute of the scope goes by the first and has a sub-attribute of the second; the result is that attribute or sub-attribute under its canonical spelling |
| FilterMeaning.LookupValues | pkg/scim/filter_expression.go:485-523 | The nested loops collect the values at a path, in order |
| FilterMeaning.LookupFindsExactly | pkg/scim/filter_expression.go:485-523 | The collected values are exactly those the path reaches through objects and arrays of objects |
| FilterMeaning.OrderFollowsKeys | pkg/scim/filter_expression.go:592-647 | Two values compare if and only if both have a key of the attribute's type, and then as their keys do |
| FilterMeaning.KeysAreOrdered | pkg/scim/filter_expression.go:592-647 | The keys of one attribute are strictly and totally ordered |
| FilterMeaning.TextSearch | pkg/scim/filter_expression.go:552-569 | Contains, starts-with and ends-with hold exactly when the text splits around the part accordingly |
| FilterMeaning.CompareValueMeans | pkg/scim/filter_expression.go:540-590 | The comparison by cases is the meaning of its operator, and only an unsupported operator is an error |
| FilterLaws.ComparisonMeets | pkg/scim/filter_expression.go:540-647 | Under each of the nine operators two values compare as the operator says of the texts as they are for a case-sensitive attribute and of the folded texts otherwise, of the instants, the numbers or the flags |
| FilterLaws.FoldingIsInvisible | pkg/scim/filter_expression.go:558-604 | Where case does not matter, texts that fold the same are interchangeable, stored or in the filter, under every operator and in sorting |
| FilterLaws.EqualityOfTexts | pkg/scim/filter_expression.go:592-604 | An equality on a text attribute holds exactly when some text at its path is the literal, or folds to what the literal folds to |
| FilterMeaning.AcceptedFiltersAreWellTyped | pkg/scim/filter_expression.go:299-359 | A filter that was parsed and validated has only supported operators and literals its attributes can be compared with |
| FilterLaws.ValidationAcceptsExactly | pkg/scim/filter_expression.go:299-359 | A filter is accepted exactly when every name is known where it stands, every literal fits its attribute and operator, and brackets stand behind multi-valued complex attributes |
| FilterLaws.FiltersMeanWhatTheySay | pkg/scim/filter_expression.go:299-480 | An accepted filter is evaluated to what the filter itself says of the document, connective by connective and name by name |
| FilterMeaning.TypedComparisonsPartition | pkg/scim/filter_expression.go:331-359 | For a validated literal the orderings behave as on a totally ordered set: eq and ne, lt and ge, gt and le are complementary on values of the attribute's type |
| FilterMeaning.Match | pkg/scim/filter_expression.go:434-483 | The short-circuit evaluator never errs on a validated filter, and every result it gives is the denotation of the filter on the document |
| FilterMeaning.MatchElement | pkg/scim/filter_expression.go:454-464 | A value path holds if and only if some one element at the path satisfies its child |
| FilterMeaning.BracketOfOneComparisonIsDotted | pkg/scim/filter_expression.go:454-481 | A bracketed comparison says the same as the dotted one |
| FilterMeaning.BracketsAskForOneElement | pkg/scim/filter_expression.go:454-464 | For any bracketed formula of comparisons, presence tests, and and or: it implies the dotted formula, and equivalently so without and |
| FilterMeaning.DottedConditionsMayMeetInDifferentElements | pkg/scim/filter_expression.go:454-481 | The converse fails on a concrete document |
| SearchCount.TextOrderIsNumeric | pkg/scim/search.go:136-140 | Digit strings of one length compare as text exactly as their numbers compare |
| SearchCount.ParseCount | pkg/scim/search.go:111-146 | For text of any length the result is the number it denotes clamped to [0, maximum], and malformed text is refused |
| Search.ComparatorIsStrictTotal | pkg/scim/search.go:242-285 | For distinct IDs the comparator is a strict total order if and only if no three documents cross: two with comparable values in one order, and one with an incomparable value whose ID lies between theirs in the other order |
| MixedSearch.IncomparableValuesMakeCycles | pkg/scim/search.go:280-283 | Two Users and a custom resource, prepared by their own definitions, created in one store and rendered, precede each other in a circle when sorted by the attribute as a search over both types resolves it |
| MixedSearch.WidgetIsAccepted | pkg/scim/resource.go:398-457 | A custom resource whose Boolean attribute is called as a User's text attribute is accepted by its definition |
| MixedSearch.MergedNameIsTheUsers | pkg/scim/search.go:576-597 | In a search over both types the name resolves to the User's attribute |
| Search.CrossedIsACycle | pkg/scim/search.go:242-285 | Crossing documents follow each other in a circle |
| Search.Selection | pkg/scim/search.go:287-312 | Sorting looks at the first primary object, or else at the first object |
| SearchLaws.SortValuesCount | pkg/scim/search.go:287-312 | For a dotted path into an array the sort value is that of the first element marked primary, or else of the first object, and otherwise that at the path |
| SearchLaws.PrecedesMeans | pkg/scim/search.go:242-285 | One document comes before another by value, missing values last and ties by ID, and the other way round in a descending search |
| SearchLaws.AnswersShow | pkg/scim/search.go:553-574 | An answer counts all matches and shows exactly the page of their ranking that was asked for, each document projected |
| Search.KeepMatches | pkg/scim/search.go:230-240 | The filter moves exactly the matches, in order, to the front of the slice it shares with the candidates |
| Search.ApplySearch | pkg/scim/search.go:230-267 | The result is the requested page of the ranked matches, with the number of all matches as total |
| Search.ResultIgnoresCandidateOrder | pkg/scim/search.go:241-252 | Neither the ranking nor the total depends on the order of the candidates |
| Search.DescendingIsAscendingReversed | pkg/scim/search.go:247-250 | The descending ranking is the ascending one reversed, missing values included |
| Search.PagesConcatenateToAllMatches | pkg/scim/search.go:253-266 | Consecutive pages of one size concatenate to all matches, each once, in rank order |
| SearchScan.Candidates | pkg/scim/search.go:507-527 | The multi-type scan succeeds if and only if the candidates of all types number at most the maximum, and then returns exactly all of them, once each |
| SearchScan.Execute | pkg/scim/search.go:491-574 | A search answers from all candidates or fails: the answer is the projected page of the ranked matches of every rendered record |
| ReadableSearch.SearchStandard | pkg/scim/search.go:491-574 | A search over Users and Groups with the server's rendering is too large, or broken exactly because some record it covers cannot be read, or answered from all of them |
| ReadableSearch.SearchRendersExactly | pkg/scim/search.go:528-545 | It renders all it finds if and only if every record in its scope and types is readable |
| ReadableSearch.StableHistoriesNeverBreakSearches | pkg/scim/search.go:528-545 | After any history that stored only stable inputs no such search breaks |
| Projection.HiddenAttributesAreNotReturned | pkg/scim/search.go:316-356 | Whatever is asked for, attributes that are never returned, and those returned on request that were not requested, are absent from the response at every depth |
| Projection.PasswordIsNeverReturned | pkg/scim/search.go:420-444 | The password is never in a response, whatever the schema says |
| Projection.ExcludedIsGone | pkg/scim/search.go:346-354 | An excluded path is gone unless it names the identity of the resource, or lies on or below an always-returned path, or above one |
| Projection.WantedAttributesAreReturned | pkg/scim/search.go:334-345 | With included attributes the response carries all that is visible at each of them, and nothing that is not visible |
| Projection.DeleteAllKeepsElsewhere | pkg/scim/search.go:397-418 | Deleting paths leaves every other path as it was, but for objects that led nowhere |
| Projection.OtherAttributesAreReturned | pkg/scim/search.go:316-356 | Without included attributes the response holds every path of the resource as it is, unless the path meets one that its schema hides or an exclusion that takes effect |
| Projection.AlwaysAttributesAreReturned | pkg/scim/search.go:316-356 | What is always returned is in every response with all that is visible there, even when an exclusion names it or an object it lies in; and the response holds nothing that is not visible |
| ProjectionLaws.ReturnabilityIsSchema | pkg/scim/search.go:420-444 | The hidden, requested and always-returned paths are exactly those at which the schema, or an extension under its URI, has an attribute so returned, and the password |
| ProjectionLaws.HiddenLeavesNothingEmpty | pkg/scim/search.go:397-418 | What is hidden goes together with the objects that held nothing else |
| ProjectionLaws.SchemasHide | pkg/scim/search.go:316-356 | So what the schema never returns, or returns on request when no included path leads to it in any case of letters, is not in a response |
| ProjectionLaws.SchemasAlwaysReturn | pkg/scim/search.go:316-356 | What the schema always returns is there |
| ProjectionLaws.SchemasLetExclude | pkg/scim/search.go:346-354 | What is excluded is gone, unless it is the identity or something always returned lies above, at or below it |
| ProjectionLaws.SchemasReturnOthers | pkg/scim/search.go:346-356 | And everything apart from what is hidden or excluded is returned as it is |
| Json.JsonDecoder.Value | pkg/scim/json.go:45-109 | The recursive decoder consumes the tokens of one value within the depth and node bounds, sharing one counter |
| Json.Decode | pkg/scim/json.go:24-43 | A document is one object with nothing after it, within depth 64 and 10000 values |
| JsonLanguage.DecoderAcceptsExactly | pkg/scim/json.go:24-109 | A text is accepted if and only if its names are non-empty and distinct once lower-cased and it is within both bounds; the result is its meaning with known names respelled |
| JsonLanguage.AcceptedDocumentsAreClean | pkg/scim/json.go:60-91 | Accepted tokens are such a text, and the document has canonical names, no case-equivalent names in one object, and bounded depth |
| JsonLanguage.SameText | pkg/scim/json.go:45-109 | Tokens determine the text |
| JsonLanguage.DocumentRoundTrip | pkg/scim/json.go:111-125 | Writing a document in any key order and decoding it gives it back if and only if it is clean and within the bounds |
| JsonLanguage.EveryValueCanBeWritten | pkg/scim/json.go:111-117 | Every value has a text |
| NormalFormFacts.StripStrips | pkg/scim/mutability.go:72-97 | Stripping leaves no read-only attribute at any depth |
| NormalFormFacts.TidyIsTidy | pkg/scim/resource.go:459-498 | Removing unassigned values twice is removing them once |
| NormalFormFacts.BalanceIsBalanced | pkg/scim/resource.go:604-630 | Demoting all but the last primary value twice is doing it once |
| NormalFormFacts.BalanceStaysTidy | pkg/scim/resource.go:604-630 | Demotion creates nothing unassigned |
| NormalLaws.StripPurges | pkg/scim/mutability.go:72-97 | Stripping takes away exactly the read-only attributes, at every depth, and leaves all else as it was |
| NormalLaws.TidyTidies | pkg/scim/resource.go:459-498 | Removal takes away exactly null, empty texts and arrays of nothing else, below objects and the objects in arrays |
| NormalLaws.BalanceSettles | pkg/scim/resource.go:604-630 | In every array the last element marked primary keeps its mark, the others lose theirs, and nothing else changes |
| NormalLaws.NormalizedMeans | pkg/scim/resource.go:398-414 | Normalization is these three steps in turn, on the document without its ID, metadata and groups |
| NormalFormSteps.RemoveUnassigned | pkg/scim/resource.go:459-498 | The in-place loop over the keys, in any order, computes the tidied object |
| NormalFormSteps.NormalizePrimaryValues | pkg/scim/resource.go:604-630 | The in-place loops compute the balanced object |
| NormalFormSteps.ValidateSchemaSet | pkg/scim/resource.go:632-697 | The loop that respells entries and extension keys in place computes the settled document or refuses it |
| SchemaLaws.SchemaSetAccepts | pkg/scim/resource.go:632-697 | For any definition, accepted schemas are non-empty texts that differ once lower-cased, each naming the resource's schema or an extension, its own and every required one among them, and each is respelled |
| SchemaLaws.ExtensionsAreClaimed | pkg/scim/resource.go:662-686 | The object of an extension moves to the extension's URI, as its validation leaves it, and nothing else changes; without an acceptable one the document is refused |
| NormalFormSteps.PrepareCopy | pkg/scim/resource.go:406-456 | The steps on the private copy compute the prepared resource |
| SchemaLaws.AcceptsExactly | pkg/scim/resource.go:398-457 | A document is accepted exactly when it has no password, its schemas and resource checks are settled, and the result meets every attribute at every depth and in every extension, with readable index attributes and external ID; then that result is stored, with the indexes and external ID that stand in it |
| SchemaLaws.ValidIsMeeting | pkg/scim/resource.go:500-602 | Meeting the attributes: required ones are there, multi-valued ones are arrays and singular ones not, complex values are objects with declared names that meet theirs, and every other value suits its type |
| SchemaLaws.IndexesAre | pkg/scim/resource.go:446-455 | There is one index for each filter attribute with a text, in their order, case-exact for the external ID and unique for the unique attribute |
| SchemaLaws.PathsRead | pkg/scim/resource.go:911-929 | An index path reads the text of an attribute, or of a sub-attribute behind a dot |
| NormalLaws.UsersAreChecked | pkg/scim/resource.go:699-747 | A User passes exactly with a trimmed name that can be prepared, which it then has, and with what a User may hold under every name |
| NormalLaws.GroupsAreChecked | pkg/scim/resource.go:749-777 | And a Group with a display name, members without theirs, and what a Group may hold |
| NormalLaws.EnterpriseIsChecked | pkg/scim/resource.go:779-801 | And an enterprise extension with texts under its names and a manager of texts, who loses the display name |
| StandardTables.UserTable | pkg/scim/resource.go:87-127 | Of a User only the name is required, exactly groups and displayed names are read-only, nothing is immutable, and the password alone is written and never read |
| StandardTables.PluralTable | pkg/scim/resource.go:98-119 | The multi-valued attributes of a User are the seven lists around texts, references or binary values, with their parts |
| StandardTables.OtherTable | pkg/scim/resource.go:116-126 | The parts of addresses can be written, and of groups none |
| StandardTables.GroupTable | pkg/scim/resource.go:129-139 | A Group's name is required; a member's value is required and cannot be edited, nor its type or reference, and its displayed name is read-only |
| StandardTables.EnterpriseTable | pkg/scim/resource.go:143-159 | Of an enterprise extension all is optional and only the manager's displayed name is read-only |
| NormalFormTheorems.NormalizedIsCalm | pkg/scim/resource.go:406-414 | After normalization nothing is left to strip, tidy or balance |
| NormalFormTheorems.CalmStays | pkg/scim/resource.go:406-414 | A document in which nothing is left is normalized to itself |
| NormalFormTheorems.LoopReads | pkg/scim/resource.go:642-695 | Reading the schemas respells every entry, validates every extension once, keeps what normalization established and changes nothing else |
| NormalFormTheorems.SchemasAgain | pkg/scim/resource.go:632-697 | A second pass over the schemas succeeds without change exactly when one entry named the base schema |
| ReadBack.PreparingTwice | pkg/scim/resource.go:398-457 | Preparing a prepared User or Group gives it back if and only if the original named the User schema once and its prepared user name is itself acceptable; otherwise it is refused; Groups need no condition |
| UnstableUsers.TwoSpellingsOfTheBase | pkg/scim/resource.go:646-658 | A concrete user with the base schema in two spellings is accepted once and then refused |
| UnstableUsers.NameOutgrowsItsLimit | pkg/scim/resource.go:710-718 | A user whose name outgrows 1024 bytes when it is prepared is accepted once and then refused |
| UnstableUsers.ManyQasOutgrowTheLimit | pkg/scim/resource.go:710-718 | Such a name is 341 times the letter U+0958: 1023 bytes, and 2046 when each is decomposed |
| StoredResources.StoredResourcesCanBeRead | pkg/scim/server.go:656-682 | A record stored from a prepared document is rendered if and only if the original document was stable |
| StoredResources.OnlyIndexedResourcesCanBeRead | pkg/scim/server.go:660-672 | Whatever the definition, a record stored from a document that prepares to itself is rendered if and only if the document has a value at some filter attribute |
| MixedSearch.UnindexedWidgetIsLost | pkg/scim/resource.go:446-456 | A custom resource whose definition indexes nothing is accepted and stored, and its record is never rendered |
| StoredResources.CreatedResourcesCanBeRead | pkg/scim/server.go:363-381 | So a created User or Group can be read back exactly when it was stable |
| StoredResources.ReplacedResourcesCanBeRead | pkg/scim/server.go:433-449 | And so can a changed one |
| Readability.StepReadable | pkg/scim/server.go:352-554 | From a store in which every User and Group record renders, one create, PUT, PATCH, DELETE or reconciliation leaves such a store if and only if every input it stored was stable |
| Readability.StoresStayReadable | pkg/scim/server.go:656-682 | Over any history of these operations, with documents prepared as the server prepares them, every User and Group record of every store passed through renders if and only if every stored input was stable |
| Mutability.EnforceAttributes | pkg/scim/mutability.go:33-70 | The loop over the attributes computes the enforced document or the mutability error |
| Mutability.PreviousMeans | pkg/scim/mutability.go:99-127 | An incoming element stands for the last stored object with its value, or without one for the object at its own position |
| Mutability.EnforceRespects | pkg/scim/mutability.go:33-127 | A replacement that passes keeps every read-only attribute as stored, restores immutable ones it leaves out and is otherwise what was asked for, also inside complex and multi-valued attributes |
| Mutability.OnlyEditsAreRefused | pkg/scim/mutability.go:45-48 | A replacement is refused if and only if it edits an immutable attribute at some depth |
| Patch.AddValue | pkg/scim/patch_apply.go:211-234 | The loop appends exactly the additions that are missing, or replaces a value that is not an array |
| PatchLaws.MergedIsGrown | pkg/scim/patch_apply.go:222-234 | The array grows by exactly the additions it lacked, each once and in their order |
| Patch.Matches | pkg/scim/patch_apply.go:259-272 | The positions found are exactly those of the matching elements |
| Patch.Compact | pkg/scim/patch_apply.go:279-292 | In-place compaction of the shared slice keeps exactly the elements that do not match, in order |
| Patch.ChangeMatches | pkg/scim/patch_apply.go:293-309 | Matching elements change where they stand, and the first refusal is reported |
| Patch.ApplyFiltered | pkg/scim/patch_apply.go:245-310 | A filtered operation computes its meaning on the target, errors included |
| PatchRun.WorkingCopy.Apply | pkg/scim/patch_apply.go:66-115 | One operation changes the working copy to its meaning or reports the refusal |
| PatchLaws.DirectLeaves | pkg/scim/patch_apply.go:175-209 | An operation at an attribute or sub-attribute is refused exactly when its target or the target's parent is missing or the parent is no object; else a remove leaves nothing there, a replace the value, an add the value or the array with what it lacked, and every path apart from it reads as before |
| PatchLaws.PathlessLeaves | pkg/scim/patch_apply.go:67-82 | Without a path every name of the value is so added or replaced and every other stays; a remove, or a value that is no object, is refused |
| PatchLaws.InstructionLeaves | pkg/scim/patch_apply.go:66-115 | The same for whole instructions, in an extension too, which an addition may begin and then lists among the schemas |
| PatchLaws.FilteredLeaves | pkg/scim/patch_apply.go:245-310 | A filtered operation, with every refusal: elements that do not match stay, each match is left as the operation says at its sub-attribute, and a remove without one leaves the others |
| PatchLaws.FilteredInstructionLeaves | pkg/scim/patch_apply.go:87-115 | A filtered instruction acts so on the document or on the object of its extension |
| PatchRun.WorkingCopy.ListSchema | pkg/scim/patch_apply.go:319-327 | A schema is appended to the schemas exactly when no entry folds to it |
| PatchRun.ApplyPatchDocument | pkg/scim/patch_apply.go:31-54 | The operations are applied in order, the first refusal refuses the request, and extensions are listed at the end |
| PatchRun.RepeatedAddChangesNothing | pkg/scim/patch_apply.go:66-115 | Repeating an addition without a filter changes nothing, for any value, path and document |
| PatchRun.UnselectedIsTheRest | pkg/scim/patch_apply.go:279-292 | What a filtered remove keeps is every element that does not match, as often as before, and no other |
| PatchRun.UnselectedKeepsOrder | pkg/scim/patch_apply.go:279-292 | And it keeps their order |
| PatchRun.FilteredTouchesOnlyMatches | pkg/scim/patch_apply.go:245-310 | A filtered operation changes nothing but the matching elements, each to its own result |
| PatchRun.RepeatedFilteredAdd | pkg/scim/patch_apply.go:293-309 | A repeated filtered addition changes nothing if and only if some element of the original target matches the filter and still does once changed; otherwise the second one finds no target |
| PatchRun.FilteredAddMayLoseItsTarget | pkg/scim/patch_apply.go:293-309 | A concrete addition after which nothing matches its own filter |
| PatchRun.PatchedExtensionsAreListed | pkg/scim/patch_apply.go:48-52 | Every extension a patched resource carries is among its schemas, and listed entries stay |
| Slices.AddToCell | pkg/scim/patch_apply.go:211-234 | An addition to an array computes its meaning and writes nowhere but in the room behind its slice |
| Slices.Turn | pkg/scim/patch_apply.go:293-309 | The change of one matching element computes its meaning and that of no other element changes, while no room is shared |
| Slices.ChangeElements | pkg/scim/patch_apply.go:293-309 | On elements whose slices share no room a filtered operation computes its meaning on values, refusals included, and leaves no shared room unless it gives an array with room to several elements |
| Slices.ChangedAtIsChangedAll | pkg/scim/patch_apply.go:259-309 | At the positions the filter selects that meaning is the filtered operation |
| Slices.ChangeInTurn | pkg/scim/patch_apply.go:31-54 | A request in which no operation gives an array with room to several elements computes its meaning, from freshly decoded elements to the end |
| Slices.UnsafeSharesRoom | pkg/scim/patch_apply.go:293-309 | Where room is shared, two slices of one buffer have room behind the shorter |
| Slices.SharedRoomIsLost | pkg/scim/patch_apply.go:222-233 | Any two such arrays are brought to differ from their values by at most one addition to each |
| Slices.SharedArrayIsOverwritten | pkg/scim/patch_apply.go:222-233 | Three values in a buffer for four, given to two elements: adding p to the first and q to the second leaves q in both |

## Left out

- HTTP routing, headers, bodies, discovery documents, URL building and server configuration: plumbing around the modelled calls.
- Lexing: entity-tag text is modelled character by character, but JSON and filters start at their tokens; byte sizes of request bodies and the 512-token bound belong to the lexers.
- Library internals: SHA-256, PRECIS, Unicode folding, time and number parsing, URL and base64 syntax are parameters. Sorting is modelled as a stable insertion sort.
- Passwords and credential writers; only the credential version of a record is modelled.
- Locks: transactions are modelled one after another, which is what the store's mutex makes of them.
- Nested documents as heap objects: the arrays inside the elements of an attribute are on the heap in `Slices`, buffers of records in `Buffers`, and the slice a filter compacts in `Patch`; other nested values are modelled as values, and no PATCH path writes into a map or array that two elements may share below their own fields.
- A custom definition's own validation callback, and the fixpoint for custom definitions, whose read-only attributes are stripped before extension keys are respelled.
- Resolution of attribute names at the root of a definition (schema prefixes, common attributes) is a parameter of validation; inside brackets it is modelled. A value path on an attribute without sub-attributes falls back to the root, as in the code, where a list of sub-attributes is nil exactly when it is empty.
- Descriptions, canonical values, reference types and uniqueness of attributes in the standard tables; the syntax of leaf values is one parameter. The order of the attributes in the User table differs from the source, where only the first error reported depends on it.
- Compilation of a search request: start and count arrive clamped to at least one and at least zero.
- The unfiltered listing, the older equality-only filter, registry construction and the finite store conformance check: single-branch or tabular code.
- BulkExecutor.CheckRequest: starts at a request that has been read; the size of the body, its JSON syntax, unknown members and the schemas entry are not part of it.
- Reconciler.MakePlan: keeps the external ID of the request, which preparation returns unless a custom definition declares it read-only or its callback changes it.
- Projection.ExcludedIsGone: says nothing of an excluded path above an always-returned attribute; `Projection.AlwaysAttributesAreReturned` says what is put back there.
- Slices.ChangeInTurn: has no step that adds or removes whole elements, which moves elements and writes into none of their arrays.
- PatchRun.WorkingCopy.Apply: after a refusal the working copy is unspecified; the request is refused and the copy is thrown away.
