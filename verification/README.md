# A model of aorm

aorm is a Go object-relational mapper. This project models the algorithms between its reflection layer and
the SQL driver, and proves what they guarantee: the callback scheduler, operation pipelines and
transactions, the compiler from condition lists to SQL text and arguments, the association operations on
join tables, soft deletion, and the codecs and fast forms around them. `dafny verify dfyconfig.toml` checks
the whole project.

Code that works step by step in the source is written as classes, methods and loops here; each method is
proved against a function on values, and the properties are proved about those functions.

| part | files |
|---|---|
| callback scheduler | `CallbackOrder`, `CallbackTermination`, `CallbackGuarantees`, `CallbackHistory`, `CallbackTwice`; the objects: `CallbackRegistry` |
| pipelines and transactions | `Pipeline`, `PipelineOutcome`, `Transactions`; the objects: `TransactionObjects` |
| SQL conditions | `SqlText`, `SqlBuild`, `SqlBinding`, `SqlParse`, `SqlClause`, `SqlNegation`, `SqlWhere`, `SqlLoose`, `SqlWhereBinding`, `SqlSubquery`, `SqlConditions`, `SqlJoins`, `SqlRows`; the objects: `SqlScope` |
| deletion | `SoftDelete` |
| associations | `JoinTables`; the objects: `Associations` |
| codecs and fast forms | `Base64`, `IdCodec`, `Partitions`, `Preload`, `StructTags`, `DBNames`, `Handles` |
| sequences | `Lists` |

## Main results

- The scheduler ends on every list without a cycle of `after` links through callbacks whose `before` names
  nobody, and with distinct names it ends on no other list (`SortEndsExactly`). Where every constraint
  points backwards or at an unconstrained callback, the order is a permutation that keeps every constraint,
  keeps bystanders in place and does not depend on how often the list was sorted (`SortGuarantees`). Built-in
  callbacks keep their order whatever is registered after them (`BuiltInsStayOrdered`).
- A save is atomic over all runs with nested pipelines, and only the scope that began the transaction can
  finish it (`SaveIsAtomic`, `OperationInside`); it is so exactly when the driver grants the BEGIN and scoped
  transactions are enabled (`AtomicExactly`), and a save that creates what it could not update is not
  (`PairAtomicExactly`). Whether a save fails and what it writes can be told from the work alone, with all
  nested operations in it: one that fails and is reported fails the save around it, any other does not stop it
  (`SaveOutcome`, `NestedDecides`). `DB.Transaction` is all or nothing unless it is nested in
  itself (`TransactionAllOrNothing`, `FailedTransactionKeepsNothing`).
- The WHERE of a statement that is sent, read with SQL precedence in three-valued logic and with every marker
  replaced by its argument, selects the rows the condition lists ask for: with numbered markers always
  (`NumberedSelects`), with positional ones exactly when the Or and the Not arguments commute
  (`PositionalExactly`). A scope that is rendered first and passed on as a subquery needs that condition with
  numbered markers too (`StagedExactly`); a query value does not (`TwoStages`). No OR, not even one inside a
  query passed as a condition, lets a soft-deleted row through (`SoftDeletedNeverPasses`).
- In terms of the columns of a row, the statement selects the rows that are not deleted and that either meet
  every Where and every Not or meet an Or, each form of a condition being what its values say
  (`StatementSelects`). A scoped delete marks exactly those rows and keeps everything else (`SoftDeletes`), any
  other delete removes exactly those rows (`HardDeletes`).
- Which conditions the Not list negates is decided by their form (`NegatedExactly`), and which queries may
  stand beside other conditions by their outer connectives (`StandsExactly`).
- Over any run of Append, Replace, Delete and Clear on any sources the join table stands for the sets the
  calls describe (`RunRefines`); what a Replace does to it when saves or statements fail is `ReplacedRelates`,
  and in terms of the arguments of the calls `EnteredRelates` and `RemovedRelates`.
- IDs of two or more fields survive their byte and text forms exactly when every part fits in 254 bytes
  (`BytesRoundTripExactly`, `StringRoundTripExactly`).
- The hash join of a preload is the nested loop for a key exactly when the key is not composite or has no `_`
  in a component (`HashJoinExactly`).
- A field name made of words, initialisms among them, becomes the words in lower case joined by underscores
  (`WordsJoined`); of any name it is said where an underscore stands (`UnderscoresExactly`).
- A handle never notices what is derived from it (`ProgramsNeverDisturb`); which sibling notices is decided
  exactly (`AppendDisturbsExactly`).

## Where the code departs from what one expects

Each of these is a lemma with a concrete input, or the failing side of an exact condition.

- `sortProcessors` does not end on `after` cycles of callbacks whose `before` dangles (`SortEndsExactly`,
  `DanglingPair`), and
  schedules a callback twice when it has two targets and its `after` target is placed before its turn, or is
  the other target (`RunsOnceExactly`, `ScheduledTwice`).
- `callCallbacks` stops at the first error or skip, so the rollback branch of `CommitOrRollback` is never
  reached by the built-in pipelines: the transaction stays open (`SaveIsAtomic`). A BEGIN that the driver
  refuses is ignored and the operation runs without a transaction (`AtomicExactly`, `UnbegunKeepsWrite`).
- `DB.Save` on a record with a key that is not in the table runs an update and then a create, each in a
  transaction of its own; when the create fails, what the update wrote besides stays (`PairAtomicExactly`).
- `DB.Transaction` inside `DB.Transaction` commits or rolls back the outer one
  (`FailedTransactionKeepsNothing`, `InnerCommitsOuterWrite`).
- Arguments go Where, Or, Not and text goes Where, Not, Or, in `whereSQL` and in `Conditions.WhereClause`
  (`PositionalExactly`, `ConditionsExactly`). `QueryExpr` and `SubQuery` keep the text and the vector of a scope
  and lose which marker belongs to which value, so with one Or and one Not value the two change places in the
  statement around them, whatever the marker style (`StagedExactly`, `StagedExchanges`).
- A query passed as a condition is printed without parentheses. That is right while it is the only condition
  of Where and Not (`ReferenceSays`); beside another one it is right exactly if the query has no OR outside
  parentheses (`StandsExactly`, `LooseQueryEscapes`).
- In the Not list IDs, queries, column names, empty key lists and maps or structs of several entries are not
  negated (`NegatedExactly`): `Not(id)` selects the record with that ID (`NotSelectsId`), and a row with one of
  two values of a map passes neither the map nor its Not (`NotMissesRow`).
- `Conditions.WhereClause` keeps conditions that print nothing, and beside another condition leaves a
  connective without an operand (`PrintsExactly`, `BlankDangles`); so does a HAVING clause that has a text and
  builds to nothing (`HavingExactly`).
- A slice of slices without cells has no replacement, and the next value takes its `?`
  (`NumberedMarkersBind`, `EmptyRowsShift`).
- `whereSQL` puts the ID condition in front of the Where list in place, which shifts the list of the handle
  the scope came from when there is spare capacity (`PrependDisturbsExactly`).
- `Replace` deletes the previous associations although saving or joining a new one failed
  (`ReplaceKeepsExactly`, `FailedReplaceStillRemoves`). With a column name used on both sides the rows of the
  join table do not carry both keys (`CarriesExactly`, `SharedColumnLosesSource`).
- A length byte of 255 makes `ParseIDBytes` stand still (`StuckAt255`); a single-field ID does not parse
  back from its bytes (`SingleFieldBytes`). Bytes of fewer values than the key has fields are accepted, and an
  integer of an odd width is read as zero (`OtherCount`, `OtherWidths`).
- `pgbid_get_utc_time` shifts in four-byte integers, so from 2038 on the partition key in the database is
  not the date the program computes partitions from (`SameSecondsExactly`).
- An empty component in a composite key loses its many-to-many links (`LinkedExactly`,
  `EmptyComponentLosesLinks`), and a composite key with `_` in a component shares its text with another key
  (`OwnTextExactly`, `TextsCollide`).
- The initialism "HTTPS" never takes effect, because "HTTP" comes before it in the list
  (`HttpsNeverFound`).
- PostgreSQL breaks the text of ids of 57 bytes and more, so `pgbid_to_text` is the Go text below that only
  (`TextForms`).

## Model

| member | source | states |
|---|---|---|
| CallbackOrder.Resolve | callback.go:150-157 | a name means its last registration, -1 exactly if there is none |
| CallbackOrder.SortDeterministic | callback.go:160-222 | two finished sorts of one list end in the same state |
| CallbackOrder.PlaceGrows | callback.go:174-211 | one call, with everything it recurses into, only inserts registered names, moves and drops none, places its own name, and changes processors only where an empty `before` was set |
| CallbackOrder.SortPlacesExactly | callback.go:160-222 | on every input that ends, a name is placed if and only if it is registered |
| CallbackOrder.HandlersExactly | callback.go:213-219 | a function is returned if and only if it is the last registration of a placed name and that is no removal |
| CallbackOrder.HandlersSame | callback.go:192-194 | the write to `cp.before` does not change what names resolve to |
| CallbackTermination.SortEnds | callback.go:174-211 | without a dangling `after` cycle the sort ends; measure: names to place, processors without `before`, rank in the `after` chain |
| CallbackTermination.PlaceEnds | callback.go:174-211 | the same for a call from any state of the run |
| CallbackTermination.AfterSmaller | callback.go:188-201 | the second recursive call shrinks that measure across the write to `cp.before` |
| CallbackTermination.TrapDiverges | callback.go:174-211 | a set of dangling names that only lead to each other has no depth at which the sort ends |
| CallbackTermination.SortEndsExactly | callback.go:160-211 | for distinct names the sort ends if and only if there is no dangling `after` cycle |
| CallbackTermination.DanglingPair | callback.go:188-201 | the smallest list on which it does not end |
| CallbackGuarantees.TurnsPermutation | callback.go:160-222 | in the simple form every registered name occurs once and no other occurs |
| CallbackGuarantees.TurnsRespectConstraints | callback.go:177-201 | in the simple form each `before` and `after` with a registered target holds |
| CallbackGuarantees.TurnsKeepBystanders | callback.go:204-206 | callbacks that neither carry nor are the target of a constraint keep registration order |
| CallbackGuarantees.PlaceIsTurn | callback.go:174-211 | one recursive call, on the list as earlier sorts left it, is one turn of the simple form and keeps the relation to the list as registered |
| CallbackGuarantees.SortIsTurns | callback.go:160-222 | the recursive sort of a well-ordered list, fresh or sorted before any number of times, gives the order of the simple form |
| CallbackGuarantees.SortGuarantees | callback.go:160-222 | on well-ordered lists: ends at depth 2, permutation, constraints kept, bystanders in order, sorting again gives the same |
| CallbackHistory.ReplaceInPlace | callback.go:113-136 | Replace takes effect in the place of the original, Remove leaves a gap there, all others stay |
| CallbackHistory.RegistrationsAgree | callback.go:96-110 | sorting after every registration ends in the same order as one sort of the whole list |
| CallbackHistory.LeadersKeepOrder | callback.go:160-222 | in one sort the first d distinct unconstrained callbacks keep their order, whatever stands behind them |
| CallbackHistory.PlaceSparesPlaced | callback.go:188-201 | a run never writes to a processor whose name is placed |
| CallbackHistory.LeadersStay | callback.go:96-110 | after any number of registrations, each followed by a sort, such leaders are as they were registered |
| CallbackHistory.RegistrationsKeepLeaders | callback.go:96-110 | so they keep their order in the list that is run, under any later registrations |
| CallbackHistory.BuiltInsStayOrdered | callback_create.go:14-29 | so the callback that begins the transaction runs before the one that commits it, whatever is registered after them |
| CallbackTwice.RunsOnceExactly | callback.go:177-201 | where names are distinct and registered targets are registered earlier or unconstrained, every callback is scheduled once if and only if none has both targets registered and its `after` target placed when its turn comes, or equal to its `before` target |
| CallbackTwice.ScheduledTwice | callback.go:177-201 | the three smallest orders of such a list: two schedule a callback twice, one does not |
| CallbackRegistry.CallbackProcessor.Before | callback.go:90-93 | sets `before`, nothing else |
| CallbackRegistry.CallbackProcessor.After | callback.go:83-86 | sets `after`, nothing else |
| CallbackRegistry.CallbackProcessor.Register | callback.go:96-110 | the builder joins the list with its name, for the first time or again (a row-query callback without order before the built-in one), and the lists of all kinds are sorted |
| CallbackRegistry.RowQueryRunsBefore | callback.go:98-103 | registered without order, a row-query callback runs before "aorm:row_query"; any other callback keeps the order it was given |
| CallbackRegistry.CallbackProcessor.Remove | callback.go:113-123 | joins the list as a removal, and the lists of all kinds are sorted |
| CallbackRegistry.CallbackProcessor.Replace | callback.go:127-136 | joins the list as a replacement, and the lists of all kinds are sorted |
| CallbackRegistry.Callback.Enter | callback.go:107-110 | one more entry, and every function list is that of the sorted processors of its kind |
| CallbackRegistry.Callback.Reorder | callback.go:224-248 | the named processors of each of the five kinds, and their functions, are those of the sort on values; the other kinds are left alone |
| CallbackRegistry.Callback.Split | callback.go:227-242 | the loop deals the named processors out to the five kinds in order |
| CallbackRegistry.TurnAgrees | callback.go:209-211 | a builder entered twice takes its turn as its last entry does |
| CallbackRegistry.EndsWithoutCycle | callback.go:160-222 | the sort of the objects is called where it ends |
| CallbackRegistry.GetRIndex | callback.go:150-157 | the loop from the back finds the last index, -1 exactly if the name is absent |
| CallbackRegistry.SortRun.SortCallbackProcessor | callback.go:174-211 | the closure on the shared list and the processor objects takes the step of the value model |
| CallbackRegistry.SortRun.PlaceByBefore | callback.go:177-186 | its first half |
| CallbackRegistry.SortRun.PlaceByAfter | callback.go:188-201 | its second half, with the write to the other object's `before` |
| CallbackRegistry.SortRun.Collect | callback.go:213-219 | the final loop returns the handlers of the placed names |
| CallbackRegistry.SortProcessors | callback.go:160-222 | the whole run on objects is the sort on values |
| Pipeline.ErrorsStick | scope.go:597-604 | a recorded error is never lost while callbacks run |
| Pipeline.FailedHandleQuiet | scope.go:410-423 | under a recorded error a quiet callback changes neither durable nor pending writes |
| Pipeline.FailedOperationWritesNothing | scope.go:597-604 | an operation on a handle in error leaves the database as it is |
| Pipeline.ActInside | scope.go:472-497 | one action inside a transaction its scope did not begin only appends to that transaction |
| Pipeline.CallbacksInside | scope.go:597-604 | so does a whole run |
| Pipeline.OperationInside | callback_save.go:51-174 | so does every operation with all association pipelines it nests: no commit, no rollback, nothing durable |
| Pipeline.CallbacksSplit | scope.go:597-604 | a list runs like its first part and, unless that stopped, the rest |
| Pipeline.SavePipelineRuns | callback_create.go:14-29 | the built-in order brings the work between begin and commit |
| Pipeline.SaveIsAtomic | scope.go:472-497 | the writes of the work and everything nested become durable together, exactly when no error was recorded, nothing skipped and the commit succeeded; after an error or a skip the transaction is left open |
| Pipeline.AtomicExactly | scope.go:472-482 | for every work and every answer of the driver an operation that fails has made nothing durable, if and only if the BEGIN was granted and scoped transactions are enabled |
| Pipeline.UnbegunKeepsWrite | scope.go:472-482 | otherwise one write and an error after it leave the write durable, on any database |
| Pipeline.SaveKeepsHalves | main.go:567-577 | a failing Save of a record with a key leaves nothing, or all of its update |
| Pipeline.PairAtomicExactly | main.go:567-577 | it leaves nothing, for every work and every answer, if and only if the UPDATE hits a row and is atomic itself |
| PipelineOutcome.ActOutcome | scope.go:410-423 | inside an open transaction, or on the pool without scoped transactions, one action adds the writes and records the error that can be told from the action alone |
| PipelineOutcome.RunOutcome | scope.go:597-604 | so does a whole run with everything nested in it, until a callback fails or skips the rest |
| PipelineOutcome.UntransactedOutcome | scope.go:472-482 | with scoped transactions disabled every write is durable, whether the operation fails or not |
| PipelineOutcome.SaveOutcome | scope.go:472-497 | with the BEGIN granted a save fails exactly if its work does, or reaches the COMMIT and that fails; all writes of the work and of what it nests become durable, or none |
| PipelineOutcome.SaveOrCreateOutcome | main.go:567-577 | a Save is the update and, if that succeeds and hits no row, the create, each with all of its writes or none |
| PipelineOutcome.FinishDecides | scope.go:485-497 | the scope that began the transaction rolls back under a recorded error, otherwise the COMMIT decides; the handle leaves the transaction |
| PipelineOutcome.NestedDecides | callback_save.go:51-174 | a nested operation that fails and is reported ends the save around it with nothing durable; any other leaves the scope as it was and the rest runs; the save fails if and only if one of the two does |
| Transactions.TransactionAllOrNothing | main.go:680-695 | without a Transaction inside, all writes sent are durable if the function returns nil, BEGIN and COMMIT succeed and commits are enabled, and none otherwise; nil is returned if and only if the function returns it, the handle had no error and the driver granted BEGIN and COMMIT (or the ROLLBACK in place of it); the transaction is finished in every case |
| Transactions.InnerDecidesOuter | main.go:650-695 | with Transactions inside, the first inner one to return decides whether everything sent until then is durable, which can be told from the calls alone; an error is returned whenever there is an inner one |
| Transactions.OpsSend | main.go:650-695 | the writes pending at that moment are those of the operations until then, an inner call starting on a handle in error |
| Transactions.FailedTransactionKeepsNothing | main.go:680-695 | a failing outer function keeps the writes sent before the first inner call returns, if that one commits, and nothing otherwise |
| Transactions.RefusedTransaction | main.go:650-695 | after a refused BEGIN nothing happens, whatever is nested |
| Transactions.InnerCommitsOuterWrite | main.go:680-695 | the smallest case that breaks it |
| Transactions.FinishedOps | main.go:650-675 | on a finished transaction nothing changes any more |
| TransactionObjects.Database.Commit | main.go:665-675 | pending writes become durable, or are lost if the driver fails |
| TransactionObjects.Database.Rollback | main.go:717-725 | pending writes are dropped |
| TransactionObjects.DB.Clone | main.go:939-954 | a new handle with the same connection, error and settings |
| TransactionObjects.DB.AddError | main.go:892-909 | an error, once added, stays |
| TransactionObjects.DB.Begin | main.go:650-662 | takes the step of the value model on a clone |
| TransactionObjects.DB.Commit | main.go:665-677 | commits, or rolls back where commits are disabled |
| TransactionObjects.DB.Rollback | main.go:717-725 | rolls back a transaction, an error without one |
| TransactionObjects.DB.Transaction | main.go:680-695 | the method with its deferred function is the value model's Transaction, for nested calls too |
| TransactionObjects.Scope.Begin | scope.go:472-482 | takes the step of the value model |
| TransactionObjects.Scope.CommitOrRollback | scope.go:485-497 | takes the step of the value model |
| TransactionObjects.Scope.CallCallbacks | scope.go:597-604 | the loop with its nested pipelines is the run of the value model |
| SqlBuild.BuildInEveryMode | scope_vars.go:8-39 | the renderings of a query with any marker style differ in the markers' names only; as many values join the vector as markers are written |
| SqlBinding.QueryLeaves | query.go:46-61 | the `?` left unbound are exactly the slices of slices without cells, at any depth |
| SqlBinding.QuerySays | query.go:29-92 | with markers replaced by values, the text is the query with its k-th `?` replaced by its k-th argument |
| SqlBinding.NumberedMarkersBind | scope_vars.go:22-36 | the markers are the next numbers without gaps, and read through any later vector the text says what the query says if and only if no slice of slices is without cells |
| SqlBinding.PositionalMarkersBind | query.go:80-91 | as many markers as values, and filling them in order gives what the query says under the same condition |
| SqlBinding.EmptyRowsShift | query.go:59-61 | the smallest such query: the next value slips into the place |
| SqlParse.EvalConjunction | scope_sqlbuild.go:116-116 | AND between balanced texts is the conjunction |
| SqlParse.EvalDisjunction | scope_sqlbuild.go:119-119 | OR between balanced texts is the disjunction |
| SqlParse.Parenthesised | scope_sqlbuild.go:128-128 | parentheses hide connectives and keep the meaning |
| SqlParse.TrueOfAll | scope_sqlbuild.go:115-116 | a list of conditions is true when all are, or when one is |
| SqlClause.ClauseSays | clause.go:15-132 | every form of a condition, positive or negated, prints nothing exactly when it is empty, and otherwise reads as what it means; only a query brings an OR to the outside |
| SqlClause.PhraseSays | clause.go:70-93 | the string forms: as written, NOT around a comparison, NOT IN for a column name |
| SqlClause.KeysClauseSays | clause.go:63-69 | the primary key lists, empty ones included |
| SqlClause.PairsSay | clause.go:94-127 | maps and structs, entry by entry in whatever order, nil included |
| SqlClause.KeysSay | id.go:109-131 | IDs |
| SqlNegation.NegatedExactly | clause.go:15-132 | where the database negates `=`, IN and IS NULL by `<>`, NOT IN and IS NOT NULL, a well-formed Not asks for the opposite of the Where, for every row, if and only if it is a number, a non-empty list of keys, a comparison, or a map or struct of one entry |
| SqlNegation.PairsExclude | clause.go:94-127 | a map or struct in the Not list wants every entry to fail |
| SqlNegation.AlonePasses | scope_sqlbuild.go:115-132 | a single Where or Not lets through what it asks for, an outer OR in it included |
| SqlNegation.NotSelectsId | clause.go:47-50 | `Not(id)` selects the record with that ID |
| SqlNegation.NotMissesRow | clause.go:94-127 | a row with one of two values passes neither the map nor its Not |
| SqlRows.KeysPass | clause.go:63-69 | where IN is read as a disjunction of equalities, a Where on keys passes the rows with one of them, a Not those known to have none of them |
| SqlRows.MeansPicks | clause.go:15-132 | each form of a condition, positive and negated, in terms of the columns of the row, NULL included |
| SqlRows.ValuesListed | query.go:36-58 | a slice of values is written as the values with commas between them |
| SqlClause.InlineJoin | scope_sqlbuild.go:115-116 | joining queries joins what they say |
| SqlWhere.ReferenceSays | scope_sqlbuild.go:58-134 | the assembled condition reads as: deleted-at and primary key, and (all Where and all Not, or any Or), with the empty-list cases as coded; a query with an outer OR may stand in Where or Not as the only condition that prints |
| SqlWhere.WhereMeans | scope_sqlbuild.go:58-134 | the same in terms of the single conditions being true |
| SqlWhere.CombineSays | scope_sqlbuild.go:115-123 | the And list binds tighter than the Or list behind it |
| SqlWhere.AssembleSays | scope_sqlbuild.go:125-132 | the primary conditions bind the rest in parentheses |
| SqlWhere.SoftDeletedNeverPasses | scope_sqlbuild.go:65-68 | no Or chain and no OR inside a condition lets a soft-deleted row through a scoped statement |
| SqlLoose.StandsExactly | clause.go:30-33 | beside every other condition, in front or behind, a query that some row passes is read as a condition of its own if and only if it has no OR outside parentheses |
| SqlLoose.OrTakesIn | scope_sqlbuild.go:115-116 | an OR of one text takes in what is joined to it by AND |
| SqlLoose.LooseQueryEscapes | clause.go:30-33 | the smallest such query lets a row pass that fails the other Where |
| SqlWhereBinding.FilledInTextOrder | scope_sqlbuild.go:91-132 | filled in the order Where, Not, Or the text is the reference |
| SqlWhereBinding.PositionalExactly | scope_sqlbuild.go:99-123 | the vector as it is built fits the positional text if and only if the Or and Not values commute |
| SqlWhereBinding.NumberedWhereBinds | scope_sqlbuild.go:91-132 | with numbered markers every value has exactly one marker and the text says what the lists say, whatever surrounds it in the vector |
| SqlWhereBinding.NumberedSelects | scope_sqlbuild.go:58-134 | text and vector as sent select the rows the lists ask for |
| SqlRows.StatementSelects | scope_sqlbuild.go:58-134 | in terms of the columns, text and vector as sent select the rows that are not deleted, have the record's primary key, and meet every Where and every Not or some Or, or some Or if only that list says anything |
| SqlRows.DatabaseStores | clause.go:15-132 | for all columns there is a reading of the predicates as assumed there |
| SqlWhereBinding.PositionalSelects | scope_sqlbuild.go:58-134 | so do positional ones under that condition |
| SqlSubquery.TwoStages | query.go:29-92 | rendering a query value with `skip_bindvar` and building the result is building it once, at every position and marker style, in parentheses too |
| SqlSubquery.StagedArguments | query.go:29-92 | so any of the queries nested in another, alone, in slices or in rows, may be rendered beforehand |
| SqlSubquery.SelectBinds | scope_sqlbuild.go:264-271 | a whole SELECT sent directly with numbered markers says what its parts say |
| SqlSubquery.SelectReads | scope_sqlbuild.go:125-134 | the word WHERE stands in it exactly if there is a condition |
| SqlSubquery.StagedSelect | main.go:236-250 | a rendered scope, built again, has the text of the scope with its markers renumbered, and its vector; in SubQuery's parentheses too |
| SqlSubquery.StagedExactly | main.go:236-250 | that text says what the scope says if and only if the Or and Not values commute, with numbered markers as with positional ones |
| SqlSubquery.SubQueryWithin | main.go:243-250 | SubQuery says the same in parentheses |
| SqlSubquery.StagedExchanges | main.go:236-250 | with one Or and one Not value the two change places |
| SqlConditions.ConditionsExactly | conditions.go:77-111 | arguments stand in the order of the text if and only if those of Or and Not commute |
| SqlConditions.PrintsExactly | conditions.go:77-111 | the query prints what `whereSQL` prints of the same lists if and only if in each list every condition prints something, or the only one does not |
| SqlConditions.ConditionsMean | conditions.go:77-111 | then the query, wherever it is built, means all of Where and Not or any of Or |
| SqlConditions.BlankDangles | conditions.go:82-107 | the smallest other case: an AND without a left operand |
| SqlJoins.HavingExactly | scope_sqlbuild.go:223-246 | each marker naming its own value, the HAVING is what the clauses print if and only if none with a text builds to nothing, or the only one does |
| SqlJoins.HavingMeans | scope_sqlbuild.go:223-246 | then it is their conjunction; without one that prints there is none |
| SqlJoins.JoinPrintsPhrase | scope_sqlbuild.go:248-262 | a textual join is printed as written, whatever its own parentheses |
| SqlScope.Scope.AddToVars | scope_vars.go:8-39 | text and vector are those of the value model |
| SqlScope.Scope.AddArg | query.go:31-78 | one argument's replacements, with nested loops for slices |
| SqlScope.Scope.Build | query.go:29-92 | the loop over the arguments and the one-pass substitution |
| SqlScope.Scope.Replace | query.go:80-89 | each `?` takes the next replacement, and replaced text is not read again |
| SqlScope.Scope.BuildCondition | clause.go:15-132 | the loops over entries and fields give the query of the value model |
| SqlScope.Scope.BuildConditions | scope_sqlbuild.go:91-113 | the loop drops conditions that build to nothing |
| SqlScope.Scope.WhereSQL | scope_sqlbuild.go:58-134 | text and vector are those of the value model |
| SqlScope.Conditions.WhereClause | conditions.go:77-111 | the three loops give the query of the value model |
| SqlScope.Conditions.Where | conditions.go:48-51 | appends to the Where list only |
| SqlScope.Conditions.Not | conditions.go:53-56 | appends to the Not list only |
| SqlScope.Conditions.Or | conditions.go:58-61 | appends to the Or list only |
| SoftDelete.SoftDeletes | callback_delete.go:44-69 | a scoped delete of a model with a deleted-at column, with a current user or without: every row stays, the selected ones get the time and the user, nothing else changes |
| SoftDelete.HardDeletes | callback_delete.go:70-78 | an unscoped delete, or one of a model without the column, removes exactly the selected rows, deleted ones too, and keeps the others in order |
| SoftDelete.SelectedColumns | callback_delete.go:36-85 | the rows selected, in terms of their columns |
| SoftDelete.DeleteCallback | callback_delete.go:36-85 | an UPDATE exactly if the statement is scoped and the model has the column; the loop over the columns, with SET values and condition in one vector |
| SoftDelete.DeletedStaysAsIs | callback_delete.go:44-69 | a scoped delete never selects a row that is deleted already |
| SoftDelete.SoftRunsConserve | callback_delete.go:44-69 | over any run of scoped deletes, with current users or without, no row is lost, only the time and the user are written, and the first deletion of a row is the one that counts |
| SoftDelete.RunStep | callback_delete.go:36-85 | a run is one delete after the other |
| JoinTables.RowOfProjects | jointable.go:78-94 | with distinct column names the condition map carries both keys and nothing else |
| JoinTables.CarriesExactly | jointable.go:78-94 | both keys can be read back from every row if and only if all columns have different names |
| JoinTables.SharedColumnLosesSource | jointable.go:78-94 | in the smallest case the destination key overwrites the source key |
| JoinTables.StatementInserts | jointable.go:109-132 | in every order of the map entries the statement inserts the same row under the same condition |
| JoinTables.InsertAddsKey | jointable.go:97-137 | Add is union with one key, touches no other source and stores nothing twice |
| JoinTables.InsertTwice | jointable.go:97-137 | Add is idempotent |
| JoinTables.AddAllIsUnion | association.go:313-393 | appending is union |
| JoinTables.ReplaceAllIsReplacement | association.go:47-140 | replacing leaves exactly the new keys |
| JoinTables.RemoveAllIsDifference | association.go:143-189 | deleting is difference |
| JoinTables.DeleteRelated | jointable.go:140-159 | a deletion restricted to one source removes the selected keys and leaves the other rows in their order |
| JoinTables.ApplyRefines | association.go:35-270 | each operation on the table is its set operation for its source and nothing for others |
| JoinTables.RunRefines | association.go:35-270 | over any run of operations on any sources the table stands for the sets described |
| Associations.JoinTableHandler.Add | jointable.go:97-137 | the loops over the map in any order, with the doubled list of values, insert the pair unless it is there or the driver fails |
| Associations.JoinTableHandler.Entries | jointable.go:111-116 | every entry of the map once, whatever the order |
| Associations.JoinTableHandler.Delete | jointable.go:140-159 | deletes the rows of the records given, under the caller's conditions, unless the driver fails |
| JoinTables.RecordsAsked | jointable.go:147-152 | in every order of the map entries the generated condition asks for the records' keys |
| Associations.Association.SaveAssociation | association.go:320-377 | one record: saved if its main primary field is blank, put into the field, joined; with the error of either |
| Associations.Association.SaveAssociations | association.go:379-392 | the loop over arguments and slices |
| Associations.Association.Append | association.go:35-44 | table, field and error after Append, for all answers of the driver: related are the old keys and those of the records that were taken; nothing after an earlier error |
| Associations.Association.Replace | association.go:47-140 | table, field and error after Replace, for all answers of the driver; a source without a key deletes nothing |
| Associations.Association.Delete | association.go:143-266 | for both answers of the driver: exactly the keys of the records among the arguments are no longer related, other sources keep their rows, and the field keeps in order exactly the records with other keys; the refused empty list and the index out of range included |
| Associations.GivenExactly | scope.go:897-935 | the keys collected are those of the records that are arguments or in slices among them, blank ones passed over |
| Associations.RemovedRelates | association.go:143-189 | what a deletion leaves related, in terms of the arguments |
| Associations.AddedExactly | association.go:313-393 | the keys that enter are those of the records among the arguments, saved first where they have none, and taken by the driver where that matters |
| Associations.OneAdded | association.go:320-377 | one record, alone or in a slice; `AddedConcat` and `AddedOfConcat` give any number of them, in order |
| Associations.EnteredRelates | association.go:47-140 | what Append and Replace leave related, in terms of the arguments |
| Associations.Association.Clear | association.go:269-271 | table and field after Clear |
| Associations.ReplacedRelates | association.go:47-140 | failing or not, the joined keys are added and the old ones go that are not in the field; other sources keep their rows |
| Associations.ReplaceKeepsExactly | association.go:47-140 | every old relation stays if and only if the source has no key, the deletion fails, or the new field has all the old keys |
| Associations.CleanReplace | association.go:47-140 | without a failure the table is that of the replacement |
| Associations.FailedReplaceStillRemoves | association.go:329-336 | the only record cannot be saved, and the association is empty |
| Base64.DecodeEncode | id_value_bytes.go:19-27 | unpadded base64url decoding undoes encoding for every byte string |
| Base64.TwentyFourBits | id_value_bytes.go:25-27 | four digits are the bits of three bytes, the highest first |
| Base64.TestVectors | id_value_bytes.go:25-27 | the texts of "f", "fo" and "foo" given in RFC 4648 |
| Base64.LastDigits | dialect_postgres.go:210-219 | a text in which the alphabets of the program and of the database differ |
| Base64.TextForms | dialect_postgres.go:210-213 | `pgbid_to_text`, with the line ends PostgreSQL writes, is the Go text form if and only if the id has fewer than 57 bytes |
| Base64.ByteaUndoesText | dialect_postgres.go:215-219 | `pgbid_to_bytea` undoes it exactly for 10, 11 and 12 bytes |
| IdCodec.PartRoundTrip | id_value_int.go:15-35 | a part of any kind is read back from its bytes |
| IdCodec.Bytes | id.go:48-56 | the loop writes each part behind its length |
| IdCodec.ParseIDBytes | modelstruct_idparse.go:23-52 | the two-index loop ends, in values, an error or an index out of range, as the value model says |
| IdCodec.BytesRoundTripExactly | modelstruct_idparse.go:39-49 | the bytes of two or more fields parse back, whatever capacity is behind them, if and only if every part has at most 254 bytes |
| IdCodec.StuckAt255 | modelstruct_idparse.go:48-48 | a length byte of 255 never leads to a result |
| IdCodec.BytesInjective | id.go:48-56 | IDs with short parts have different bytes |
| IdCodec.SingleFieldBytes | modelstruct_idparse.go:31-37 | the bytes of one field parse back only for the integer zero |
| IdCodec.PartStringRoundTrip | id_value_int.go:37-47 | the text of one non-zero part is read back |
| IdCodec.StringRoundTripExactly | modelstruct_idparse.go:55-72 | the text form parses back if and only if the ID is not zero and has one field or short parts |
| IdCodec.EmptyTextExactly | id.go:58-78 | the text form is empty if and only if there is no field, or one is zero or empty |
| IdCodec.NumberBytes | id_value_int.go:15-19 | a number is eight bytes, the most significant first, a negative one in two's complement |
| IdCodec.NumberText | id_value_int.go:45-47 | a number is written in decimal |
| IdCodec.OtherWidths | id_value_uint.go:23-38 | numbers are read from 0, 1, 2, 4 or 8 bytes; other widths are zero for an integer and an error for an unsigned one |
| IdCodec.OtherCount | modelstruct_idparse.go:39-49 | bytes of fewer values than fields are taken, the other fields stay without a value; bytes of more values end in an index out of range |
| IdCodec.ReadsDigits | id_value_uint.go:40-46 | the texts that are read as numbers |
| Partitions.RangeIsClass | dialects/postgres/partition.go:39-129 | a date lies in a range exactly when it has that partition |
| Partitions.NameIsRange | dialects/postgres/partition.go:51-62 | two dates have the same name exactly when they have the same range |
| Partitions.DifferentNamesDisjoint | dialects/postgres/partition.go:51-62 | different names, no common date |
| Partitions.NoGaps | dialects/postgres/partition.go:54-61 | the next partition begins where this one ends |
| Partitions.NextDayNumber | dialects/postgres/partition.go:106-129 | a day later is the next day of the Gregorian calendar, counted by arithmetic alone |
| Partitions.YearDays | dialects/postgres/partition.go:68-82 | a year has 365 or 366 days, 400 years have 146097 |
| Partitions.NameTells | dialects/postgres/partition.go:51-118 | the name tells year, month and day or half of the month in digits |
| Partitions.HalvesCoverMonth | dialects/postgres/partition.go:54-61 | two halves are exactly the month, leap February and December included |
| Partitions.TablePartitions | dialects/postgres/partition.go:39-66 | the loop with its map of names returns each input's partition, once |
| Partitions.InExactlyOne | dialects/postgres/partition.go:39-129 | each input lies in exactly one returned range |
| Partitions.SameSecondsExactly | dialect_postgres.go:186-194 | database and program agree on a BID's time exactly while its first byte is below 128 |
| Preload.OwnTextExactly | utils.go:413-452 | a key has a text of its own among the keys of its length if and only if it is not composite or no component contains `_` |
| Preload.SameTextSameKey | utils.go:413-452 | where one of two keys is such a key, their texts are equal exactly when they are |
| Preload.MatchingSnoc | callback_query_preload.go:219-236 | the nested loop of the comparison takes each result whose key is equal, in order |
| Preload.HashJoinExactly | callback_query_preload.go:219-236 | for every list of results the filed ones are the matching ones, if and only if the key is such a key |
| Preload.TextsCollide | utils.go:413-452 | the smallest pair of different keys with one text |
| Preload.FieldsTextExactly | utils.go:507-528 | `toStringFields` agrees with `toString` if and only if there is at most one component or none is empty |
| Preload.BuildFields | utils.go:507-528 | the loop with its buffer |
| Preload.Hash | callback_query_preload.go:219-224 | the map holds the results of each text in the order found |
| Preload.AssignHasMany | callback_query_preload.go:226-235 | every record's field, by the number of times it is listed |
| Preload.PreloadHasMany | callback_query_preload.go:218-236 | different records with empty fields receive exactly the results with their key, in order, as in a nested loop; only the record's own key must be free of `_` |
| Preload.AssignManyToMany | callback_query_preload.go:372-412 | the same for many-to-many in any order of the groups; filled fields are left alone |
| Preload.LinkedExactly | callback_query_preload.go:350-412 | for such keys many-to-many is the nested loop if and only if the key is not composite, has no empty component, or has no links |
| Preload.EmptyComponentLosesLinks | callback_query_preload.go:385-387 | the smallest record that loses its links |
| StructTags.Lookup | structtag.go:17-71 | ends, reads no byte outside the tag, and finds what the value model finds |
| StructTags.ScanQuoted | structtag.go:46-56 | the quoted scan, with the backslash that may step over the end |
| StructTags.WrittenTagsRead | structtag.go:17-71 | on every written tag the first value of the key comes back without its carriage returns; a backtick makes it not found |
| StructTags.BadStart | structtag.go:22-44 | a tag that begins with a byte that is neither white space nor part of a name holds nothing |
| StructTags.VerbatimExactly | structtag.go:58-66 | it comes back verbatim if and only if it has neither backtick nor carriage return |
| DBNames.OnlyCaseAndUnderscores | utils.go:172-220 | without its underscores the column name is the lowered name without its underscores, and it has no capital |
| DBNames.IdentityWithoutCapitals | utils.go:172-220 | a name without capitals is its own column name |
| DBNames.Idempotent | utils.go:172-220 | converting twice is converting once |
| DBNames.ReplaceLength | utils.go:32-38 | the initialism replacer changes nothing but case |
| DBNames.UnderscoresExactly | utils.go:181-215 | the column name has an underscore before a character exactly where its neighbours say so, and is otherwise the lowered name |
| DBNames.WordsJoined | utils.go:172-220 | a name made of words, each a capital and other characters or an initialism, becomes the lowered words joined by underscores |
| DBNames.HttpsNeverFound | utils.go:25-38 | "HTTP" takes the place of "HTTPS" wherever it stands |
| DBNames.Convert | utils.go:181-215 | the loop with its buffer and cases gives that name |
| DBNames.NameCache.ToDBName | utils.go:172-220 | the answer is that of the conversion, whatever the cache holds, and the cache stays sound |
| DBNames.NameCache.Build | utils.go:92-102 | the same for the builder without a format |
| Handles.AppendGrows | search.go:54-94 | appending to a slice shows the old elements and the new ones and writes nothing below its end |
| Handles.DerivedShows | search.go:54-180 | a derived handle shows its parent's lists and settings with the one change asked for |
| Handles.DeriveKeepsAncestors | main.go:939-954 | one derivation changes nothing any ancestor shows |
| Handles.RunKeepsOrder | main.go:939-954 | the invariant behind it holds in every run |
| Handles.RunStep | main.go:939-954 | a program makes one handle after the other, each by the derivation it asks for |
| Handles.DescendantsNeverDisturb | main.go:939-954 | whatever tree is derived from a handle, it shows what it showed |
| Handles.ProgramsNeverDisturb | main.go:939-954 | so it is for every handle of every program that starts with a handle without conditions |
| Handles.AppendDisturbsExactly | search.go:54-67 | another handle changes exactly when the append goes into spare capacity that handle has already filled otherwise |
| Handles.Prepend | scope_sqlbuild.go:76-78 | append, copy and assignment put the ID condition in front |
| Handles.PrependDisturbsExactly | scope_sqlbuild.go:76-78 | the handle the scope came from changes exactly when its list has spare capacity |

## Reading the model

- Names, column names, values, handlers and rows' contents are numbers: the code only compares and copies
  them. Bytes and characters are their codes.
- The scheduler recurses without a bound. The model gives it a depth (`fuel`); every statement holds for
  all depths, and `SortEnds` gives one that is enough. The objects are called with such a depth.
- The answers of the driver (a BEGIN refused, a COMMIT failing, a statement failing) are part of the
  actions a pipeline performs, so statements about all action lists cover all answers.
- SQL text is a sequence of tokens; words stand for columns, operators and keywords without a connective
  (the AND of BETWEEN is part of a word). A condition is read by splitting at OR, then AND, then NOT
  outside parentheses, as in section 8.12 of SQL-92; a row decides the predicates in between.
- The three marker styles are "?" without bind variables, the positional "$$$" and numbered "$n"; a fourth
  style, values written out, exists only in the model, as what a marker stands for.
- Go slices are modelled with explicit backing arrays; how much a new array is larger is arbitrary.
- A map's iteration order is arbitrary: the model picks entries nondeterministically or takes the entries in
  any order as given.

## Left out

- CallbackRegistry.Callback.Enter: is called where the sorts end; the warnings, `Get` and the renaming of "gorm:" are not modelled.
- CallbackTermination.SortEndsExactly: asks for distinct names; with repeated names only `SortEnds` holds, because whether a cycle is entered then depends on which registration comes first.
- CallbackHistory.ReplaceInPlace: asks for a well-ordered list and a replacement without constraints of its own; otherwise the names of the original and the replacement resolve to other constraints and the order may change. `HandlersExactly` holds on every list.
- TransactionObjects.Scope.CallCallbacks: what a callback does is given as a list of actions; which callbacks a model's hooks add is not modelled.
- Transactions.TransactionAllOrNothing: a panic inside a nested pipeline ends the outer function at once; the model lets the remaining operations of the list be empty instead.
- SqlScope.Scope.Build: values with a bind format of their own, `SqlArger`, arguments whose conversion fails, and slices inside slices other than slices of rows are not modelled.
- SqlClause.ClauseSays: lists of `WhereClauser`, excluded IDs, named relations as conditions and conditions with surplus arguments are not modelled; what a predicate says of a row is the database's, apart from the negations of `SqlNegation`.
- SqlNegation.NegatedExactly: a string without a comparison is taken to hold no IN, which the regular expression that tells the two apart looks for.
- SqlWhere.ReferenceSays: asks that a query passed as Where or Not beside another condition keeps its OR in parentheses; `SqlLoose.StandsExactly` shows why.
- SqlRows.StatementSelects: asks that maps and structs hold single values or nil and that a column name in the Not list comes with a value or a slice of values; `ClauseSays` covers the other arguments.
- SqlConditions.PrintsExactly: a query condition that says nothing is taken to have no text.
- SqlSubquery.StagedSelect: the queries before and behind the WHERE have their arguments in the order of their text, as SELECT, FROM, JOIN and HAVING are rendered in the order in which they stand.
- SqlBinding.QuerySays: asks for as many `?` as arguments at every level and no empty slice of slices; `QueryLeaves` and `NumberedMarkersBind` say what happens otherwise.
- PipelineOutcome.SaveOutcome: asks for a granted BEGIN; after a refused one nested operations may begin transactions of their own, and only `UnbegunKeepsWrite` says what stays.
- Pipeline.PairAtomicExactly: whether the UPDATE hits a row is an answer of the driver, and the query that FirstOrCreate starts with is left out.
- Handles.DescendantsNeverDisturb: lists and memory are values with explicit arrays instead of objects; scalar settings (limit, offset, table, select) are copied by value in the source and have no aliasing to model.
- Associations.Association.Replace: a destination with a DeletedAt field, has-one, has-many and belongs-to associations and polymorphic ones are not modelled. The key columns include the main primary field, and a save that succeeds leaves a key.
- Associations.Association.Delete: the key columns of the join table are taken to be the destination's primary key, and keys are compared as values; by `Preload.SameTextSameKey` that is comparing them as text, since the text of a number has no `_`.
- Associations.JoinTableHandler.Delete: of several records of one side the last one counts, so one is given.
- IdCodec.ParseIDBytes: bytes decoded from text that is no base64url are not modelled where the source drops the error.
- Base64.ByteaUndoesText: the blanks that PostgreSQL passes over when it decodes are not modelled; `pgbid_to_text` writes none within the 16 characters that are read.
- Partitions.TablePartitions: the four functions are one method over the granularity; the conversion from seconds to a UTC date is the library's.
- Preload.AssignHasMany: keys are given as the texts of their components.
- DBNames.NameCache.Build: formats and `BuildParts`, which writes other answers into the same cache, are not modelled; names are ASCII.
- Select with arguments, extra selects, raw mode, inline preload, reflection, scanning, logging, dialect catalogues, migrations and locking.
