# Verified models of the spark-dev pipelines

Dafny 4.11 models of the parts of the repository that compute something with a hard
specification, and proofs of what they promise. `dafny verify dfyconfig.toml` checks all of it.

- **SQL fix-ups** (`SqlLogic`, `SqlTree`, `Fixups`, `Transpile`). `SqlLogic` has NULLs, three-valued
  logic, IN, and the quantified comparisons of ISO/IEC 9075-2:2016 (sections 8.4 and 8.9).
  `SqlTree` gives every tree, with correlated subqueries at any depth, a meaning in a database and
  an outer row. A fix-up is a node-local rewrite; any run of meaning-preserving fix-ups at any
  nodes in any order keeps the meaning of the whole tree, and the documented bottom-up pass is one
  such run. That nothing is left to rewrite needs the bottom-up order: a pass that does not enter
  replaced nodes is complete exactly for trees without nested rejected forms. `Transpile` has the
  registry loop and the fail-soft wrapper around any parser and generator.
- **CDC replica** (`KeyedTable`, `CdcReplica`, `CdcRuns`, `Mart`). Tables are lists of rows, so that
  unique and non-null keys are proved, not assumed. MERGE is specified clause by clause, including
  its refusal of ambiguous matches. The mirror equals the source table for every log that
  duplicates, reorders or drops superseded events, however the engine breaks LSN ties. Batches and
  replays are deduplicated anew each time, so that ties may fall differently; the exact conditions
  under which that does not matter are proved.
- **Incremental fact** (`IncrementalFact`). The rows captured by a sequence of runs are given in
  closed form from the raw rows alone; agreement with a full refresh, re-runs, longer lookbacks and
  recapture follow. Event and load times may be NULL.
- **Quarantine** (`Quarantine`). The clean/quarantine split and its reconcile test, with NULLs.
- **CDC teardown** (`ConnectProtocol`, `ConnectRequests`, `TeardownRuns`, `CdcHelpers`). A step
  machine of connector, task, offsets, slot, table and topic. `ConnectRequests.Serves` says which
  request may get which reply in which world and what it changes; `Leads` says that exactly these
  requests with these replies can lead from one world to another. Between any two requests the
  environment takes any number of steps; requests may fail, and replies may be lost after they
  took effect. `TeardownRuns` has the requests of a teardown and what every such run leaves; each
  method of `CdcHelpers.Cluster` ties its own requests to the worlds before and after the call.
- **Names, keys, partitions** (`SlotNames`, `SurrogateKey`, `Partitions`).

Parsers, generators, clocks, servers and Python's `hash` are parameters or nondeterministic choices.
The server rules assumed by the teardown model are `ConnectRequests.Serves` and the function
`ConnectProtocol.Registered`: Postgres drops an inactive slot only, Connect clears the offsets of a
stopped connector only and reports STOPPED only once its task is gone, and a config update starts an
absent connector, restarts a failed one and leaves a stopping or stopped one as it is.

## Where the documentation says more than the code does

- A NULL column and the text `_null_` get the same surrogate key, and so do `('a|b', 'c')` and
  `('a', 'b|c')` (`SurrogateKey.NamedKeys`; dbt/quality/dbt10_macros_slim_ci.md:46-50 says NULL is
  distinct); `SurrogateKey.KeyIsUniqueIff` says exactly which rows are safe.
- `orders_quarantine` is called the exact complement of `orders_clean`
  (dbt/quality/dbt7_quarantine.md:124); a row with an undecided rule is in neither
  (`Quarantine.ReconcilesIff`).
- `teardown` promises that a same-named registration re-runs its snapshot
  (common/cdc_helpers.py:329-330). It discards what the reset returned. Over stored offsets, the
  snapshot is sure to come back exactly when the reset succeeded and the connector is gone, and is
  lost for good exactly when the reset failed and the connector is gone
  (`TeardownRuns.TeardownOutcome`). When every request is answered, it comes back if a poll saw
  STOPPED (`TeardownRuns.SeenStoppedRestarts`), but before the call that is certain only in the
  worlds of `TeardownRuns.SureIff`: never over a running connector, whose stop may take longer than
  ten polls (`TeardownRuns.RefusedTeardown`), and never over one that was deleted with its offsets
  stored (`ConnectRequests.NeverRestartsIff`). The status of the delete is discarded too: a
  connector that is still there, stopped, never runs again (`ConnectProtocol.RestartsIff`).
- Publications are called unique per connector (common/cdc_helpers.py:187-189); names that agree on
  58 characters share one, even with different slots (`SlotNames.SharedPublication`).
- Slot names are said to hold `[a-z0-9_]` only (common/cdc_helpers.py:163-164); letters and digits
  outside ASCII pass `islower` and `isdigit` and stay (`SlotNames.SlotNameIff`,
  `SlotNames.AccentedSlotName`).
- A lookback recaptures the late rows past the moved bound, and a row without an event time is
  never captured after the first build (`IncrementalFact.FactContents`).
- The rows of a partition are called a pure function of the date, without randomness
  (airflow/dags/af1_idempotency.py:52). Python salts `hash` for each process, so overwriting is
  idempotent within one process, and across two exactly when their hashes of the date agree modulo
  50 (`Partitions.OverwriteElsewhere`).
- Passing text through on a failure is said never to give a silently wrong result
  (dbt/dbt-polyglot/README.md:141-150). `Transpile.ExecutedMeaningIff` says exactly when what is
  executed keeps its meaning, and `Transpile.PassedThroughChangesMeaning` has a text that does not.

## Model

| member | source | states |
|---|---|---|
| SqlLogic.InColumnCases | dbt/quality/dbt7_quarantine.md:120-121 | when IN over a column is True, False or Unknown, in terms of NULLs, membership and emptiness |
| SqlLogic.EqAnyIsIn | dbt/dbt-polyglot/src/dbt_polyglot/fixups.py:26-27 | `= ANY` by its standard rules and IN as a chain of ORs agree for every operand and column |
| SqlLogic.NeqAllIsNotIn | dbt/dbt-polyglot/src/dbt_polyglot/fixups.py:24-25 | `<> ALL` by its standard rules and NOT IN agree for every operand and column, NULLs and empty columns included |
| SqlLogic.ComparisonsOfNumbers | dbt/models/marts/orders_clean.sql:7 | the six comparisons of numbers are those of the integers, and any comparison with NULL is Unknown |
| SqlLogic.ComparisonsOfTexts | dbt/models/marts/orders_clean.sql:7-8 | texts compare as in a dictionary, told by the first character that differs |
| SqlTree.InReads | dbt/dbt-polyglot/src/dbt_polyglot/fixups.py:16-23 | `a IN (SELECT b FROM u)` says whether the outer `a` is among the numbers of `u` |
| SqlTree.ExistsReads | dbt/dbt-polyglot/src/dbt_polyglot/fixups.py:16-23 | so does the correlated `EXISTS (SELECT b FROM u WHERE a = b)` |
| SqlTree.ConnectivesRead | dbt/models/marts/orders_clean.sql:7-9 | NOT, AND and OR of truth values, and of NULL where the other operand decides |
| Fixups.FixupPreserves | dbt/dbt-polyglot/src/dbt_polyglot/fixups.py:16-28 | the fix-up keeps the meaning of every node in every database under every outer row |
| Fixups.AnyOrderPreserves | dbt/dbt-polyglot/src/dbt_polyglot/fixups.py:3-5 | any finite run of meaning-preserving fix-ups, at any nodes in any order, keeps the value and rows of the whole tree |
| Fixups.BottomUpIsARun | dbt/dbt-polyglot/src/dbt_polyglot/fixups.py:3-5 | the bottom-up pass equals one such run, node by node in post-order |
| Fixups.TransformPreserves | dbt/dbt-polyglot/src/dbt_polyglot/transpile.py:22-23 | a bottom-up pass of any preserving fix-up keeps the meaning of the tree |
| Fixups.TransformPruningPreserves | dbt/dbt-polyglot/src/dbt_polyglot/transpile.py:22-23 | so does a top-down pass that does not enter replaced nodes |
| Fixups.PassIsClean | dbt/dbt-polyglot/src/dbt_polyglot/fixups.py:16-28 | after the bottom-up pass no `<> ALL (query)` and no `= ANY (query)` is left at any depth |
| Fixups.NothingRejectedOccurs | dbt/dbt-polyglot/src/dbt_polyglot/fixups.py:16-28 | the same in terms of the two forms themselves, for every node that occurs after the pass |
| Fixups.PassOfNeqAll | dbt/dbt-polyglot/src/dbt_polyglot/fixups.py:24-25 | `x <> ALL (query)` becomes NOT x IN (query), whose query is the old subquery or one new one around exactly the old query |
| Fixups.PassOfEqAny | dbt/dbt-polyglot/src/dbt_polyglot/fixups.py:26-27 | `x = ANY (query)` becomes x IN (query) in the same way |
| Fixups.PassOfOther | dbt/dbt-polyglot/src/dbt_polyglot/fixups.py:28 | every other node keeps its kind and its arguments, passed over one by one |
| Fixups.PassWrapsQueries | dbt/dbt-polyglot/src/dbt_polyglot/fixups.py:12-13 | every membership test has its query in a subquery node after the pass exactly when it had before |
| Fixups.PassFixpoint | dbt/dbt-polyglot/src/dbt_polyglot/fixups.py:24-28 | the pass changes a tree exactly when it holds a rejected form |
| Fixups.PassIdempotent | dbt/dbt-polyglot/src/dbt_polyglot/fixups.py:24-28 | a second pass changes nothing |
| Fixups.PruningIsCleanIffUnnested | dbt/dbt-polyglot/src/dbt_polyglot/fixups.py:3-5 | the pruning pass is complete exactly when no rejected form is nested in another |
| Fixups.PassKeepsMarks | dbt/dbt-polyglot/src/dbt_polyglot/fixups.py:12-28 | each rejected form becomes one membership test at its place, negated exactly for `<> ALL`; other quantified comparisons stay, and no subquery is wrapped twice |
| Transpile.SparkSafeTranspile | dbt/dbt-polyglot/src/dbt_polyglot/transpile.py:11-27 | the registry loop computes the fold of whole passes, for Spark only; it raises when the parser raises or gives no statement, several, or a missing one; what it returns was printed from the only statement and is not all whitespace |
| Transpile.TranspiledIff | dbt/dbt-polyglot/src/dbt_polyglot/transpile.py:16-27 | a call returns a text exactly when the parser gives one present statement, the generator makes that text of it, after the passes for Spark and as parsed for other targets, and some character of it is not whitespace |
| Transpile.AsciiSpaces | dbt/dbt-polyglot/src/dbt_polyglot/transpile.py:25 | which ASCII characters count as blank output: the ten that Python strips |
| Transpile.RegistryInOrder | dbt/dbt-polyglot/src/dbt_polyglot/transpile.py:21-23 | the passes run one after the other in the registry's order, none left out |
| Transpile.VerdictIff | dbt/dbt-polyglot/src/dbt_polyglot/transpile.py:38-54 | the patch skips exactly without a source dialect or when it is the target, replaces exactly by the one output text, and warns in every other case, several statements included |
| Transpile.ApplyRegistryPreserves | dbt/dbt-polyglot/src/dbt_polyglot/transpile.py:21-23 | a registry of preserving fix-ups of any length keeps the meaning of the tree |
| Transpile.TranspiledKeepsMeaning | dbt/dbt-polyglot/src/dbt_polyglot/transpile.py:11-27 | for every registry of preserving fix-ups, output text means in the target dialect what the code meant in its own, when the target accepts the one tree that is printed; the engine is assumed faithful on accepted trees only |
| Transpile.ShippedRegistryOnSpark | dbt/dbt-polyglot/src/dbt_polyglot/transpile.py:21-23 | the tree handed to the Spark generator keeps its meaning and holds no rejected form |
| Transpile.ShippedPatchKeepsMeaning | dbt/dbt-polyglot/src/dbt_polyglot/transpile.py:11-54 | with the shipped registry, and an engine faithful on accepted trees, where Spark accepts at least those without rejected forms, replaced text keeps its meaning: always for Spark, and for any other target when it accepts the parsed tree |
| Transpile.CompiledModel.Patched | dbt/dbt-polyglot/src/dbt_polyglot/transpile.py:38-54 | the model's code changes only on a successful transpile; every exception path warns and leaves it as it was |
| Transpile.PatchKeepsMeaning | dbt/dbt-polyglot/src/dbt_polyglot/transpile.py:38-54 | replaced text is not blank and, when the target accepts the printed tree, means in the target dialect what the old text meant in the source dialect |
| Transpile.ExecutedMeaningIff | dbt/dbt-polyglot/src/dbt_polyglot/transpile.py:38-54 | when the target accepts the tree to print, the text left after the patch, replaced or not, means in the target what the model meant, exactly when the model parses and the generator had text for it or the unchanged text already meant the same there |
| Transpile.PassedThroughChangesMeaning | dbt/dbt-polyglot/src/dbt_polyglot/transpile.py:47-53 | a text that is passed through with a warning and means something else in the target |
| Transpile.NoOpIff | dbt/dbt-polyglot/src/dbt_polyglot/transpile.py:42-45 | a model that names no source dialect or the target itself is left alone in silence under every engine; any other is replaced under some and warned about under others |
| Transpile.ShippedPatch | dbt/dbt-polyglot/src/dbt_polyglot/transpile.py:21-25 | replaced text was printed from a tree of the parsed meaning: free of rejected forms for Spark, the parsed tree itself for other targets |
| KeyedTable.MergeFind | capstone/cap1_pipeline.py:88-92 | MERGE gives each key the effect of its one change and leaves every other key alone |
| KeyedTable.MergeDecides | capstone/cap1_pipeline.py:88-92 | a change of the key decides what the key holds after MERGE; without one nothing happens to it |
| KeyedTable.MergeKeys | capstone/cap1_pipeline.py:88-92 | MERGE keeps keys unique; a NULL key appears exactly when a change without a key is inserted |
| KeyedTable.OneChangeAKeyIsUnambiguous | capstone/cap1_pipeline.py:88-92 | with one change a key, MERGE is never refused for matching a row twice |
| KeyedTable.RefusedIff | capstone/cap1_pipeline.py:88-92 | MERGE is refused exactly when two changes carry the key of one row; NULL is no key |
| CdcReplica.FlattenReads | capstone/cap1_pipeline.py:77-81 | an envelope of any shape flattens to the id of its new image, else of its old one, and to the columns of its new image, all NULL without one |
| CdcReplica.LatestIsLatest | capstone/cap1_pipeline.py:82-83 | the dedup keeps one change for every id of the log, with a greatest LSN |
| CdcReplica.MirrorEqualsSource | capstone/cap1_pipeline.py:77-92 | for every valid history and every log that delivers it, the mirror is exactly the replayed source table |
| CdcReplica.DeterminedIffTiesAgree | capstone/cap1_pipeline.py:82-83 | the rows of the mirror are independent of tie-breaking exactly when all newest changes of every id, and of the missing id, have one effect |
| CdcRuns.BatchesKeys | capstone/cap1_pipeline.py:121-122 | over any run of batches and any way to break their ties, ids stay unique, and non-null when no batch has a live newest change without an id |
| CdcRuns.BatchesEqualOneMerge | capstone/cap1_pipeline.py:82-92 | batch-wise dedup and MERGE leaves the same rows as one over the whole log, from any starting mirror and for every outcome of every dedup, when the newest changes of each id agree |
| CdcRuns.OneMergeIff | capstone/cap1_pipeline.py:82-92 | every outcome of every dedup leaves the same lookups, in batches and in one MERGE, exactly when the newest changes of every id have one effect |
| CdcRuns.ReplayChangesNothing | capstone/cap1_pipeline.py:82-92 | replaying the last batch any number of times, deduplicated anew each time, leaves the same rows when tied changes agree and no live newest change lacks an id |
| CdcRuns.ReplayIff | capstone/cap1_pipeline.py:82-92 | over any mirror with unique non-null ids, a replay keeps the rows under every way to break ties exactly when that condition holds |
| CdcRuns.OpCounts | common/cdc_helpers.py:303-310 | the dictionary holds exactly the labels that occur, each with its number of records |
| CdcRuns.CountsByOperation | common/cdc_helpers.py:303-310 | which records each label counts: "r" snapshots, "c" creates, "u" updates, "d" deletes, "tombstone" records without a value, any other label none |
| CdcRuns.CountsAddUp | common/cdc_helpers.py:303-310 | the counts of the five labels add up to the number of records |
| CdcRuns.LiveRows | common/cdc_helpers.py:194 | on a duplicate-free topic live rows are r + c - d, and there is one tombstone a delete |
| CdcRuns.MirrorRowCount | capstone/cap1_pipeline.py:93 | the mirror's row count is r + c - d of the duplicate-free topic, for every log that delivers the history |
| CdcRuns.Mirror.MergeBatch | capstone/cap1_pipeline.py:87-92 | one MERGE of a batch, deduplicated in any way, is accepted and gives its effect on the old rows |
| CdcRuns.Mirror.Ingest | capstone/cap1_pipeline.py:76-94 | for every outcome of the dedup, the rebuilt mirror represents the source for every history the log delivers |
| CdcRuns.IdExpectations | capstone/cap1_pipeline.py:121-122 | for every outcome of the dedup: the uniqueness check passes on every log; the non-null check exactly when no live row comes from a change without an id |
| Mart.GroupByIsMart | capstone/cap1_pipeline.py:101-103 | the aggregation has one row for each status that occurs, with that status's own count and the arithmetic sum of its amounts, NULL when it has none |
| Mart.MartConserves | capstone/cap1_pipeline.py:101-103 | order counts add up to the rows of the mirror, totals to the arithmetic sum of its amounts |
| Mart.MartOfReplica | capstone/cap1_pipeline.py:77-103 | the mart over the mirror is the GROUP BY of the replayed source |
| Mart.MartTable.Rebuild | capstone/cap1_pipeline.py:100-103 | the rebuilt mart is correct for the mirror it reads and conserves its counts and totals |
| IncrementalFact.FactContents | dbt/models/marts/fct_orders.sql:12-24 | after every sequence of runs the table holds exactly the captured rows, once each: those that some run saw, landed by its load bound, with an event time past that of every row the run before could see less the lookback; the watermark is the greatest available event time |
| IncrementalFact.CapturedRows | dbt/models/marts/fct_orders.sql:12-24 | a raw row is in the table, unchanged and under its own id, exactly when some run captured it, and nothing else is |
| IncrementalFact.FullBuildHolds | dbt/models/staging/stg_orders.sql:22-23 | a full build holds exactly the rows that landed by the load bound, each as often as it is raw |
| IncrementalFact.FirstSightDecides | dbt/quality/dbt3_late_arriving.md:73-81 | with a constant lookback, the first run that sees a row decides: a row missed once is missed for good |
| IncrementalFact.FullRefreshIff | dbt/quality/dbt2_incremental.md:82-89 | the table equals a full refresh exactly when every available row was captured |
| IncrementalFact.FullRefreshIffNothingLate | dbt/quality/dbt3_late_arriving.md:99-107 | with a constant lookback, it does exactly when no available row arrived at or behind its bound |
| IncrementalFact.LongerLookbackKeepsRows | dbt/quality/dbt3_late_arriving.md:109-127 | longer lookbacks never lose a row |
| IncrementalFact.RerunChangesNothing | dbt/quality/dbt2_incremental.md:134-136 | re-running the last batch leaves the same rows |
| IncrementalFact.Recapture | dbt/quality/dbt3_late_arriving.md:119-127 | one run with another lookback keeps keys unique and completes the table exactly when all dropped rows are past the moved bound |
| IncrementalFact.RunIsNeverRefused | dbt/quality/dbt2_incremental.md:96-99 | with unique raw ids the MERGE of a slice is never ambiguous, whatever the table holds |
| IncrementalFact.LateOrderDropped | dbt/quality/dbt3_late_arriving.md:41-49 | the stored table of the two runs lacks the seeded late order with lookback 0 and holds it with lookback 48 |
| IncrementalFact.FactTable.RunModel | dbt/models/marts/fct_orders.sql:5-24 | first and full-refresh runs store exactly the rows that landed by the load bound, others MERGE the slice; the stored rows remain the captured ones of the runs so far |
| Quarantine.QuarantineNegatesClean | dbt/quality/dbt7_quarantine.md:124-138 | the quarantine condition is the three-valued negation of the clean condition |
| Quarantine.Trichotomy | dbt/quality/dbt7_quarantine.md:116-138 | a row is clean, quarantined or lost, never two of them, and lost exactly by a condition on its NULLs |
| Quarantine.CleanIff | dbt/models/marts/orders_clean.sql:5-9 | a row is clean exactly with an amount above zero, an accepted status, and a non-null customer among the keys |
| Quarantine.ReasonIff | dbt/quality/dbt7_quarantine.md:128-137 | quarantined rows, and only they, have a reason, which is the first rule that definitely fails; a number is called non-positive exactly when it is at most zero |
| Quarantine.CleanRowsHold | dbt/models/marts/orders_clean.sql:5-9 | the clean table holds exactly the clean rows, each as often as it is raw |
| Quarantine.QuarantineRowsHold | dbt/quality/dbt7_quarantine.md:128-138 | the quarantine table holds exactly the rows that break a rule, each as often as it is raw and with the first rule that it breaks |
| Quarantine.SplitConserves | dbt/quality/dbt7_quarantine.md:140-151 | raw rows are the clean, quarantined and lost rows, each once |
| Quarantine.ReconcilesIff | dbt/tests/assert_orders_reconcile.sql:1-9 | the reconcile test passes exactly when no row is lost |
| Quarantine.ReconcilesWithoutNulls | dbt/tests/assert_orders_reconcile.sql:1-9 | it passes when the tested columns and the customer keys hold no NULL |
| Quarantine.NullAmountIsLost | dbt/models/marts/orders_clean.sql:5-9 | an otherwise good row with a NULL amount is lost and fails the test |
| ConnectRequests.LeadsKeeps | common/cdc_helpers.py:218-233 | a consequence of the assumed server rules: whatever is requested without a registration, settled worlds stay settled, cleared offsets and dropped slots stay gone |
| ConnectRequests.OffsetsAreCleared | common/cdc_helpers.py:218-233 | a consequence of the assumed server rules: when stored offsets are gone, a DELETE of them was served over a stopped connector without a task |
| ConnectRequests.SlotIsDropped | common/cdc_helpers.py:132-146 | a consequence of the assumed server rules: when a slot is gone, a drop was served while it was inactive |
| ConnectProtocol.InitialSnapshots | common/cdc_helpers.py:219-222 | after an `initial` registration over any world: with offsets stored no snapshot is ever started, and without offsets or a left-over task one comes before any task |
| ConnectProtocol.RestartsIff | common/cdc_helpers.py:219-222 | over every world, an `initial` registration gets to a task, and never without a new snapshot, exactly when the connector is absent, running or failed, no task is left over and no offset is stored |
| ConnectProtocol.CertainIff | common/cdc_helpers.py:219-222 | that stays so however long the registration is put off, exactly when the connector is absent or failed, no task is left over and no offset is stored |
| ConnectRequests.RestartsLaterIff | common/cdc_helpers.py:219-222 | in every world: whatever is requested before it, the next `initial` registration is sure to snapshot anew exactly when the connector is absent and no task and no offset is left |
| ConnectRequests.ClearedRestarts | common/cdc_helpers.py:325-338 | what a complete teardown leaves stays so, and an `initial` registration then snapshots anew |
| ConnectRequests.NeverRestartsIff | common/cdc_helpers.py:329-331 | in every world: whatever is requested before it, the next `initial` registration never snapshots exactly when the connector is absent and its offsets are stored |
| TeardownRuns.ResetOutcome | common/cdc_helpers.py:218-233 | over any run with the requests of a reset: True means a stopped connector without a task and without offsets; after False stored offsets are still there |
| TeardownRuns.ResetIff | common/cdc_helpers.py:230-233 | an answered reset comes out True exactly when its last request met a stopped connector without a task; a refusal means it did not |
| TeardownRuns.TeardownIsSent | common/cdc_helpers.py:325-338 | request by request, what an ended teardown has sent: the check, one stop, one to ten polls, the reset; one delete; check and drop in turn for at most five attempts; then the table and the topic |
| TeardownRuns.SentEndsAsAsked | common/cdc_helpers.py:335-338 | with both flags it ends in the table drop and then the topic deletion; no topic request without both flags, no table request without `table` |
| TeardownRuns.TeardownOutcome | common/cdc_helpers.py:325-338 | over any run with the requests of a teardown: stored offsets survive exactly when the reset came out False; over stored offsets the snapshot is sure exactly when the reset succeeded and the connector is gone, and lost for good exactly when the reset failed and the connector is gone |
| TeardownRuns.SureIff | common/cdc_helpers.py:325-338 | the exact worlds, checked before the call, from which every teardown whose requests are all answered brings the snapshot back: no task, and the connector stopped or, not running, without stored offsets |
| TeardownRuns.SeenStoppedRestarts | common/cdc_helpers.py:227-233 | from any world in which a stopped connector has no task, a teardown whose polls saw STOPPED and whose requests are all answered brings the snapshot back |
| TeardownRuns.RefusedTeardown | common/cdc_helpers.py:225-233 | from every world with stored offsets that cannot be cleared, one labelled run of a teardown: every request answered, the offsets refused, delete and slot drop successful, and no later `initial` registration snapshots |
| CdcHelpers.Cluster.DropSlot | common/cdc_helpers.py:132-146 | True only when the slot is gone, False only after all attempts; its requests and replies are exactly check and drop in turn, at most one pair an attempt, and lead from the old world to the new one |
| CdcHelpers.Cluster.AwaitStopped | common/cdc_helpers.py:227-231 | one to ten polls, less than ten only when the last one saw STOPPED; they lead from the old world to the new one |
| CdcHelpers.Cluster.ResetOffsets | common/cdc_helpers.py:218-233 | it sends the check, one stop, one to ten polls and the reset, whose replies decide the result, and they lead from the old world to the new one, so that ResetOutcome and ResetIff apply |
| CdcHelpers.Cluster.Teardown | common/cdc_helpers.py:325-338 | reset, delete, slot drop, table, topic in this order within 26 requests that lead from the old world to the new one; it ends early exactly when a request raises; else the requests are those of TeardownIsSent, the table and topic requests those that were asked for, all of TeardownOutcome holds, and the snapshot is sure from the worlds of SureIff when every request is answered |
| CdcHelpers.Cluster.RegisterConnector | common/cdc_helpers.py:206-209 | a successful reply means that the config was applied, to a state reached by letting the environment go on |
| SlotNames.SlotNameIff | common/cdc_helpers.py:162-166 | for every name, the slot name is acceptable exactly when no letter or digit outside ASCII survives lowering and truncation |
| SlotNames.AsciiSlotName | common/cdc_helpers.py:162-166 | every ASCII name gives at most 63 characters of `[a-z0-9_]` |
| SlotNames.SanitisedAscii | common/cdc_helpers.py:165 | an ASCII name keeps its lower-case letters, digits and underscores, gets its capitals lowered, and `_` for anything else |
| SlotNames.SafeSlotIs | common/cdc_helpers.py:166 | the slot name is the sanitised name with `_slot` after it, cut at 63 characters |
| SlotNames.AccentedSlotName | common/cdc_helpers.py:162-166 | a name with an accented letter gives a slot name outside `[a-z0-9_]` |
| SlotNames.PublicationIs | common/cdc_helpers.py:190 | the publication is the first 58 characters of the sanitised name plus `_pub`, wherever truncation cuts |
| SlotNames.SamePublicationIff | common/cdc_helpers.py:187-190 | two connectors share a publication exactly when their sanitised names agree on 58 characters |
| SlotNames.DifferentSlots | common/cdc_helpers.py:186-190 | names that differ there get different slots and different publications |
| SlotNames.SharedPublication | common/cdc_helpers.py:187-190 | two names with different slots and one publication |
| SurrogateKey.KeyRoundTrip | dbt/macros/surrogate_key.sql:1-3 | columns without delimiter and marker text can be read back from the key text, NULLs included |
| SurrogateKey.KeysDiffer | dbt/macros/surrogate_key.sql:1-3 | on such columns, equal keys mean equal rows |
| SurrogateKey.KeyIsUniqueIff | dbt/quality/dbt10_macros_slim_ci.md:46-50 | among all rows with as many columns, a row has a key of its own exactly when no column is NULL or the marker and, with several columns, none holds the delimiter |
| SurrogateKey.NamedKeys | dbt/quality/dbt10_macros_slim_ci.md:46-50 | the documentation's examples: NULL collides with the marker text, rows that differ only in which of their delimiters lies inside a column collide, and the pair named there does not; and one key text in full |
| Partitions.PartitionStore.AppendPartition | airflow/dags/af1_idempotency.py:65-73 | the date's file grows by three rows of the date and holds nothing but rows of the date with metric `orders` and the date's value, other files stay, the count is three for each run of the date so far |
| Partitions.PartitionStore.OverwritePartition | airflow/dags/af1_idempotency.py:76-84 | the date's file holds exactly three such rows, other files stay |
| Partitions.OverwriteIsOneCopyADate | airflow/dags/af1_idempotency.py:76-84 | after any runs the overwrite store holds one copy of each run date's rows: three rows of the date with metric `orders` and value 100 plus the date's hash modulo 50 |
| Partitions.OverwriteDependsOnDates | airflow/dags/af1_idempotency.py:76-84 | two sequences of runs leave the same store exactly when they cover the same dates |
| Partitions.AppendHoldsCopies | airflow/dags/af1_idempotency.py:65-73 | the append store holds one copy of the date's three rows for each run of the date, and nothing else under the date |
| Partitions.OneMoreRun | airflow/dags/af1_idempotency.py:65-84 | one more run always changes the append store, and the overwrite store only when the date is new |
| Partitions.OverwriteElsewhere | airflow/dags/af1_idempotency.py:51-53 | overwriting a date again from a process with another `hash` leaves the store as it was exactly when both hashes of the date agree modulo 50 |

## Left out

- sqlglot's parser, generator and `.transform`: not part of this model. The bottom-up order is the
  one the registry documents; a pruning top-down order is modelled beside it.
- Array operands of ALL and ANY, row-valued comparisons, and run-time errors: an ill-formed node or a
  scalar subquery with several rows reads as NULL.
- Relational operators other than SELECT with WHERE are arbitrary functions of their input rows, so
  expressions inside GROUP BY, HAVING or ON are modelled only as far as WHERE can express them.
- BatchesEqualOneMerge: assumes that no batch goes back in LSN for an id, and that no batch has a
  live newest change without an id; without the latter, `OneMergeIff` still speaks of lookups.
- Truncate events, and updates of a primary key seen as one event.
- Amount and status expectations of the quality gate: they depend on the source data only.
- FactContents: assumes unique, immutable raw rows and a growing `load_through`.
- `wait_for_connector`, `connect_up`, the polling of `ingest`, and all timeouts in seconds.
- DeleteDataTopic: promises nothing about the topic, because what the deletion raises is swallowed;
  the error of creating the admin client is not.
- Several tasks for one connector, and zombie tasks that outlive a STOPPED status.
- Python's character tables: a parameter, of which only the ASCII part is fixed.
- Restarts of a running connector's task by a config update, other than those that the environment
  may bring about at any time.
- The md5 step of the surrogate key, floating-point rounding of amounts (cents are integers), and
  the import-time activation of the compiler patch.
- `metrics_diff`, `iceberg_meta`, `profiles`, `spark_session` and `datagen`, which read REST
  endpoints, print tables and hold configuration.
- Airflow scheduling, and dbt snapshots, contracts and freshness, which are implemented outside the
  repository.
