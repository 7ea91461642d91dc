# Data Spark, modelled and proved

Data Spark moves the records of one file to a destination. It reads the source twice: pass 1 resolves a
schema, judges every record and fixes a plan; pass 2 replays the source against that plan and hands chunks
to a destination session. This project models the logic of both passes, of the dispatcher and its retries,
and of the DuckDB and SQL Server sessions, and proves what they keep over all inputs, files, faults and
schedules. `dafny verify dfyconfig.toml` checks it.

How the modules follow the program:

- `Digits`, `FloatText`, `FieldTypes`, `Decimals`, `Timestamps`, `Records`: values, as cells and JSON, and the
  types they are observed, judged and built as. A float is judged by whether its exact decimal value rounds
  to a finite double; a built float keeps the text it was read from.
- `Spellings`, `ClockText`, `Readings`, `CellMeanings`: what text, paths and cells mean, as relations that call no
  parser, and that the parsers, the path walk and the cell builders meet them exactly.
- `Transforms`, `TransformResolution`, `Schemas`, `Agreement`, `Observations`, `Observers`, `Inputs`,
  `Materialization`, `Pins`: schema resolution. `Inputs.Input.Resolution` is the reference decision over a whole
  input; the observer classes that update their types in place are proved to reach it.
- `PlanMeanings`, `Judgements`: what a resolved plan plans, writes to its pin and rejects, on the directive and the
  dataset columns alone.
- `Sources`, `Rejections`, `SourceReads`: pass 1 and the rejection artifact. Files are sequences of what their
  parser yields; the sink and the spill are classes.
- `Fnv`, `Chunks`, `Streams`, `StreamGuarantees`, `Replays`: pass 2. `Streams.ChunkStream` is the phase machine; what
  it still yields is a function of its state.
- `Retry`, `Dispatch`: the retry engine and the bounded-window dispatcher, as loops and as a step relation over
  every schedule.
- `Sessions`, `Upserts`, `DuckDbSessions`, `SqlServerSessions`: destination sessions as functions on their state,
  with the outcome of each statement as a parameter, and as writer classes whose `Drive` takes a whole phase.
- `Interleavings`, `LivePhases`, `ScheduledDuckDb`, `ScheduledSqlServer`: dispatcher and session together. Writes reach the
  session in any order the window allows, and are answered in any other. `LivePhases` proves that this finer step
  relation refines the dispatcher's own.
- `Datetimes`: timestamps and integers on their way to SQL Server columns.
- `Deliveries`, `DeliveredCells`, `Loads`, `LoadedTables`, `LoadedValues`: the rows a load hands over and what their
  cells hold, the load as a whole, one theorem per destination and mode that joins the load's report to what
  its table holds, and theorems that start from the file's own text.

Clocks, randomness, connections and the success of each statement are parameters of the model. Where a
parameter is a function of the chunk index, the theorems hold for every such function.

## Where the code falls short of its promise

Each of these is a lemma with a concrete input, next to the exact condition under which the promise holds.

- Replaying an unmodified CSV file can report a change, because outcomes are kept by line
  (`Replays.SharedLineDiverges`). It happens exactly when two rows reported at one line have different
  outcomes (`Replays.UnmodifiedSweeps`). Rows share a line when a bare carriage return ends the first of them: it
  ends a record but starts no line. JSONL lines are numbered, so there it never happens.
- A bootstrapped pin does not always read back: a CSV header may repeat a name
  (`Pins.RepeatedHeaderPinIsRefused`). It reads back exactly when dataset names are distinct
  (`Pins.PinConverges`, `Loads.RepeatedLoadConverges`).
- A failed SQL Server append can report less than it committed: a chunk the server applied counts only when
  its reply arrives (`SqlServerSessions.LostReplyGoesUnreported`). The report is exact if and only if no such reply
  was lost, serially (`SqlServerSessions.SqlAppendKeepsThePrefix`) and under every schedule
  (`ScheduledSqlServer.AppendUnderAnySchedule`).

## What the surrounding checks protect from

Two hazards inside a component that no load reaches, and why.

- A SQL Server full refresh keeps its plan after a failed bulk send was rolled back, so a later write would go
  to the table outside any transaction (`ScheduledSqlServer.WindowOfTwoCanLeak`). What leaks is known exactly
  (`ScheduledSqlServer.AbandonedRefreshLeaksStrayRows`), and nothing leaks at the parallelism limit of one that the
  destination declares (`ScheduledSqlServer.SerialRefreshLeaksNothing`).
- Merging a stage twice can insert a row twice (`Upserts.NullKeyIsInsertedTwice`). It changes something exactly
  when a staged key holds a null (`Upserts.MergingAgainChangesNothing`). Loads never stage one, because records
  with a null key are rejected (`Deliveries.SurvivingKeysPresent`), so merging one source twice is safe
  (`Loads.MergeUpsertsSurvivors`).

## Model

| member | source | states |
|---|---|---|
| `FieldTypes.MergeIsLeastUpperBound` | src/schema.rs:3084-3103 | the lattice merge is the join of the order null below everything, integers below floats, everything below text |
| `FieldTypes.NameParses` | src/schema.rs:825-835 | printing a valid type and parsing the name gives the type back |
| `FieldTypes.ParsedNamePrints` | src/schema.rs:972-1010 | every accepted spelling of a type name prints back byte-identical and denotes a valid type |
| `FloatText.IntegerTextIsFiniteFloat` | src/schema.rs:2223-2245 | text that parses as an i64 parses as a finite f64, so an integer cell always fits a float column |
| `Digits.ItoaPrints` | src/schema.rs:1002-1010 | a canonical digit string is the printing of its value and of no other |
| `Spellings.ParseI64Reads` | src/schema.rs:3122-3135 | integer text is read exactly when it is an optional sign and digits spelling a 64-bit integer, as that integer |
| `Spellings.IntegerTextReads` | src/schema.rs:3122-3135 | the canonical text of a 64-bit integer reads back as it |
| `Spellings.IsFiniteFloatReads` | src/schema.rs:3122-3135 | float text is accepted exactly when it is digits around an optional point with an optional exponent, and below the overflow threshold at every common scale |
| `Spellings.ParseBoolReads` | src/schema.rs:3162-3168 | boolean text is read exactly when it is a flag's name in lower, capitalized or upper case, as that flag |
| `Spellings.IsZeroPaddedReads` | src/schema.rs:3140-3143 | text counts as zero-padded exactly when, after an optional sign, it starts with a zero before another digit |
| `Decimals.ParseDecimalScaled` | src/schema.rs:3283-3303 | the digit loop in checked i128 steps computes the exact scaled value: an overflow never refuses a value that fits |
| `Spellings.DecimalTextReads` | src/schema.rs:3283-3326 | for every sign and digits w, f: the text sign w.f is refused when f is longer than the scale, else is the digits of w and f read together and shifted, exactly when below 10^precision |
| `Spellings.OtherDecimalTextIsRefused` | src/schema.rs:3308-3326 | text that is neither an optional sign with digits nor those with a point and digits is refused |
| `Spellings.ParseDecimalReads` | src/schema.rs:3283-3341 | decimal text is accepted exactly when it spells a value of the scale within the precision, as that value |
| `Decimals.MagnitudeIsShifted` | src/schema.rs:3283-3303 | scaling whole and fraction apart equals reading the digits together and appending the missing zeros |
| `Decimals.RescaleNeverOverflowsFirst` | src/schema.rs:3331-3341 | the checked product of a JSON integer overflows only when the value misses its precision anyway |
| `Decimals.IntegerAgreesWithItsText` | src/schema.rs:3331-3341 | a JSON integer scales to the same decimal, or the same refusal, as its decimal text |
| `Timestamps.ParseFixedDigits` | src/schema.rs:3265-3276 | the fixed-width digit loop accepts exactly all-digit fields and returns their value |
| `Timestamps.ParsedClockIsValid` | src/schema.rs:3196-3240 | every accepted clock reading is a real calendar moment with less than a second of fraction |
| `Timestamps.InstantNeverOverflows` | src/schema.rs:3182-3192 | the checked offset subtraction never refuses: every readable instant fits an i64 |
| `ClockText.ClockReads` | src/schema.rs:3196-3240 | clock text is read exactly when it prints a calendar moment, field by padded field, as that moment and whatever follows it |
| `ClockText.CalendarIsCivil` | src/schema.rs:3234-3236 | the days of a month, the leap rule and the day count are those of the civil calendar in closed form |
| `ClockText.ParseTimestampReads` | src/schema.rs:3174-3177 | wall-clock text is read exactly when it prints a moment and nothing else, as its microseconds from 1970-01-01 |
| `ClockText.ParseOffsetReads` | src/schema.rs:3243-3262 | offset text is read exactly when it is Z, z or a sign with two-digit hours and minutes, as so many seconds east |
| `ClockText.ParseInstantReads` | src/schema.rs:3182-3186 | instant text is read exactly when it prints the wall clock of an instant at an offset, as that instant |
| `ClockText.OffsetMovesInstant` | src/schema.rs:3182-3262 | wall-clock text with a printed offset is the instant whose wall clock, that far east of it, the text reads |
| `ClockText.UtcKeepsInstant` | src/schema.rs:3182-3262 | Z, in either case, leaves the wall clock as it is |
| `Records.FittingValueBuilds` | src/schema.rs:2223-2265 | a value that fits its expected type always builds in its column, and never as a null |
| `Records.WidenedValueFits` | src/schema.rs:3084-3119 | a value whose observed type widens to a column type fits the type that column materializes as |
| `Readings.PathReadsLeaf` | src/schema.rs:1557-1566 | the path walk reads a value exactly when objects nest along the path, each segment holding the next, and the last holds that value |
| `Readings.ReadFieldFinds` | src/schema.rs:1542-1552 | reading a field gives exactly what its address finds: a nonempty cell, a non-null key, or a non-null leaf |
| `Readings.CsvRowReads` | src/connector.rs:2189-2232 | a row of the header's length is a record with its cells in order, the empty ones absent; any other is rejected |
| `CellMeanings.BuiltCellDenotes` | src/schema.rs:2782-3083 | a value builds to a cell of a type exactly when the cell holds what the value spells, for every type and both formats |
| `CellMeanings.FitsIffDenoted` | src/schema.rs:2223-2265 | a value fits a type exactly when it has a cell of it, except that zero-padded text is no number |
| `CellMeanings.InferIsNarrowest` | src/schema.rs:3122-3160 | a value is observed as the least type of the lattice that it fits |
| `Transforms.ReadOrderedUniqueMap` | src/schema.rs:425-468 | an ordered map block is accepted exactly when no key repeats, and keeps its declaration order |
| `Transforms.JoinUndoesSplit` | src/schema.rs:508-520 | rejoining a flatten path's segments reproduces the declared path; no segment holds a dot |
| `Transforms.CheckFlatten` | src/schema.rs:570-608 | the flatten loop accepts exactly the entries whose paths and outputs are usable and whose outputs are distinct |
| `Transforms.CheckRename` | src/schema.rs:634-658 | the rename loop accepts exactly injective renames to usable, changed targets of selected fields |
| `Transforms.NameRulesWithoutSelect` | src/schema.rs:690-711 | without a select list, checking the outputs against each other and the targets of observed names is the whole name rule |
| `Transforms.CheckConfigNames` | src/schema.rs:690-711 | the offline collision loop accepts exactly the transforms whose configured dataset names are distinct |
| `Transforms.FromConfig` | src/schema.rs:547-717 | a transform block validates exactly under the declared rules and then is the block it was written as; every refusal has one code |
| `TransformResolution.CollectUnknown` | src/schema.rs:1606-1637 | no unknown name is collected exactly when every selected, renamed and flattened name exists in the observed shape |
| `TransformResolution.DetectCollision` | src/schema.rs:1696-1722 | one grouping pass finds a collision exactly when a changed name is shared with another column |
| `TransformResolution.BuildColumns` | src/schema.rs:1655-1687 | the column loop builds the selection in its own order, or every observed field and then the outputs |
| `TransformResolution.Resolve` | src/schema.rs:1586-1725 | the resolver refuses unknown names, then shadowing outputs, then collisions, else yields the dataset columns |
| `Schemas.OverridesFromEntries` | src/schema.rs:260-302 | overrides are accepted as declared with unique names, or the first entry breaking a rule decides the code |
| `Schemas.RejectedIffViolates` | src/schema.rs:1321-1330 | the order-free violation test holds exactly when the ordered validation returns a rejection |
| `Schemas.PlanShape` | src/schema.rs:1340-1407 | every successful resolution has the pinned fields in pin order then the rest, and the merge-key, pin and override checks |
| `PlanMeanings.PlanResolvesIff` | src/schema.rs:1340-1407 | a plan resolves if and only if the transform does, overrides and merge keys name columns, and a pin's overrides agree, its names match the columns once each with nothing outside unless the policy allows it, and its declared-only types are re-declared; the first that fails gives the code |
| `PlanMeanings.FailOnDriftKeepsPin` | src/schema.rs:1958-2033 | under the failing policy every resolved plan has the pin's names in order, no column outside the pin, and no pin to write |
| `PlanMeanings.PlanFieldsMean` | src/schema.rs:1895-1942 | pinned fields are as pinned and read their columns; the rest are the columns outside the pin in order, as their overrides say, else as observed and nullable; a pin is written exactly when there was none or a column lies outside it |
| `PlanMeanings.UndeclaredReported` | src/schema.rs:2583-2640 | a drift failure over missing re-declarations lists only pinned fields that lack one, with the pinned type and the type their column shows |
| `PlanMeanings.SelectedColumnsMean` | src/schema.rs:1655-1687 | with a selection, column i is the selected name i under its rename target, read along its path or from its first observed field |
| `PlanMeanings.UnselectedColumnsMean` | src/schema.rs:1655-1687 | without one, the columns are every observed field at its position and then every flatten output along its path |
| `PlanMeanings.FlattenFieldPlanned` | src/schema.rs:1655-1687 | without pin and selection, every flatten output has its field, read along its declared path |
| `Judgements.JudgementMeans` | src/schema.rs:1321-1330 | a plan rejects exactly the records with a null merge key, a pinned field the pin does not allow, or an overridden field its override does not allow |
| `Judgements.RejectionExplains` | src/schema.rs:1249-1330 | a rejection names the first null merge key before anything else; otherwise a column that lacks its value, or one whose value misfits |
| `Judgements.ColumnTypeHoldsAll` | src/schema.rs:1114-1126 | an undeclared column is observed as the least type every value of its records fits |
| `Agreement.DatasetNamesDistinct` | src/schema.rs:1586-1725 | for a validated transform that resolves over a key union, dataset names are pairwise distinct |
| `Agreement.SourceAddressAgrees` | src/schema.rs:1298-1314 | the address derived from configuration alone is the one each resolved column reads |
| `Agreement.CheckSetsAgree` | src/schema.rs:1249-1289 | directive-derived and resolved checks cover each other, with equal address, type and null rule |
| `Agreement.DirectiveChecksAgree` | src/schema.rs:1240-1289 | whenever resolution succeeds, every possible JSON record is judged the same by the early and the resolved checks |
| `Observations.ResolutionIgnoresTypes` | src/schema.rs:1340-1407 | success, code and checks of a resolution do not depend on the observed types |
| `Observations.ValueWidensToColumn` | src/schema.rs:1114-1126 | every value of a column widens to the type the fold gives the column |
| `Observations.ResolvedChecksReadSlots` | src/schema.rs:1416-1454 | every resolved check reads a slot of the source shape |
| `Observers.MergeTextObservations` | src/schema.rs:1114-1126 | one CSV record widens exactly its own columns' types |
| `Observers.TextObserver.Observe` | src/schema.rs:1089-1101 | a CSV record is folded in and judged by the probed checks; a failed verdict judges nothing |
| `Observers.TextObserver.Finish` | src/schema.rs:1103-1112 | the CSV decision is the whole-input one, and succeeds exactly when the header probe did, with the same checks |
| `Observers.MergeJsonObservations` | src/schema.rs:1220-1238 | one JSON record widens the types of its keys and of its flatten paths, and nothing else |
| `Observers.WidenToShape` | src/schema.rs:1192-1218 | laying key and path types over the key union gives every slot its whole-input type |
| `Observers.JsonObserver.Observe` | src/schema.rs:1168-1190 | a JSON record is folded in and rejected exactly when it violates the directive-derived checks |
| `Observers.JsonObserver.Finish` | src/schema.rs:1192-1218 | the JSONL decision resolves over all records and over the survivors of the derived checks |
| `Inputs.ResolutionHasChecks` | src/schema.rs:1054-1112 | resolution over the real observations succeeds exactly when the shape verdict does, with its checks |
| `Inputs.JsonPassReachesReference` | src/schema.rs:1131-1218 | judging before the shape is known reaches the same decision, or the same code, and the same survivors as judging after |
| `Materialization.BuildColumn` | src/schema.rs:2782-2868 | a column builder returns the coerced cell of every record, or fails when some cell does not coerce |
| `DeliveredCells.RowCellHolds` | src/schema.rs:2738-2868 | every delivered cell is null when its address finds nothing in its record, else holds what the value found there spells |
| `DeliveredCells.PathCellHoldsLeaf` | src/schema.rs:1557-1566 | a cell read along a path holds the leaf of the nested objects, or null when they have none or it is null |
| `Materialization.BuildChunk` | src/schema.rs:2738-2780 | a chunk builds column by column and assembles as the batch its fields and records define |
| `Materialization.BuildsIffBuildable` | src/schema.rs:2738-2780 | a chunk builds exactly when the plan has a field, every cell builds, and nulls fall only on nullable fields |
| `Materialization.MaterializationIsInfallible` | src/schema.rs:2738-2868 | every surviving record builds in every planned field, null only where the plan allows, under every directive |
| `Materialization.PlanHasFields` | src/schema.rs:1340-1407 | every resolved plan has at least one field |
| `Pins.ReadPin` | src/schema.rs:895-944 | reading a pin file accepts exactly version 1 with at least one field, unique names and known types |
| `Pins.WrittenPinReadsBack` | src/schema.rs:947-962 | a written pin reads back as itself exactly when it has a field and no two share a name |
| `Pins.ReadPinWritesBack` | src/schema.rs:890-962 | a readable file that spells out every nullability is written back as it was |
| `Pins.ReloadKeepsSurvivors` | src/schema.rs:2097-2134 | reloading against the written pin rejects and keeps exactly the same records |
| `Pins.PinConverges` | src/schema.rs:1899-1942 | a bootstrapped or extended pin converges: it reads back iff names are distinct, and then the reload has no conflict or drift, the same rejections and fields, and no new pin |
| `Pins.JsonlNamesDistinct` | src/schema.rs:1586-1725 | a JSONL load always has distinct dataset names, so its pin always reads back |
| `Pins.RepeatedHeaderPinIsRefused` | src/schema.rs:2695-2707 | a CSV header repeating a name loads and writes a pin that the next load refuses |
| `Sources.RowsAreConserved` | src/connector.rs:531-547 | survivors plus rejections are exactly the rows a pass counts |
| `SourceReads.KeyUnionHoldsKeys` | src/connector.rs:641-645 | the key union holds every key of every record once |
| `SourceReads.InsertKeys` | src/connector.rs:641-645 | the insertion loop grows the union in first-seen order and the set with it |
| `SourceReads.SweepCsv` | src/connector.rs:530-547 | the CSV loop observes every record, streams every rejection and counts every row |
| `SourceReads.ReadCsv` | src/connector.rs:530-580 | CSV pass 1 resolves the whole-input decision with every rejection in the sink, or fails with its code and the parse rejections alone |
| `SourceReads.SweepJsonl` | src/connector.rs:633-653 | the JSONL loop observes every record, streams parse rejections, spills early rejections and counts every row |
| `SourceReads.SpillConfirms` | src/connector.rs:691-693 | re-judging and merging the spill completes the artifact: it drops no spilled record and keeps source order |
| `SourceReads.ReadJsonl` | src/connector.rs:633-723 | JSONL pass 1 resolves the whole-input decision with every rejection in source order, or fails with its code and the parse rejections alone |
| `Rejections.RejectionSink.Record` | src/rejection.rs:112-121 | one rejection is appended, counted and its line listed |
| `Rejections.RejectionSink.MergeSpill` | src/rejection.rs:165-186 | the sink then holds the line-ordered merge of its own rejections and the spill's, with count and lines to match |
| `Rejections.NextSpillRejection` | src/rejection.rs:354-380 | the spill cursor skips entries that render to nothing and loses no rejection |
| `Rejections.MergeStreams` | src/rejection.rs:193-255 | the two-cursor loop writes the merge of both streams and lists its lines in written order |
| `Rejections.MergeIsPermutation` | src/rejection.rs:193-255 | the merged artifact holds exactly the rejections of both streams |
| `Rejections.MergeIsOrdered` | src/rejection.rs:193-255 | merging two strictly line-ordered streams without a common line keeps strict line order |
| `Rejections.SpillMergeIsSourceOrder` | src/rejection.rs:165-255 | spilling early rejections and merging them back equals one pass under the resolved checks |
| `Rejections.RejectionsAreOrdered` | src/rejection.rs:165-255 | the rejections of a line-ordered source are strictly line-ordered |
| `Fnv.HashState.Update` | src/connector.rs:2315-2321 | folding a read block advances the hash by exactly its bytes |
| `Fnv.FoldConcat` | src/connector.rs:2330-2348 | folding block by block is folding the whole, however reads split the bytes |
| `Fnv.HashReads` | src/connector.rs:2330-2348 | hashing a file by its reads gives the hash of its bytes |
| `Fnv.StepIsInjectiveInState` | src/connector.rs:2315-2321 | one hash step maps distinct states to distinct states modulo 2^64 |
| `Fnv.StepIsInjectiveInByte` | src/connector.rs:2315-2321 | one hash step maps distinct bytes to distinct states |
| `Fnv.SubstitutionChangesHash` | src/connector.rs:2407-2421 | substituting any single byte always changes the hash |
| `Fnv.KnownAnswers` | src/connector.rs:2315-2321 | the hashes of nothing and of one letter are those of 64-bit FNV-1a |
| `Chunks.ChunksConcatenate` | src/connector.rs:2474-2537 | chunks hold everything, in order |
| `Chunks.ChunkSizes` | src/connector.rs:2474-2537 | all chunks but the last are full, there is at least one, and only an only chunk is empty |
| `Chunks.ChunkCount` | src/connector.rs:2474-2537 | there are max(1, ceil(k / chunk_rows)) chunks for k survivors |
| `Streams.ChunkStream.NextChunk` | src/connector.rs:2474-2537 | each pull of the phase machine takes exactly the head of the stream's remaining run, its end, or its failure |
| `Streams.ChunkStream.Next` | src/connector.rs:2540-2556 | the iterator ends after a failure and never yields again |
| `StreamGuarantees.StreamCompletesExactly` | src/connector.rs:2433-2694 | over any file, pass 2 ends without failure exactly when header, every outcome, row count and hash match and every chunk builds; it then yielded the survivors cut into chunks |
| `StreamGuarantees.SweptIff` | src/connector.rs:2387-2402 | no item diverges if and only if each is rejected exactly when its line was and has no key pass 1 did not see; the records kept are those that break no check |
| `StreamGuarantees.ChangedRowNeverCompletes` | src/connector.rs:2387-2402 | a row that changed its outcome or gained a key fails the stream |
| `Replays.UnmodifiedSweeps` | src/connector.rs:2387-2402 | replaying the items of pass 1 diverges nowhere exactly when rows reported at one line share an outcome |
| `Replays.UnmodifiedSourceReplays` | src/connector.rs:2381-2694 | over an unmodified source pass 2 completes exactly under that condition, delivers the survivors, and conserves rows |
| `Replays.CsvReplays` | src/connector.rs:2433-2556 | the same for a CSV load, from what its pass 1 handed over |
| `Replays.JsonlReplays` | src/connector.rs:2559-2694 | an unmodified JSONL source always replays completely |
| `Replays.SharedLineDiverges` | src/connector.rs:2387-2402 | two CSV rows at one line, one of a wrong length and one not: pass 2 over the unmodified file fails with source_changed_during_load before its first chunk |
| `Retry.DelayIsExact` | src/retry.rs:142-148 | the saturating wait is min(initial * 2^(n-2), max) in unbounded arithmetic at every attempt |
| `Retry.DelaysNeverShrink` | src/retry.rs:142-148 | waits never shrink from one attempt to the next |
| `Retry.RunUnit` | src/retry.rs:93-136 | a unit retries while its failure is transient and budget remains; a never-retried one logs nothing, any other every failed attempt |
| `Retry.RunsAreBounded` | src/retry.rs:93-136 | a run makes at most max_attempts calls and sleeps exactly the logged waits, nondecreasing |
| `Retry.RunsUseTheirBudget` | src/retry.rs:93-136 | a failed run spent its budget or ended on a terminal failure, and every attempt before failed transiently |
| `Retry.OrderedLogIsUnique` | src/retry.rs:168-191 | two ordered logs of the same entries are one list, since unit and attempt are unique |
| `Retry.RenderedLogIsScheduleIndependent` | src/retry.rs:168-180 | rendering any interleaving of the attempts gives the one ordered list |
| `Dispatch.RunSerial` | src/dispatch.rs:92-126 | the serial loop ends as the first failing write, else the source, else a commit of every chunk, and logs in order |
| `Dispatch.EveryStateKeeps` | src/dispatch.rs:191-268 | every reachable state keeps in-flight within the window and splits dispatched chunks exactly into in-flight, written and failed |
| `Dispatch.NothingDispatchedAfterHalt` | src/dispatch.rs:200-206 | once halted, nothing more is dispatched |
| `Dispatch.RunsTerminate` | src/dispatch.rs:191-268 | over n chunks every run is over within 2n + 1 steps |
| `Dispatch.StuckIsDrained` | src/dispatch.rs:239-268 | the dispatcher stops exactly when nothing is in flight and nothing is left to pull |
| `Dispatch.LowestFailureIsFirst` | src/dispatch.rs:292-298 | the lowest recorded failure is the serial loop's, and every chunk below it was written |
| `Dispatch.DrainedDecidesAsSerial` | src/dispatch.rs:270-300 | for every schedule and window size the drained window commits or fails as the serial loop does |
| `Dispatch.RenderedLogIsSerial` | src/dispatch.rs:254-254 | whatever order completions arrive in, the rendered log is the serial one of the dispatched chunks |
| `Dispatch.RunWindowed` | src/dispatch.rs:177-300 | the windowed loop drains and ends as the serial loop would |
| `Dispatch.RunWritePhase` | src/dispatch.rs:58-88 | the phase's result does not depend on the parallelism, nor does its rendered log when it commits |
| `Sessions.DeliveryIsTheSerialEnding` | src/dispatch.rs:92-144 | driving a session commits after every chunk or surfaces the first refused write, else the source's failure |
| `DuckDbSessions.RefreshIsAtomic` | src/connector.rs:1323-1460 | a full refresh leaves exactly the chunks' rows or the old table, and failures report what the table holds |
| `DuckDbSessions.DuckDbFullRefreshWriter.Drive` | src/connector.rs:1377-1460 | the writer object, driven chunk by chunk through its methods to a commit or a drop, ends with exactly the chunks' rows or the old table, and reports what it holds |
| `DuckDbSessions.AppendHoldsCommitted` | src/connector.rs:1512-1583 | however writes interleave, the table holds exactly the committed chunks and the counters count them |
| `DuckDbSessions.AppendKeepsThePrefix` | src/connector.rs:1463-1583 | a serial append keeps exactly the chunks before the first that fails, and reports exactly those |
| `DuckDbSessions.AppendLabels` | src/connector.rs:1053-1067 | the code and facts of every ending of a serial append: best effort exactly when a write failed past alignment or something committed |
| `DuckDbSessions.DuckDbAppendWriter.Drive` | src/connector.rs:1512-1583 | the writer object driven serially holds exactly the chunks before the first that fails, and reports exactly those |
| `DuckDbSessions.MergeIsAtomicUpsert` | src/connector.rs:1823-1884 | the target takes the upsert exactly when staged keys are distinct and COMMIT happens; updated and inserted partition the stage |
| `DuckDbSessions.MergePhaseIsAtomic` | src/connector.rs:1790-1895 | the whole serial merge phase leaves that upsert of all chunks or the target untouched |
| `DuckDbSessions.DuckDbMergeWriter.Drive` | src/connector.rs:1790-1895 | the writer object driven serially leaves the upsert of all chunks or the target untouched, with exact counts of updated and inserted rows |
| `Upserts.GateIsExact` | src/connector.rs:1711-1727 | the duplicate-key count is zero exactly when staged key tuples are distinct, and never one |
| `Upserts.CountsPartitionTheStage` | src/connector.rs:1729-1742 | matched plus inserted rows are the staged rows, so the inserted count cannot underflow |
| `Upserts.TargetRowsUpserted` | src/connector.rs:1744-1787 | no row is deleted, unmatched target rows are unchanged, matched ones take the one staged row of their key |
| `Upserts.StagedRowsPresent` | src/connector.rs:1744-1787 | every staged row is in the merged table |
| `Upserts.MergingAgainChangesNothing` | src/connector.rs:1744-1787 | merging a stage again changes and inserts nothing exactly when no staged key holds a null |
| `Upserts.NullKeyIsInsertedTwice` | src/connector.rs:1744-1787 | one staged row with a null key, merged twice, leaves two rows |
| `Upserts.MergeIgnoresStagingOrder` | src/connector.rs:1744-1787 | the order of staging changes nothing but the order of the inserted rows |
| `SqlServerSessions.SqlRefreshIsAtomic` | src/sqlserver/session.rs:161-221 | a serial full refresh leaves exactly the chunks' rows when COMMIT happens, else the old table, and its commit finds a prepared session |
| `SqlServerSessions.SqlMergeIsAtomic` | src/sqlserver/session.rs:241-324 | a serial merge leaves the upsert when keys are distinct and COMMIT happens, else the target untouched |
| `SqlServerSessions.SqlAppendKeepsThePrefix` | src/sqlserver/session.rs:383-393 | a serial append gains the chunks before the first that fails, and one more when that one lost only its reply; the failure reports the former, so it is exact if and only if no reply was lost |
| `SqlServerSessions.LostReplyGoesUnreported` | src/sqlserver/session.rs:371-393 | one applied insert whose reply is lost: the table holds its row and the load reports nothing committed |
| `SqlServerSessions.SqlAppendLabels` | src/sqlserver/session.rs:343-393 | the code and facts of every ending of a serial append: a failed preparation has none, a failed send is best effort, a source failure is once a chunk counted |
| `SqlServerSessions.RefreshLeaksExactlyStrayRows` | src/sqlserver/session.rs:326-404 | for any writes in any order, a full refresh lets into the table before COMMIT exactly the rows applied after a rolled-back bulk failure, their replies lost or not |
| `SqlServerSessions.NewTableNeverLeaks` | src/sqlserver/session.rs:200-221 | a full refresh creating its table shows nothing before COMMIT, for any writes in any order |
| `SqlServerSessions.SerialWritesLeakNothing` | src/sqlserver/session.rs:343-404 | when no write follows a failed one, no row is stray |
| `SqlServerSessions.MergeWritesStayStaged` | src/sqlserver/session.rs:343-404 | whatever is written in any order, a merge's target is untouched until COMMIT |
| `SqlServerSessions.OnlyAppendCounts` | src/sqlserver/session.rs:383-393 | whatever is written in any order, only an append counts chunks and records |
| `SqlServerSessions.SqlServerWriter.Drive` | src/sqlserver/session.rs:326-454 | the writer object driven serially ends, mode by mode, as the three theorems above say: refresh and merge all or nothing, append its counted prefix and what a lost reply hides |
| `Interleavings.EveryStateKeeps` | src/dispatch.rs:177-268 | every reachable state of window and session together takes each dispatched chunk at most once and halts only over a failure |
| `Interleavings.DrainedPhase` | src/dispatch.rs:270-300 | a drained phase wrote each dispatched chunk once and commits exactly when the source ended well and every write was accepted |
| `Interleavings.SurfacedIsLowest` | src/dispatch.rs:292-300 | a drained phase surfaces a failure exactly when it halted, and the session accepted every chunk below the one it surfaces |
| `Interleavings.ListedRowsAreAllRows` | src/dispatch.rs:177-268 | any order that lists every chunk once writes exactly the chunks' rows |
| `Interleavings.WindowOfOneIsSerial` | src/dispatch.rs:78-88 | through a window of one, only the last write can have been refused |
| `LivePhases.LiveRunsAreDispatcherRuns` | src/dispatch.rs:177-268 | when answers depend on the chunk alone, every schedule of phase and session projects onto a run of the dispatcher |
| `LivePhases.LivePhaseEndsAsSerial` | src/dispatch.rs:270-300 | such a phase commits exactly when the serial loop would, else surfaces the very code the serial loop fails with; every chunk below the first failing one was accepted |
| `LivePhases.RefreshAnswersByIndex` | src/connector.rs:1378-1403 | in every state its writes reach, a DuckDB full refresh answers each write by its chunk alone |
| `LivePhases.AppendAnswersByIndex` | src/connector.rs:1513-1552 | in every state its writes reach, a DuckDB append answers each write by its chunk alone |
| `LivePhases.MergeAnswersByIndex` | src/connector.rs:1791-1821 | a DuckDB merge answers each write by its chunk alone |
| `LivePhases.SqlAppendAnswersByIndex` | src/sqlserver/session.rs:343-393 | a SQL Server append that never fails in preparing answers each write by its chunk alone |
| `ScheduledDuckDb.RefreshUnderAnySchedule` | src/connector.rs:1377-1460 | for every schedule a full refresh commits exactly when it may, leaves the chunks' rows or the old table, and a failure reports the chunks and records the table then holds of the load |
| `ScheduledDuckDb.AppendUnderAnySchedule` | src/connector.rs:1512-1583 | for every schedule the table gained exactly the accepted chunks, the report says so, and everything below the first failure is among them |
| `ScheduledDuckDb.MergeUnderAnySchedule` | src/connector.rs:1790-1895 | for every schedule a merge leaves the target untouched or merges as in source order up to the order of inserted rows, with the same updated and inserted counts and the same report |
| `ScheduledSqlServer.CommittedRefreshUnderAnySchedule` | src/sqlserver/session.rs:343-440 | for every schedule, once every chunk is accepted, a full refresh holds exactly the chunks' rows if COMMIT happens, else the old table; success is reported exactly when COMMIT is acknowledged, else nothing |
| `ScheduledSqlServer.HaltedReportsNothing` | src/sqlserver/session.rs:326-454 | for every schedule a halted full refresh or merge reports nothing committed |
| `ScheduledSqlServer.AbandonedRefreshLeaksStrayRows` | src/sqlserver/session.rs:326-454 | for every schedule an abandoned full refresh changed the table by exactly its stray rows, replies lost or not, and reports nothing |
| `ScheduledSqlServer.AbandonedRefreshOfNewTable` | src/sqlserver/session.rs:200-221 | for every schedule an abandoned full refresh of a new table leaves none, and reports nothing |
| `ScheduledSqlServer.SerialRefreshLeaksNothing` | src/connector.rs:2106-2108 | at the declared parallelism limit of one, an abandoned full refresh leaves the table untouched |
| `ScheduledSqlServer.WindowOfTwoCanLeak` | src/sqlserver/session.rs:326-404 | a window of two has a run that fails, is abandoned, and leaves a row in the table |
| `ScheduledSqlServer.MergeUnderAnySchedule` | src/sqlserver/session.rs:241-454 | for every schedule a merge leaves the target untouched or merges as in source order up to the order of inserted rows, with the same counts; a failure reports nothing |
| `ScheduledSqlServer.AppendUnderAnySchedule` | src/sqlserver/session.rs:343-404 | for every schedule the table gained exactly the applied chunks, every chunk below the surfaced failure is counted, and the report is exact if and only if every reply was heard |
| `ScheduledSqlServer.LostRepliesGoUncounted` | src/sqlserver/session.rs:383-393 | in any order the applied rows are at least those counted, and more exactly when a reply to a nonempty send was lost |
| `Datetimes.FromMicrosIsExact` | src/sqlserver.rs:446-457 | a timestamp converts exactly when it lies in years 0001 to 9999, and keeps its microsecond |
| `Datetimes.EveryDatetime2IsReached` | src/sqlserver.rs:446-457 | every DATETIME2(6) value is the conversion of exactly one timestamp |
| `Datetimes.DayConstantsAreCalendarDays` | src/sqlserver.rs:446-457 | the day constants are the calendar's own |
| `Datetimes.ClockReachesTheWire` | src/sqlserver.rs:446-470 | validated text of year 0000 has no DATETIME2 value; any later year keeps its calendar day and microsecond |
| `Datetimes.NearestTickIsNearest` | src/sqlserver.rs:253-280 | rounding errs by at most half a tick, rounds halves up and never reverses order |
| `Datetimes.DatetimeIsNearest` | src/sqlserver.rs:247-265 | DATETIME takes the nearest tick of the whole timeline and fails only when that tick leaves its range |
| `Datetimes.ScaledIsNearest` | src/sqlserver.rs:266-282 | a lower scale takes the nearest tick of the whole timeline and fails only past year 9999 |
| `Datetimes.AdaptedMomentIsNear` | src/sqlserver.rs:217-285 | whatever the column, an accepted timestamp stays within half a tick |
| `Datetimes.NarrowingIsExact` | src/sqlserver.rs:229-246 | narrowing an integer keeps its value and fails exactly when the column cannot hold it |
| `Datetimes.WidthsHoldTheirBits` | src/sqlserver.rs:229-246 | each integer width holds exactly the values of its bits |
| `Deliveries.DeliveredInOrder` | src/connector.rs:2474-2537 | the delivered batches hold the survivors' rows in source order, in at least one chunk |
| `Deliveries.SurvivingKeysPresent` | src/schema.rs:1416-1454 | no surviving record has a null in a merge key, whatever directive and transform made the key's field |
| `Loads.ReadSource` | src/lib.rs:893-902 | pass 1 of either format resolves the whole-input decision or fails as it does, undecided only without any field |
| `Loads.RowsReadAddUp` | src/lib.rs:903-903 | source rows less rejected rows is the number of survivors, so it cannot underflow |
| `Loads.UnmodifiedReplays` | src/connector.rs:2381-2694 | pass 2 of either format over an unmodified source completes exactly when rows at one line share an outcome |
| `Loads.Workspace.Execute` | src/lib.rs:890-1015 | read, threshold, pin, write phase: a load refused earlier leaves pin and destination as they were |
| `Loads.UnmodifiedLoadSucceeds` | src/lib.rs:986-1015 | an unmodified source loads exactly when lines decide outcomes and the destination accepts; written, rejected and chunk counts are exact |
| `Loads.ChangedByteNeverLoads` | src/connector.rs:2407-2421 | a source changed in one byte between the passes never loads, whatever it then parses to |
| `Loads.RefreshHoldsSurvivors` | src/lib.rs:954-975 | a DuckDB full refresh of an unmodified source leaves exactly the survivors' rows in source order, or the old table |
| `Loads.SqlRefreshHoldsSurvivors` | src/sqlserver/session.rs:161-221 | a SQL Server full refresh of an unmodified source leaves exactly the survivors' rows in source order, or the old table |
| `Loads.MergeUpsertsSurvivors` | src/connector.rs:1790-1895 | a DuckDB merge of an unmodified source upserts exactly the survivors' rows or nothing, and doing it twice is doing it once |
| `LoadedTables.JoinedLoad` | src/lib.rs:890-1015 | over any session that answers as the load is told, the load reports success exactly when the session commits, else the session's own failure; written plus rejected rows are the rows read |
| `LoadedTables.RefreshLoads` | src/connector.rs:1377-1460 | DuckDB full refresh: loaded if and only if every write executes, COMMIT happens and the session closes; the table is then exactly the survivors' rows, with exact counts |
| `LoadedTables.AppendLoads` | src/connector.rs:1512-1583 | DuckDB append: loaded if and only if every chunk inserts and the session closes; the table gained the chunks before the first that fails |
| `LoadedTables.MergeLoads` | src/connector.rs:1790-1895 | DuckDB merge: loaded if and only if survivors' keys are distinct, every chunk is staged and the session completes; the counts are those of the upsert, and merging again changes nothing |
| `LoadedTables.SqlRefreshLoads` | src/sqlserver/session.rs:161-440 | SQL Server full refresh: loaded if and only if every chunk is accepted and COMMIT is acknowledged; the table is the survivors' rows exactly when COMMIT happens |
| `LoadedTables.SqlAppendLoads` | src/sqlserver/session.rs:343-404 | SQL Server append: loaded if and only if every chunk is counted; a failed one leaves the counted chunks, and one more when only its reply was lost |
| `LoadedTables.SqlMergeLoads` | src/sqlserver/session.rs:241-440 | SQL Server merge: loaded if and only if survivors' keys are distinct, every chunk is accepted and COMMIT is acknowledged; the target takes the upsert exactly when COMMIT happens |
| `Loads.ResolveDirective` | src/lib.rs:1165-1199 | without a pinned path the load infers; with one, a missing file is bootstrapped, a readable pin is validated against, an unreadable or malformed file refuses the load |
| `Loads.Workspace.Load` | src/lib.rs:878-1015 | the directive comes from the pin file; one that cannot be read, or is no pin, refuses the load before anything is read or written |
| `Loads.RepeatedLoadConverges` | src/lib.rs:919-932 | the pin a load leaves is accepted iff dataset names are distinct; the same load again then has the same fields and counts, proceeds, and leaves the pin as it is |
| `LoadedValues.CsvRowsLoaded` | src/lib.rs:890-1015 | every row a CSV load delivers is a row of the file of the header's length: each cell null when its text is empty, else what the text spells as the field's type |
| `LoadedValues.JsonlRowsLoaded` | src/lib.rs:890-1015 | every row a JSONL load delivers is an object line of the file, each cell what the field's address finds in it |
| `LoadedValues.FailPolicyKeepsPinFile` | src/lib.rs:919-932 | under the failing policy no load changes a readable pin file, and the loaded fields are the pin's in order |
| `LoadedValues.ThresholdDecides` | src/lib.rs:903-917 | a resolved source is refused for its rejections if and only if more rows than the threshold allows do not survive |
| `LoadedValues.UnresolvedIsRefused` | src/lib.rs:555-566 | an unresolved schema refuses the load with its own code; a source without fields with the threshold's when its rejections exceed it |
| `LoadedValues.LoadedSourceRepeats` | src/connector.rs:2433-2694 | a load succeeds only over a source that replays with its header, row count, keys, rejections and hash |

## Left out

- Parquet sources and destinations: the full-refresh commit removes and then renames, which is only best effort.
- Files, CSV and JSON parsing, DuckDB, the TDS protocol and YAML as text: the model starts from parsed rows, records, key maps and statements.
- SQL text, identifier quoting, collations and column types: a key cell stands for its value up to the database's equality, and a bulk send or an insert that a column refuses is a parameter.
- Table shape validation and alignment rules against an existing table: a column or key that does not fit is a parameter of the write that finds it.
- I/O errors while reading a source, writing the rejection artifact or reading the spill back.
- A pinned schema file that is half written when persisting it fails: the model leaves the old content.
- Offline configuration checks outside the transform and override blocks, credentials, connection setup and timeouts.
- Retries inside the composition of dispatcher and session: every failure the modelled sessions report is terminal, so each write is one attempt there. The dispatcher is also proved alone, with retries.
- COMMIT replies lost on the way from DuckDB, which runs in process.
- A SQL Server transaction begun a second time inside one the server still holds because a rollback never reached it. A rollback that never arrives is a parameter of each write.
- A SQL Server bulk send that is applied in part: it is applied whole, with or without its reply, or not at all.
- Columns of a target table that the dataset does not have: a merge leaves them to their defaults.
- IEEE values of floats: the model decides whether text is a finite float, not which double it is.
- Hash collisions beyond the substitution of a single byte.
- The load report, its JSON layout, rejection wording, misfit causes, byte counts and timings.
- ScheduledDuckDb.MergeUnderAnySchedule: states the merged table up to the order of its inserted rows, because concurrent writes stage them in any order.
- ScheduledSqlServer.MergeUnderAnySchedule: states the merged table up to the order of its inserted rows, for the same reason.
- ScheduledDuckDb.RefreshUnderAnySchedule: states the table up to the order of its rows, because chunks land in any order.
- ScheduledSqlServer.CommittedRefreshUnderAnySchedule: states the table up to the order of its rows, because chunks land in any order.
- Rejections.MergeIsOrdered: needs the two streams to share no line, which JSONL line numbers guarantee.
- SourceReads.ReadCsv: does not model a rejection artifact that cannot be written; opening the source comes before it.
- SourceReads.SweepJsonl: does not model a source that stops being readable midway.
- SourceReads.ReadJsonl: does not model a source that stops being readable midway.
- Rejections.RejectionSink.Record: does not model an artifact that cannot be written, which stops further lines and fails the load later.
- Rejections.RejectionSink.MergeSpill: does not model a spill or artifact that cannot be read or written, nor the JSON text a spilled record passes through.
- Dispatch.RunWindowed: does not model a writer that panics, which the dispatcher re-raises after its drain.
- Loads.Workspace.Execute: starts from a validated definition; the byte counts and the retry story of its report are not modelled.
- Loads.ResolveDirective: starts from a validated transform, overrides and drift policy.
- Loads.Workspace.Load: starts from a validated definition with its connectors set up.
