# Evaluation harness and operator scripts: a model and its proofs

This project models, in Dafny, the algorithms inside the evaluation harness and the operator scripts
of an AI backend, and proves what they keep over all inputs, runs and schedules. One module per
component:

- `CompactionReplay`: replaying recorded conversations under a context ceiling.
- `CsvReader`, `CsvPrinter`, `NumberReader`, `ContentCheck`: the lenient CSV reader, a printer for the
  format of section 2 of RFC 4180 that it inverts, the reader of numbers in either decimal convention,
  and the content check built on them.
- `StreamReducer`, `EventStream`, `TurnRecords`: reading a turn off a stream of server-sent events in
  arbitrary chunks and reducing its frames to what the turn did, which `TurnRecords` says of the JSON
  records alone.
- `WorkerPool`, `DecisionQueue`: workers on a shared cursor, as a state machine over its atomic steps,
  and the decision eval's queue on top of it.
- `FleetManifest`: bringing a registry of models to a manifest.
- `CacheAccounting`: why the prompt cache did not return what it could have.
- `HistoryGenerator`: seeded generation of histories of a wanted size.
- `TextMatch`: matching a phrase by meaning and not by typography.
- `MigrationLint`: splitting a migration into statements.
- `Text`, `Numbers`, `Json`: the string operations, the arithmetic and the parsed values they share.

Code that updates state is modelled as classes and methods with loops, each proved against a
specification function; what the code promises is then proved of those functions. `dafny verify
dfyconfig.toml` verifies everything.

What the model takes as a parameter: the clock, JSON parsing, lower-casing and folding of characters,
the answers of catalogues, engines and tasks, token counting, and which registry writes fail. The
theorems hold for every choice of these, or state what they assume of them.

## Where the code and its own words part

The model follows the code. These are the places where a promise in a comment holds only on a
condition, which is proved exactly:

- The manifest "wins" over the price cap (comment at apply-fleet-manifest.ts:229-231), but the switch
  lists are drawn up before promotion. One apply settles a row if and only if it was published, or its
  flag differed, or its price decides as the manifest does; a second apply always settles it
  (`OneApplyConvergesIff`, `ManifestDoesNotAlwaysWin`, `TwoAppliesConvergeIff`).
- A dry run foretells the apply if and only if nothing would be created and every bound role has its row:
  it can say that there is nothing to do while rows are missing, and show a plan that the apply never
  gets to (`DryRunForeseesIff`, `DryRunMissesCreation`, `DryRunMissesRoles`).
- A number with at most three digits, one separator and three decimals is read as thousands, so 0.125
  is 125; every other formatted number is read back (`ReadsBackIff`, `EighthIsMisread`).
- Comments are stripped from migrations so that no rule fires on prose (lint-migrations.ts:103-105); they
  all are if and only if no line has a line terminator behind its first two dashes, so with CR LF endings
  only the last line's is (`CommentsStrippedIff`, `LfFilesAreStripped`, `CrKeepsComments`).
- "One lane per (conversation, model)" (langfuse-metrics.ts:261) holds for given conversation ids if and
  only if none of them begins with another one followed by `|chat `; else a call of one conversation can be
  filed, and weighed, with another's (`LanesAreConversationsIff`, `ConversationsArePaired`).
- The pool "resolves when every task has been awaited" (runner.ts:256); a missing item costs a worker,
  and all others are served exactly when before each of them fewer are missing than there are workers
  (`AllServedIff`, `HoleTakesTheOnlyWorker`).

## Model

| member | source | states |
|---|---|---|
| CompactionReplay.Simulate | packages/ai/scripts/measure-context-distribution.ts:422-444 | the two nested loops, with one running total and a reduction restarted per conversation, compute the sum over conversations of the call-by-call replay |
| CompactionReplay.BillsAdd | packages/ai/scripts/measure-context-distribution.ts:422-444 | replaying two lists of conversations gives the sums of the tokens and of the cuts of each |
| CompactionReplay.BillIgnoresOrder | packages/ai/scripts/measure-context-distribution.ts:425 | and so the order of the conversations does not matter |
| CompactionReplay.BillOfOne | packages/ai/scripts/measure-context-distribution.ts:426-441 | one conversation alone is billed what its calls show and 2 500 and 38 000 tokens for every cut |
| CompactionReplay.BillWithoutCeiling | packages/ai/scripts/measure-context-distribution.ts:428-446 | without a ceiling nothing is cut, and the bill is the sum over all calls of the call or 38 000, whichever is more |
| CompactionReplay.BillOfAnyCeiling | packages/ai/scripts/measure-context-distribution.ts:426-441 | at any ceiling, below the floor too: every call shows its input less what former cuts took off, 38 000 at least; tokens, cuts and reduction are sums over what is shown |
| CompactionReplay.LowerCeilingCutsNoLess | packages/ai/scripts/measure-context-distribution.ts:427-441 | for every conversation and any two ceilings, none counting as the highest: the lower ceiling never cuts less often |
| CompactionReplay.LowerCeilingCutsNoLessInTotal | packages/ai/scripts/measure-context-distribution.ts:422-444 | the same for the total over any list of conversations |
| CompactionReplay.RunsStayCoupled | packages/ai/scripts/measure-context-distribution.ts:430-440 | what two replays of one conversation keep between them: their reductions lead one another by less than a full cut, and the lower ceiling is a cut ahead whenever its reduction leads |
| CompactionReplay.ReductionIsNotMonotone | packages/ai/scripts/measure-context-distribution.ts:439 | two conversations on which the reduction is larger, and smaller, under the lower ceiling, so that the coupling cannot be replaced by monotonicity |
| CompactionReplay.ReplayRemembersTheLastCut | packages/ai/scripts/measure-context-distribution.ts:430-440 | at a ceiling not below the floor the replay equals one without a running reduction: the cuts are the calls that exceed ceiling plus last cut, the reduction is the last cut less the floor, and the bill is what the calls show plus summary and floor per cut |
| CompactionReplay.CutsClimb | packages/ai/scripts/measure-context-distribution.ts:430-439 | each cut call exceeds the ceiling plus what the previous cut took off, and is one of the calls |
| CompactionReplay.CutExactlyWhenPeakCrosses | packages/ai/scripts/measure-context-distribution.ts:431 | a conversation is cut at all exactly when its largest call is above the ceiling |
| CompactionReplay.CutsBoundedByPeak | packages/ai/scripts/measure-context-distribution.ts:404-440 | cuts times (ceiling - floor + 1) is at most the largest call's height over the floor |
| CompactionReplay.ConversationCostsAtMost | packages/ai/scripts/measure-context-distribution.ts:430-440 | a capped conversation costs at most the uncapped one plus summary and floor for every cut |
| CompactionReplay.CappedBillAtMost | packages/ai/scripts/measure-context-distribution.ts:422-464 | the same bound for the whole simulated bill |
| CsvReader.DetectDelimiter | packages/ai/evals/file-content-check.ts:76-88 | the loop over the candidates finds the champion of the first line |
| CsvReader.SniffedIsFirstMostFrequent | packages/ai/evals/file-content-check.ts:76-88 | no candidate occurs more often than the sniffed one, no earlier one as often, and a comma is the default |
| CsvReader.SniffedByCounts | packages/ai/evals/file-content-check.ts:76-88 | semicolons, commas and tabs before the first line break are counted: the most win, in that order if they tie, and a comma if there are none |
| CsvReader.ParseCsv | packages/ai/evals/file-content-check.ts:96-129 | the index loop over row, field, inQuotes and rows, with its lookahead and skipped index, computes the scan of the text with the given or the sniffed delimiter, blank rows dropped |
| CsvReader.DropBlankKeepsTheRest | packages/ai/evals/file-content-check.ts:128 | only rows that are one empty cell are dropped, and every other row is kept as often as it occurs |
| CsvReader.DropBlankKeepsOrder | packages/ai/evals/file-content-check.ts:128 | what is kept are the rows at the positions that are not blank, all of them, in their order |
| CsvReader.ScanInTwoPartsIff | packages/ai/evals/file-content-check.ts:103-123 | the scan of two texts in a row is the scan of the second from where the first ended if and only if the cut does not separate a closing quote from another quote |
| CsvReader.ParseIsCompositional | packages/ai/evals/file-content-check.ts:103-128 | if the first part ends outside quotes, the rows of first part, LF, second part are the rows of the parts one after the other |
| CsvReader.ParseComposesIff | packages/ai/evals/file-content-check.ts:103-128 | a part composes so with every second part if and only if it ends outside quotes |
| CsvReader.QuotedBreakIsContent | packages/ai/evals/file-content-check.ts:106-113 | inside quotes the same line break is content: for all ordinary texts the joined parts are one field and the parts alone are two rows |
| CsvReader.QuotesOnlySwitch | packages/ai/evals/file-content-check.ts:106-123 | quotes need not stand around a cell: wherever they are they only switch, and are no content |
| CsvReader.QuoteFreeTextIsSplitNaively | packages/ai/evals/file-content-check.ts:114-128 | text without quotes is read as splitting at LF and delimiter does, CRs ignored and blank rows dropped |
| CsvPrinter.ScanEscaped | packages/ai/evals/file-content-check.ts:106-112 | the reader undoes the doubling of quotes inside a quoted cell |
| CsvPrinter.RoundTrip | packages/ai/evals/file-content-check.ts:96-129 | for every grid, delimiter other than quote, CR and LF, choice of line break per row, choice of quotes where they are optional, with or without a final break: reading the printed text gives the grid less its blank rows |
| CsvPrinter.GridsSurvive | packages/ai/evals/file-content-check.ts:96-129 | every grid without empty and blank rows can be printed, and is read back exactly |
| CsvPrinter.PlainHeaderIsSniffed | packages/ai/evals/file-content-check.ts:76-88 | under a header of at least two unquoted columns free of candidates the sniffer finds the delimiter the text was printed with |
| NumberReader.LocaleSymmetric | packages/ai/evals/file-content-check.ts:157-180 | for every string, writing commas as points and points as commas leaves the reading, number or null, unchanged |
| NumberReader.ReadsFormatted | packages/ai/evals/file-content-check.ts:149-180 | any text that spells a signed number formatted in either convention, grouped or not, with any fraction, and with white space, euro, dollar, pound and percent signs put in anywhere, gives sign, digits and scale back, except that at most three digits, a lone separator and exactly three digits are read as a whole number |
| NumberReader.LooseGroupsAreRead | packages/ai/evals/file-content-check.ts:163-167 | with both separators the groups in front may have any size: the last separator is the decimal one |
| NumberReader.DigitsWriteTheirValue | packages/ai/evals/file-content-check.ts:179 | the digits read are worth the number that they write |
| NumberReader.ForeignIsNoNumber | packages/ai/evals/file-content-check.ts:157-178 | behind an optional sign any character but digits, comma, point and those that may stand anywhere makes the text no number, as does a text of nothing else |
| NumberReader.ReadsBackIff | packages/ai/evals/file-content-check.ts:149-180 | the number read is the number written if and only if it is not of that form or is zero |
| NumberReader.EighthIsMisread | packages/ai/evals/file-content-check.ts:174-177 | the concrete input 0.125 is read as 125 |
| ContentCheck.CheckCsv | packages/ai/evals/file-content-check.ts:253-282 | the check passes exactly when the parsed grid is accepted; else the verdict names what is wrong, and everything looked at before it (columns as listed, exact count, least count, wanted rows as listed) is in order |
| ContentCheck.KeyedPairsUp | packages/ai/evals/file-content-check.ts:137-147 | with distinct column names a record holds each column beside the cell in its place |
| ContentCheck.KeyedHoldsLast | packages/ai/evals/file-content-check.ts:137-147 | under any header a name holds the cell of its last column, and empty text if the row is too short |
| ContentCheck.ColValueIsFirst | packages/ai/evals/file-content-check.ts:201-210 | the value of a column is that of the first key with the same fold, and there is none exactly when no key has it |
| ContentCheck.CellEqualsIff | packages/ai/evals/file-content-check.ts:187-199 | a wanted number is met by a cell that reads as digits at a scale and differs from it by less than a millionth on either side; a wanted text by the same closeness if both read as numbers, and else by its fold |
| ContentCheck.TextsMeetAlike | packages/ai/evals/file-content-check.ts:195-198 | between two texts it does not matter which one was wanted |
| ContentCheck.AcceptsIffMeets | packages/ai/evals/file-content-check.ts:257-282 | for a rectangular table with columns distinct under the fold, going through records, column lookup and cell equality is the same as finding the columns, counting the rows, and matching cells in place as `CellEqualsIff` says |
| ContentCheck.PrintedTableIsJudgedByContent | packages/ai/evals/file-content-check.ts:253-282 | end to end: a printed table of at least two columns whose delimiter dominates the first line is accepted if and only if the table meets the expectation, for every fold |
| StreamReducer.StreamState.constructor | packages/ai/evals/http-client.ts:191-204 | a new state is empty |
| StreamReducer.StreamState.AbsorbChunk | packages/ai/evals/http-client.ts:213-316 | what one frame does to the twelve fields, and what it leaves alone |
| StreamReducer.StreamState.AbsorbMessageMetadata | packages/ai/evals/http-client.ts:322-369 | trace, serving agent, profile, spend and usage are each replaced when given and kept when not |
| StreamReducer.IgnorableFramesLeaveNoTrace | packages/ai/evals/http-client.ts:213-316 | taking out preliminary outputs, non-terminal errors and unknown types from any stream changes nothing of the result |
| StreamReducer.CallsAreFinalOutputs | packages/ai/evals/http-client.ts:262-300 | one recorded call per non-preliminary output, in order, with name, input and start of the latest earlier dispatch of its id and the latency since |
| StreamReducer.InputsAreLatestDispatches | packages/ai/evals/http-client.ts:262-275 | an id is open exactly when it was ever dispatched, with its latest dispatch |
| StreamReducer.ErrorIsFirstTerminal | packages/ai/evals/http-client.ts:231-260 | the error kept is the first one that ends the turn |
| StreamReducer.FirstOutputIsTimed | packages/ai/evals/http-client.ts:216-218 | first output is timed at the first frame a reader could see |
| StreamReducer.TraceIsLastNamedOrFirstError | packages/ai/evals/http-client.ts:245-258 | the trace is the one metadata named last; without any, the first that a terminal error carries |
| StreamReducer.LastWordOnTheAnswer | packages/ai/evals/http-client.ts:302-368 | server, model profile, usage, spend and finish reason are those of the last frame that gives them |
| StreamReducer.TextIsDeltasInOrder | packages/ai/evals/http-client.ts:220-224 | the text parts are the deltas of the frames that carry one, in stream order, and no others |
| StreamReducer.StepsAreStartFrames | packages/ai/evals/http-client.ts:225-230 | the step count is the number of start-step frames |
| TurnRecords.TextByRecords | packages/ai/evals/http-client.ts:220-224 | after any list of JSON records the text parts are the `delta` strings of exactly the records of type `text-delta`, in order |
| TurnRecords.StepsByRecords | packages/ai/evals/http-client.ts:225-230 | the steps are the number of records of type `start-step` |
| TurnRecords.FirstOutputByRecords | packages/ai/evals/http-client.ts:206-218 | first output is timed at the first record of type `text-delta`, `reasoning-delta` or `tool-input-start` |
| TurnRecords.ErrorByRecords | packages/ai/evals/http-client.ts:231-260 | the error is the `errorText` of the first record of type `error` that is none of the four notices |
| TurnRecords.InputsByRecords | packages/ai/evals/http-client.ts:262-275 | an id is open exactly when a `tool-input-available` record named it and a tool; its entry is name, `input` and time of the last such record |
| TurnRecords.CallsByRecords | packages/ai/evals/http-client.ts:277-300 | one call per `tool-output-available` record that is not preliminary, in order: its `output`, and name, input and start of the last earlier dispatch of its id; start and latency add up to the time of the output |
| TurnRecords.NamesByRecords | packages/ai/evals/http-client.ts:302-344 | server, model profile and finish reason are the strings at their keys in the last record of the right type that has one |
| TurnRecords.UsageByRecords | packages/ai/evals/http-client.ts:363-368 | usage is the three numbers at their keys in the last `finish` or `message-metadata` record with a usage object |
| TurnRecords.SpendByRecords | packages/ai/evals/http-client.ts:345-361 | spend is the totals and agents at their keys in the last such record whose spend has a total |
| TurnRecords.TraceByRecords | packages/ai/evals/http-client.ts:245-330 | the trace is the one metadata named last; without any, the one inside the first error that carries one |
| EventStream.CuttingResumes | packages/ai/evals/http-client.ts:412-414 | cutting at double line feeds can stop at any character and resume from the unfinished frame |
| EventStream.CutAnyhow | packages/ai/evals/http-client.ts:404-418 | for every list of chunks the frames completed so far and the carry-over are the cut of all the text so far |
| EventStream.FinalCrIsImmaterial | packages/ai/evals/http-client.ts:145-148 | a CR left at the end of a line by a frame break never reaches the parsed record |
| EventStream.BlankLineSeparates | packages/ai/evals/http-client.ts:143-157 | parsing two texts with a blank line between them is parsing each |
| EventStream.FramesCarryAllPayloads | packages/ai/evals/http-client.ts:143-157 | parsing every frame of a text, runs of line feeds included, gives the records of the text as a whole |
| EventStream.ChunkingIsImmaterial | packages/ai/evals/http-client.ts:404-421 | however a text is cut into chunks, the reducer is fed the records of the whole text |
| EventStream.ReadStream | packages/ai/evals/http-client.ts:391-421 | the buffering loop over chunks ends in the state of the turn its whole text holds |
| EventStream.SentIsRead | packages/ai/evals/http-client.ts:138-157 | records written one to a data frame are read back one for one, in order |
| EventStream.DataLineHolds | packages/ai/evals/http-client.ts:143-157 | a line holds what stands behind `data:`, white space around it taken off, if that parses to an object or array; the end mark and empty text hold nothing |
| EventStream.OtherLinesHoldNothing | packages/ai/evals/http-client.ts:145-146 | lines that do not begin with `data:` hold nothing |
| WorkerPool.EveryScheduleIsSafe | packages/ai/evals/runner.ts:257-276 | under every schedule the started items are those below the cursor in order, none twice; each is finished, in flight or failed exactly once; and no more are in flight than the concurrency or the items |
| WorkerPool.PoolIsThatWide | packages/ai/evals/runner.ts:271-274 | and some schedule has min(concurrency, items) tasks in flight |
| WorkerPool.SettledOutcome | packages/ai/evals/runner.ts:257-276 | once all workers are over without failure, which items finished does not depend on the schedule |
| WorkerPool.AllServedIff | packages/ai/evals/runner.ts:263-269 | with missing items: all others finish exactly when before each of them fewer items are missing than there are workers |
| WorkerPool.HoleTakesTheOnlyWorker | packages/ai/evals/runner.ts:263-269 | one worker, a missing item in front: the pool is settled after one step and the other item was never started |
| WorkerPool.CompleteWithoutHoles | packages/ai/evals/runner.ts:257-276 | with a worker and no missing item every item finishes exactly once |
| WorkerPool.SchedulesAreFinite | packages/ai/evals/runner.ts:263-269 | every schedule is at most twice the items plus the workers long, and at each step less remains |
| WorkerPool.SomeStepUntilSettled | packages/ai/evals/runner.ts:263-275 | until all workers are over some step can be taken |
| DecisionQueue.ResultsAreAttempts | packages/ai/evals/decisions/run.ts:113-125 | under every schedule the list kept for a case is the attempts of its finished jobs, in finishing order: none lost, misfiled or reordered |
| DecisionQueue.EveryCaseGetsItsRepeats | packages/ai/evals/decisions/run.ts:112-131 | when the queue has settled without failure a case has exactly its number of repeats for each entry that bears its id |
| DecisionQueue.Ask | packages/ai/evals/decisions/run.ts:79-89 | a refused question is asked again at most three times; the answer is the first not refused, or the fourth |
| FleetManifest.Registry.CreateMissing | packages/ai/scripts/apply-fleet-manifest.ts:96-128 | a dry run lists and writes nothing; otherwise absent rows are created once, as far as the catalogue allows, and both lists hold, in order, the entries at which a row was created or refused |
| FleetManifest.Registry.Diff | packages/ai/scripts/apply-fleet-manifest.ts:180-193 | the loop draws up exactly the keys to promote, enable, disable and skip |
| FleetManifest.Registry.PromoteModels | packages/shared/src/services/model-registry/admin.ts:313-379 | the batch publishes each unpublished row present and writable, enabled by its price, and leaves the rest |
| FleetManifest.Registry.SetModelsEnabled | packages/shared/src/services/model-registry/admin.ts:228-253 | the batch sets the flag and its reason on each row present and writable, and leaves the rest |
| FleetManifest.Registry.Apply | packages/ai/scripts/apply-fleet-manifest.ts:96-251 | the passes in order: rows, outcome and plan are those of the passes on values; a dry run changes nothing, a role without a row stops the run after the creations, otherwise the plan drawn up before promotion is carried out |
| FleetManifest.AppliedPointwise | packages/ai/scripts/apply-fleet-manifest.ts:96-251 | one apply, row by row: created if absent, promoted if unpublished, switched if its flag before promotion differed from the manifest |
| FleetManifest.KnownRowByFields | packages/ai/scripts/apply-fleet-manifest.ts:180-251 | a row there was ends published at its price, its flag the manifest's if the two differed, else its own if it was published, else whether it costs at most 2 dollars in and 8 out; the reason follows the flag |
| FleetManifest.NewRowByFields | packages/ai/scripts/apply-fleet-manifest.ts:96-251 | a row there was not exists after an apply exactly if a catalogue knows its model id, published at that price, enabled if the manifest says so or it is that cheap |
| FleetManifest.CreatedRowByFields | packages/ai/scripts/apply-fleet-manifest.ts:99-128 | what creation alone writes is a disabled candidate at the catalogue's price |
| FleetManifest.OutsidersUntouched | packages/ai/scripts/apply-fleet-manifest.ts:96-251 | rows the manifest does not name never change |
| FleetManifest.OneApplyPublishes | packages/ai/scripts/apply-fleet-manifest.ts:223-251 | every entry present and writable ends published at its own price, and entries already published end with the manifest's flag |
| FleetManifest.OneApplyConvergesIff | packages/ai/scripts/apply-fleet-manifest.ts:229-251 | one apply leaves nothing to do if and only if every row was published, or differed in its flag, or has a price that decides as the manifest does |
| FleetManifest.TwoAppliesConverge | packages/ai/scripts/apply-fleet-manifest.ts:30-31 | after two applies a third creates nothing, plans nothing and changes nothing, repeated keys included as long as they agree on the flag |
| FleetManifest.TwoAppliesConvergeIff | packages/ai/scripts/apply-fleet-manifest.ts:180-193 | two applies leave nothing to do if and only if entries of one key, known or creatable, agree on its flag |
| FleetManifest.PlanEmptyIffMatching | packages/ai/scripts/apply-fleet-manifest.ts:180-207 | nothing to do means exactly that every row present is published with the manifest's flag |
| FleetManifest.ManifestDoesNotAlwaysWin | packages/ai/scripts/apply-fleet-manifest.ts:229-231 | in every registry that serves its roles and lacks the row, a cheap model disabled in the manifest is published and enabled by one apply |
| FleetManifest.ConflictingEntriesNeverSettle | packages/ai/scripts/apply-fleet-manifest.ts:180-193 | two entries of one key with different flags leave something to do in every registry that has the row |
| FleetManifest.DryRunForeseesIff | packages/ai/scripts/apply-fleet-manifest.ts:112-216 | the apply ends as the dry run announced, with nothing to do or with the very plan shown carried out, if and only if nothing would be created and every bound role has its row |
| FleetManifest.DryRunMissesCreation | packages/ai/scripts/apply-fleet-manifest.ts:112-115 | in every registry that serves its roles, for a missing and creatable row: the dry run finds nothing to do, and the apply creates and publishes it |
| FleetManifest.DryRunMissesRoles | packages/ai/scripts/apply-fleet-manifest.ts:158-169 | with a role unserved the dry run shows a plan, and the apply stops with every row as it was |
| CacheAccounting.RunCache | packages/ai/scripts/langfuse-metrics.ts:252-325 | selection by name, session and environment, grouping, the stable sort of each lane and the nested loops, writing through whichever bucket and ratio a pair belongs to, compute the books of the sorted lanes pair by pair, and the spend |
| CacheAccounting.ChatIsOfTheseRows | packages/ai/scripts/langfuse-metrics.ts:252-259 | the calls and the spend are those of exactly the observations named with the chat prefix, with a session, in the environment |
| CacheAccounting.ArrivalOrderIsImmaterial | packages/ai/scripts/langfuse-metrics.ts:261-286 | while calls of a lane that start together are equal, any order of the calls gives the same books |
| CacheAccounting.PageOrderIsImmaterial | packages/ai/scripts/langfuse-metrics.ts:237-286 | and so does any order of the observations they are selected from |
| CacheAccounting.TiesDecide | packages/ai/scripts/langfuse-metrics.ts:286-301 | of two calls of a lane that start together and differ in input, the order of arrival decides whether they form a pair |
| CacheAccounting.LanesInAnyOrder | packages/ai/scripts/langfuse-metrics.ts:285 | the order in which lanes are taken does not matter |
| CacheAccounting.OneOrderOnly | packages/ai/scripts/langfuse-metrics.ts:286 | calls whose ties are equal have exactly one sorted order, whatever the sort |
| CacheAccounting.LanesHoldEveryCallOnce | packages/ai/scripts/langfuse-metrics.ts:259-269 | grouping files every call once: whatever the calls weigh (their cost, or one each), lanes and calls weigh the same |
| CacheAccounting.CacheAccountsBalance | packages/ai/scripts/langfuse-metrics.ts:303-323 | for all lanes: lost by provider change plus lost by prefix is lost at new turns plus lost within turns; warm calls lose nothing; every pair that counts is in one bucket; no ratio misses more than was lost |
| CacheAccounting.BooksAreTotals | packages/ai/scripts/langfuse-metrics.ts:313-323 | each bucket and each position holds the total over exactly its own pairs |
| CacheAccounting.BooksByFields | packages/ai/scripts/langfuse-metrics.ts:287-323 | by the fields of the calls: each bucket holds the count, losses, inputs, reads and costs of the neighbouring calls with a prompt that did not shrink, within 300 seconds, that lost and changed provider, lost and did not, or lost nothing; each position and ratio likewise by trace |
| CacheAccounting.RatioTellsTheLossIff | packages/ai/scripts/langfuse-metrics.ts:283-313 | a ratio misses exactly the tokens lost at its position if and only if no call there reads back more than the call before it sent |
| CacheAccounting.BucketsWithinSpend | packages/ai/scripts/langfuse-metrics.ts:259-319 | no call is priced twice: the buckets hold at most what was spent |
| CacheAccounting.RecoverableWithinSpend | packages/ai/scripts/langfuse-metrics.ts:259-363 | from the calls as they arrived to the report: the recoverable total is never negative and never above the spend |
| CacheAccounting.RecoverableIsExcess | packages/ai/scripts/langfuse-metrics.ts:327-331 | what is recoverable is what a bucket cost beyond its input at the price of the warm calls, if anything |
| CacheAccounting.GroupLanes | packages/ai/scripts/langfuse-metrics.ts:263-269 | each lane holds the calls of its key in arrival order, and the keys stand in order of first appearance |
| CacheAccounting.LanesAreKeyedApart | packages/ai/scripts/langfuse-metrics.ts:254-265 | ids of which neither begins with the other, a bar and a chat prefix are keyed apart under all chat names |
| CacheAccounting.SharesWithShorterIff | packages/ai/scripts/langfuse-metrics.ts:254-265 | an id shares a key with a shorter one under two chat names if and only if it contains a bar followed by the word chat and a space |
| CacheAccounting.LaneIsOneConversation | packages/ai/scripts/langfuse-metrics.ts:252-269 | a lane holds exactly the calls of one conversation on one model, in order, when no other id runs into its own that way, or its own into it |
| CacheAccounting.LanesAreConversationsIff | packages/ai/scripts/langfuse-metrics.ts:261-269 | for given ids: every lane, whatever their observations, is one conversation on one model if and only if no id runs into another |
| CacheAccounting.ConversationsArePaired | packages/ai/scripts/langfuse-metrics.ts:252-301 | two conversations whose observations pass the chat filter, share a key and are weighed as a pair |
| CacheAccounting.PairsAtMostCallsLessLanes | packages/ai/scripts/langfuse-metrics.ts:285-301 | of n calls that fall into k lanes at most n - k pairs are weighed |
| HistoryGenerator.Rng.constructor | packages/ai/evals/history.ts:80-86 | the state starts from the hash of the seed |
| HistoryGenerator.Rng.Next | packages/ai/evals/history.ts:87-93 | a draw advances the state by one increment and returns the scramble of the new one, below 2^32 |
| HistoryGenerator.KnownValues | packages/ai/evals/history.ts:80-94 | hash and scramble have the known values of FNV-1a and mulberry32 |
| HistoryGenerator.StatesRepeatIff | packages/ai/evals/history.ts:87-88 | the states after j and k draws agree exactly when j - k is a multiple of 2^32 |
| HistoryGenerator.Pick | packages/ai/evals/history.ts:125-131 | a scaled draw is always in range |
| HistoryGenerator.Cents | packages/ai/evals/history.ts:127 | an amount is between 120.00 and 90 120.00 |
| HistoryGenerator.RefLength | packages/ai/evals/history.ts:130-133 | the reference is always five characters |
| HistoryGenerator.RowLength | packages/ai/evals/history.ts:125-134 | every row is its number and 45 to 54 characters more |
| HistoryGenerator.RowInCells | packages/ai/evals/history.ts:125-134 | a row read back is six cells: number, cost centre by the first draw, date by the fifth and fourth, amount by the third, status by the second, reference by the sixth |
| HistoryGenerator.NumberColumnValue | packages/ai/evals/history.ts:134 | the number column is worth the number of the row |
| HistoryGenerator.DateColumnValues | packages/ai/evals/history.ts:128-129 | day and month are worth one more than the fourth draw of 28 and the fifth of 12 |
| HistoryGenerator.AmountColumnValue | packages/ai/evals/history.ts:127 | the amount is the third draw of 90 000 plus 120, to the nearest cent |
| HistoryGenerator.RefColumnValue | packages/ai/evals/history.ts:130-133 | the reference is the sixth draw of a million in base 36 |
| HistoryGenerator.TabularBlock | packages/ai/evals/history.ts:117-139 | the loop ends, its running count is the joined length, each row takes six draws in order, and the rows are the fewest that reach the size asked for |
| HistoryGenerator.OvershootAtMostOneRow | packages/ai/evals/history.ts:123-138 | a block is never shorter than asked and overshoots by at most its last row: 60 characters below a million rows, 62 below a hundred million |
| HistoryGenerator.RowsAreDetermined | packages/ai/evals/history.ts:117-139 | the number of rows is a function of the request alone |
| HistoryGenerator.GenerateHistory | packages/ai/evals/history.ts:226-305 | the blocks of all exchanges, two reads of 0.18 of the size (500 at least) and a heavy one each, drawn one after the other from one stream; a function of seed and size |
| HistoryGenerator.BlocksInOrder | packages/ai/evals/history.ts:238-284 | an exchange is two reads of 0.18 of the size, 500 at least, and then the heavy block, each drawn where the former ended |
| HistoryGenerator.BuildLongHistory | packages/ai/evals/history.ts:208-224 | a first guess and two corrections, each from the size of the history just built; the result is the history of the last size |
| HistoryGenerator.SizesAreFloors | packages/ai/evals/history.ts:212-222 | the first size is the floor of 2.88 times the target an exchange, each corrected one the floor of size times target over the measure, 2 000 at least |
| HistoryGenerator.CorrectionShrinksTheMiss | packages/ai/evals/history.ts:219-220 | for any measure: away from the clamp a correction multiplies the signed miss by a over the measured size, less part of b, plus the measure's deviations from a + b h |
| HistoryGenerator.NearCorrection | packages/ai/evals/history.ts:219-221 | for a measure within r of a scaffold a and a rate b at the sizes before and behind: a correction leaves at most (a + r) times the miss over the measured size, plus b and 2 r, and turns too short into too long by 2 r at most |
| HistoryGenerator.CorrectionLeavesShare | packages/ai/evals/history.ts:219-221 | and so at most a share of the miss that depends on a, b and r alone, plus b and 2 r |
| HistoryGenerator.ShareIsFractionIff | packages/ai/evals/history.ts:208-209 | that share is less than one exactly when 2 r is less than the filler of the smallest blocks |
| HistoryGenerator.ClampOvershoots | packages/ai/evals/history.ts:220 | when the 2 000-character clamp applies the history is too short by less than 2 r, if at all |
| HistoryGenerator.TwoUnclampedPasses | packages/ai/evals/history.ts:216-223 | two passes away from the clamp leave the product of their own two factors over the measured sizes, plus what each pass leaves of b + 2 r |
| HistoryGenerator.TwoCorrectionsLand | packages/ai/evals/history.ts:212-223 | for a measure within r of a line at the sizes that are built: two corrections leave at most the share squared of the first miss, plus what two passes leave of b + 2 r, or the smallest history with the target below it |
| HistoryGenerator.GeneratorIsNearLine | packages/ai/evals/history.ts:226-305 | the measure of the histories really generated is near a line, whatever the seed: whole rows and the 500-character least read put an exchange within 234 characters of 1.36 times the block size plus 232 |
| HistoryGenerator.GeneratorLands | packages/ai/evals/history.ts:208-224 | for every seed, and a counter that gives a character c tokens up to a thousand characters an exchange: the share is less than one and the two corrections land |
| HistoryGenerator.CharacterCountLands | packages/ai/evals/history.ts:208-224 | counting characters is such a counter, so for every seed the two corrections land on a size in characters |
| TextMatch.RawOccurrenceMatches | packages/ai/evals/text-match.ts:41-52 | a needle that occurs in the text matches, even starting or ending inside a run of white space |
| TextMatch.TypographyIsInvisible | packages/ai/evals/text-match.ts:29-46 | spaces, dashes, single and double quotes are each interchangeable among themselves |
| TextMatch.FoldsAlikeIff | packages/ai/evals/text-match.ts:29-34 | two characters fold alike if and only if they are equal or both in one of the four classes, listed by code point |
| TextMatch.SameNormalFormIff | packages/ai/evals/text-match.ts:41-48 | two texts have one normal form if and only if they are alike, character by character up to class and case, with white space where there is white space: the matcher sees every other difference |
| TextMatch.WrappingIsInvisible | packages/ai/evals/text-match.ts:41-48 | any white space may be replaced by any other, stretched or wrapped |
| TextMatch.NormalizeIsIdempotent | packages/ai/evals/text-match.ts:41-48 | a normalised text is its own normal form |
| TextMatch.MatchMeansOccurrenceUpToSpelling | packages/ai/evals/text-match.ts:50-52 | a match holds if and only if some text alike to the needle stands literally in some text alike to the haystack |
| MigrationLint.StatementsOf | scripts/lint-migrations.ts:107-126 | the loop over lines with buffer and start line computes the closed blocks and the tail that is not blank |
| MigrationLint.ClosedAreBlocks | scripts/lint-migrations.ts:112-123 | every closed statement is one whole block: from the line behind a semicolon line to the next, reported at a line within it |
| MigrationLint.SemicolonsEndStatements | scripts/lint-migrations.ts:119-122 | every line with a semicolon ends a statement that is reported |
| MigrationLint.FirstCode | scripts/lint-migrations.ts:114-117 | the reported line is the first of the block that is not blank |
| MigrationLint.LinesIncrease | scripts/lint-migrations.ts:114-124 | reported lines strictly increase and each is code |
| MigrationLint.NothingIsLost | scripts/lint-migrations.ts:118-124 | the texts of the statements put together are the stripped file less a blank tail |
| MigrationLint.CommentsDoNotMatter | scripts/lint-migrations.ts:113 | files whose lines are equal, or equal up to the text behind two dashes, split alike |
| MigrationLint.CommentGoesIff | scripts/lint-migrations.ts:113 | a comment is taken off its code if and only if no LF, CR, U+2028 or U+2029 is in it |
| MigrationLint.CommentsStrippedIff | scripts/lint-migrations.ts:107-126 | the statements of a file are those of its code alone if and only if no line has a line terminator behind its first two dashes |
| MigrationLint.LfFilesAreStripped | scripts/lint-migrations.ts:107-126 | in particular in every file whose only line terminator is LF |
| MigrationLint.CrKeepsComments | scripts/lint-migrations.ts:113 | a line that ends in CR, as all but the last of a CR LF file do, is kept with its comment |

## Left out

- Network, database, model and storage calls, command lines and printed reports: no semantics visible in this code.
- Characters are Unicode scalar values where the code has UTF-16 units; no operation modelled looks inside a surrogate pair, except the hash of the seed, which is modelled on UTF-16 units.
- NumberReader.ReadsFormatted: gives digits and scale, not the rounding of a decimal to a binary floating-point number.
- ContentCheck.CheckCsv: keeps record keys in the order they were set; the code's objects list integer-like keys first and ignore a column named `__proto__`. With columns distinct under the fold the order does not matter.
- ContentCheck.CheckCsv: starts from the text of the presented file; finding the file and decoding its bytes are not modelled.
- StreamReducer.StreamState.AbsorbChunk: an array where `byAgent` should be an object gives no agents here; the code would list its indices.
- EventStream.ReadStream: ends at the reduced state; the latency arithmetic of the returned result is not modelled, and the two clock reads inside one frame are one.
- WorkerPool.EveryScheduleIsSafe: a rejected task is a worker that stops; that the pool's own promise then rejects while other workers go on is not a separate state.
- DecisionQueue.Ask: the wait for the next minute is not modelled.
- FleetManifest.Registry.Apply: creation that throws, concurrent writers and the action log are not modelled; a write that fails in a batch is.
- FleetManifest.Registry.CreateMissing: a catalogue answers by model id alone, and alike in every apply; in the code (add-from-catalogue.ts) the answer also depends on the entry's transport and on the transports of published rows, so it can change between two applies.
- CacheAccounting.RunCache: token counts are natural numbers, costs are reals and start times integers; the paging of the observations is not modelled.
- HistoryGenerator.BuildLongHistory: requires an exchange, takes the token count of an exchange as a function of its blocks (which covers the turns' templates), and computes 0.72, 0.18 and the correction as exact fractions.
- HistoryGenerator.GeneratorLands: assumes the block sizes stay below 5 000 000 000 characters, which no string reaches, and that the counter is close to proportional; tokenisation itself is not modelled.
- HistoryGenerator.Rng.Next: nothing is proved of the quality of the scramble, only of its range and of the state behind it.
- TextMatch.NormalizeIsIdempotent: assumes character-wise lower-casing that settles at once; context-dependent casing such as the final sigma is not modelled.
- The turn templates of a generated history: text without further structure.
- The case lifecycle of the runner (ephemeral conversation, seed, one retry, cleanup): its branches are straight-line.
- The parent walk and the histogram of the context measurement, percentiles, gate criteria and option parsing: easier than what is here.
- The keyword rules of the migration linter: tests of one expression each.
