# Work Times: a model of its archive, its rules and its sync

Work Times keeps a local archive of WakaTime activity. Days arrive as summaries, are normalised, and replace,
preserve or are rejected by what is archived; classification rules sort every recorded slice into work or personal;
a coordinator runs syncs date by date through cancels, stops and crashes. This project models those cores in Dafny
and proves what they keep.

## What is modelled

| files | part of the system |
|---|---|
| `Glob`, `GlobCompiler` | glob tokens, the last-star matcher, the pattern compiler |
| `Classification`, `RuleInvariance`, `DecisionRanks` | rule matching, precedence keys, the decision, what it does not depend on, and the same decision read without keys |
| `RulePreview`, `RuleChanges`, `PreviewFacts`, `Consolidation`, `ConsolidationFacts`, `GateExactness` | preview against commit; the consolidation analysis and its safety gate against the apply step, and exactly when the gate can be relied on |
| `Calendar`, `Catchup`, `CatchupCandidates`, `CatchupProgress` | date arithmetic on strings; the bounded start-up catch-up, what it offers and its progress |
| `SummaryDay`, `Normalize`, `Conservation`, `Rearranged`, `Acceptance`, `NormalizedContent`, `NormalizedDays`, `NormalizedDimensions` | the summaries normaliser, which days it accepts and what it makes of them, conservation of seconds, order independence |
| `ArchiveModel`, `Reconcile`, `ReconcileFacts`, `ReconcileReports`, `ReconcileRuns`, `ArchiveHistory`, `ArchiveDetail`, `InheritedNames` | the reconciliation transaction, its reports and whole runs of it; when entity detail survives |
| `Outcome`, `RunExecution`, `RunRows`, `Coordinator`, `ReconciledRuns` | the aggregated outcome and the executor of one run; what the success of a run says about the reconciled days |
| `RunQueue`, `QueueSteps`, `Recovery`, `RecoveryChains`, `RecoveryEnds` | the durable run queue and crash recovery |
| `Canonical`, `Importer`, `ImportTables`, `ImportRun`, `ImportedContent`, `Batch` | the dump importer into an empty archive |
| `RateLimiter`, `Capabilities`, `CapabilityEffects` | the sliding-window limiters and the capability policy |
| `Text`, `TextForms`, `Locales`, `Orders`, `Rearrange`, `Options`, `SliceTypes` | shared: text handling, total orders, stable sorting, permutations |

Code that changes things step by step is modelled by methods with loops, and objects with fields by classes
(`RuleStore`, `Queue`, `Archive`, `Executor`, `SyncRuns`, `Tables`, `BatchInserter`, `AttemptLimiter`,
`CapabilityPolicy`). Each such method is tied to a function of the old state, and the properties are then proved of
that function over all inputs and all runs. What these functions return is proved a second time in other terms, read off
the inputs with every constant written out (`DecisionRanks`, `RuleChanges`, `PreviewFacts`, `ConsolidationFacts`,
`CatchupCandidates`, `Acceptance`, `NormalizedContent`, `ReconcileReports`, `RunRows`, `QueueSteps`, `ImportedContent`,
`CapabilityEffects`, `TextForms`).

## Conventions

- Seconds are `real`. A content hash is the content itself, so equal hashes mean equal contents.
- NFC and lower-casing are arbitrary functions (`TextOps`); `localeCompare` and the default string order are
  arbitrary total orders (`Locale`). No property assumes that NFC or lower-casing is idempotent unless it says so.
- Keys that the program joins with a NUL character are tuples or sequences of strings.
- A project's name stands for the id of its row: names are unique and rows are never renamed.
- "Today" in the source time zone, the clock, generated ids, worker results, and the moments at which cancel, stop and
  abort arrive are parameters; every property is for all of them.
- A thrown error is a result (`None`, `Threw`, `LinkThrew`, an `ok` that is false); a rolled-back transaction leaves
  the state as it was.

## What turned out not to hold

- The matcher and the declarative meaning of a token list agree exactly for lists without a hanging empty literal, one
  followed only by stars and empty literals (`Glob.AgreeIff`); the compiler never makes an empty literal.
- Two exact folder rules of equal key need not name the same folder: the key measures a text that is normalised once,
  the match uses one normalised twice. `RuleInvariance.FolderTieIff` has the exact condition on the two selectors,
  `RuleInvariance.DifferentFoldersMayTie` a pair that fails it.
- The consolidation gate computes keys and patterns from the selectors as written in the manifest, the apply step from
  the stored ones. Creating an exact rule behind a passed gate is harmless for all rows and slices exactly when its
  selector is stable under storing (`GateExactness.GateSufficesIff`). For glob rules stability is proved to be enough
  (`GateExactness.StableSuffices`) but not to be needed: two texts may compile to patterns of one language.
  `GateExactness.UnstableSelectorEscapesTheGate` is a whole manifest, `/w//`, that passes and makes a classified slice ambiguous.
- Entity detail can be lost silently. The scopes of a summary are a plain object, so the lookup of a project named like a
  member that every object inherits (`constructor`, `toString`, `__proto__`, ...) finds something even when the summary
  leaves the project out, and no loss is noticed. A summary that lists a project `__proto__` makes the fields of a scope
  record (`projectName`, `totalSeconds`, `entityDetailState`, `entityCount`) findable in the same way. The detail of a
  project survives every run of normalised summaries exactly if its name is none of these (`InheritedNames.AlwaysSurvivesIff`);
  for one update the exact condition is `ArchiveDetail.UpdateKeepsDetailIff`, and `InheritedNames.DetailIsLost` is a run of
  two summaries, from the empty archive, for each of these names.
- The displayed net shifts of a preview need not cancel after rounding; what remains is at most 0.0001
  (`RulePreview.DisplayedNetsNearlyCancel`, `RulePreview.DisplayedNetsMayRemain`).
- A day that the normaliser completes can make reconciliation throw: the normaliser tells dimension rows apart by entity
  type and machine, the unique index of their table does not, so two machines of one name are refused. The table takes
  the rows of a day exactly when no scope repeats a name within a dimension (`NormalizedDimensions.NormalizedDimensionsIff`,
  `NormalizedDimensions.AcceptedButNotStorable`).
- `addDays` and `differenceInDays` undo each other, and additions compose, exactly while the (first) sum stays between
  0100-01-01 and 9999-12-31 (`Calendar.DifferenceOfSum`, `Calendar.SumsCompose`, `Calendar.AddNothing`).
- If two slices of a summary get the same key when their entity is normalised again, an accepted update stores fewer rows than
  slices, the last slice of a key in each, or the unique index rejects the whole update (`ArchiveDetail.OneRowPerSliceIff`,
  `ArchiveHistory.RunsHoldLast`, `ReconcileFacts.UpsertFailsIff`).
- If the clock goes back so far that a pruned attempt becomes recent again, the limiters may allow a call that a limiter
  with a full log refuses (`RateLimiter.ReturningAttemptDisagrees`). Pruning is harmless at given clock readings, whichever
  of the calls are made and for every limit, exactly when no attempt returns (`RateLimiter.HarmlessIff`). For one history
  and one limit a returning attempt may still make no difference.
- The advisory code decides whether degraded heartbeats of a verified zero matter. A run in which they were restricted under
  the default code never succeeds (`ReconciledRuns.RestrictedNeverSucceeds`); when they failed under the default code or
  conflicted, a new verified zero still counts as a success (`ReconciledRuns.GoodReportIff` has the exact condition).
- Recovery may end with an exception and leave interrupted runs without their retry: when ten runs wait, or another request
  took the key of a retry. `RecoveryEnds.RecoveryEndsWell` says what holds in either case, and `RecoveryEnds.LinkThrewIff` is the
  exact condition for one run.
- A date restriction that has expired overrides a global hold (`Capabilities.RefusedIffHeld` has the exact condition).

## Model

| member | source | states |
|---|---|---|
| Glob.MatchGlobTokens | src/lib/server/classification/model.ts:120-174 | the loop that remembers only the last star accepts exactly the language of the tokens, which for lists without a hanging empty literal is the set of texts that split into matching pieces, within (tokens+1)*(characters+1) iterations |
| Glob.AcceptsIsSplits | src/lib/server/classification/model.ts:120-174 | without empty literals the matcher's language is declarative: the text falls into one piece per token |
| Glob.AgreeIff | src/lib/server/classification/model.ts:120-174 | matcher and declarative meaning agree on every text exactly for the lists without a hanging empty literal |
| Glob.EmptyLiteralDiffers | src/lib/server/classification/model.ts:127-148 | the shortest list on which the matcher and the declarative meaning part |
| Glob.LaterStartsLater | src/lib/server/classification/model.ts:160-163 | retrying the last star later can only reach later places, so older stars need no memory |
| Glob.Retry | src/lib/server/classification/model.ts:160-163 | one restart of the last star loses no match |
| Glob.EnterStar | src/lib/server/classification/model.ts:153-158 | forgetting the previous star on meeting a new one loses no match |
| GlobCompiler.CompileGlob | src/lib/server/classification/model.ts:205-241 | the scan yields exactly the compiled tokens, in canonical form, and counts their literal characters |
| GlobCompiler.CompiledCanonical | src/lib/server/classification/model.ts:210-241 | no compiled pattern has empty literals, adjacent literals or adjacent stars |
| GlobCompiler.CompiledMeansPattern | src/lib/server/classification/model.ts:218-241 | merging literals and collapsing stars keeps the language of the pattern text |
| GlobCompiler.EscapedCompilesToItself | src/lib/server/classification/model.ts:220-241 | a text with its wildcards in brackets compiles to one literal of that text |
| Classification.TestPattern | src/lib/server/classification/model.ts:176-264 | compiling and matching a selector answers what the selector means, with the length limit and the case rules |
| Classification.RuleOrderIsPreorder | src/lib/server/classification/model.ts:394-415 | the rule comparison is a total preorder, so the sort is well defined |
| Classification.FirstIsTop | src/lib/server/classification/model.ts:299-321 | after sorting, the rules tied with the head are exactly the rules of greatest key among the enabled matches |
| Classification.ClassifyIsDeclarative | src/lib/server/classification/model.ts:337-392 | without an override the decision is: greatest key unanimous, else ambiguous with exactly those competitors, else default; the winner is the oldest of them |
| DecisionRanks.LeadersDecide | src/lib/server/classification/model.ts:337-392 | the same decision by a reading that knows no keys: the rules that claim the slice and that no other claimant outranks decide if they agree, leave it ambiguous if they differ, and unclassified if there are none |
| DecisionRanks.OutrankingDecides | src/lib/server/classification/model.ts:394-405 | a claimant that outranks every claimant of the other class decides; a rule outranks by priority, then by the narrower kind of selector, then as an exact rule against a glob, then by the longer folder or the longer literal text of its pattern |
| DecisionRanks.PrecedenceDecides | src/lib/server/classification/model.ts:29-37 | for all rules and slices: a greater priority decides against every kind; at one priority entity rules decide against all others, folder rules against project rules and the rest, project rules against machine, editor, application and domain rules, and exact rules against globs of their level |
| DecisionRanks.MinorKindsTie | src/lib/server/classification/model.ts:29-37 | exact machine, editor, application and domain rules of one priority tie, so rules of different classes leave the slice ambiguous |
| DecisionRanks.NamesMean | src/lib/server/classification/model.ts:379-415 | the named winner is the leading rule created first, the smaller id and then the smaller selector breaking ties; an ambiguous slice names the ids of all leading rules in order |
| RuleInvariance.OrderAndTimeIrrelevant | src/lib/server/classification/model.ts:337-415 | class and source ignore list order, ids and creation times |
| RuleInvariance.PermutedRulesSameDecision | src/lib/server/classification/model.ts:337-415 | with distinct ids the whole decision ignores the order of the list |
| RuleInvariance.LowerRulesIrrelevant | src/lib/server/classification/model.ts:299-392 | dropping every rule below the winner's key changes nothing |
| RuleInvariance.FolderTieIff | src/lib/server/classification/model.ts:110-114 | two exact folder rules of equal priority that match one slice tie exactly when they match the same folder, if and only if the lengths in their keys agree just when the lengths of their folders do |
| RuleInvariance.MeasuredRulesTieOnSameFolder | src/lib/server/classification/model.ts:299-321 | in particular for selectors whose key measures the folder they match |
| RuleInvariance.FolderRulesTieOnSameFolder | src/lib/server/classification/model.ts:110-114 | the corollary for selectors in normal form: equal keys name equal folders |
| RuleInvariance.DifferentFoldersMayTie | src/lib/server/classification/model.ts:88-114 | a stored selector whose key ties with that of a narrower folder matching the same slice |
| RulePreview.RuleStore.PreviewRuleChange | src/lib/server/classification/sqlite.ts:802-1049 | the preview returns the digest of what it saw and the flows and nets, rounded for display, the counts, affected dates and first five changed slices under the listed and the proposed rules; it throws exactly on invalid input or a pattern that is too long |
| RulePreview.RuleStore.Mutate | src/lib/server/classification/sqlite.ts:1136-1451 | create, update and delete commit exactly when the change can be previewed, the digest is that of the present state and an expected revision is the present one, and then one revision later; otherwise nothing changes |
| RulePreview.PreviewIsExact | src/lib/server/classification/sqlite.ts:802-1049 | whenever a commit accepts the preview's digest, predicted class and source of every slice are those under the committed rules |
| RulePreview.TyingFolderIsStored | src/lib/server/classification/sqlite.ts:684-687 | the folder selector of the tie above comes out of validation |
| RulePreview.ProposalIsCommitted | src/lib/server/classification/sqlite.ts:819-889 | the proposed list and the committed rows hold the same rules up to creation time and order |
| RulePreview.NetIsDifference | src/lib/server/classification/sqlite.ts:956-982 | the net shifts sum to zero and each is seconds after minus seconds before |
| RulePreview.DisplayedNetsNearlyCancel | src/lib/server/classification/sqlite.ts:273-275 | the displayed nets sum to zero up to one unit of the last place |
| RulePreview.DisplayedNetsMayRemain | src/lib/server/classification/sqlite.ts:273-275 | a shift of 0.00005 seconds is displayed as a gain without the loss |
| RulePreview.ScanSlices | src/lib/server/classification/sqlite.ts:902-1015 | the loop computes the declarative tally: flows, nets, counts of changed classes and sources, affected dates and samples; it throws exactly when some classification does |
| PreviewFacts.CountsMean | src/lib/server/classification/sqlite.ts:940-1015 | the counters count what they are named after: slices of another class, slices decided by another rule or for another reason, slices that some rule claims before and after, and slices about which the leading rules begin or cease to disagree; the affected dates are those of the first |
| PreviewFacts.DisputesBalance | src/lib/server/classification/sqlite.ts:983-1000 | the disputed slices after the change are those before it plus the new ones minus the settled ones |
| PreviewFacts.SamplesMean | src/lib/server/classification/sqlite.ts:1000-1015 | the changed slices that samples are taken from are exactly those reclassified or decided for another reason, with both decisions |
| RuleChanges.TallyMeans | src/lib/server/classification/sqlite.ts:956-1015 | the total shift is the seconds of the slices that change class, and the samples are the first five changes |
| RuleChanges.DisplayedIsClose | src/lib/server/classification/sqlite.ts:273-275 | every displayed number is within 0.0001 of the one it stands for |
| RuleChanges.CreateMeans | src/lib/server/classification/sqlite.ts:661-711 | a creation stores the given fields and the selector in its stored form, or is refused for a blank, overlong or empty selector |
| RuleChanges.UpdateMeans | src/lib/server/classification/sqlite.ts:661-711 | an update takes each field that the patch gives and keeps the others; a given selector is stored under the kind that the rule will have; it is refused exactly for an unknown rule or a selector that cannot be stored |
| RuleChanges.DeleteMeans | src/lib/server/classification/sqlite.ts:661-711 | a deletion is refused exactly for an unknown rule |
| RuleChanges.CommitMeans | src/lib/server/classification/sqlite.ts:1136-1451 | the table after a commit: a created rule has the present time, a revised one keeps its creation time, a deleted one is gone, all others stay |
| RuleChanges.DigestsAgreeIff | src/lib/server/classification/sqlite.ts:619-659 | digests agree exactly for the same revision, slices and operation over the same rules apart from creation times |
| RuleChanges.ListedMeans | src/lib/server/classification/sqlite.ts:432-450 | rules are listed by falling priority, then by creation time, then by id, each once |
| RuleChanges.PreviewThrowsMeans | src/lib/server/classification/sqlite.ts:802-1049 | a preview throws exactly on a change that cannot be stored, or on an enabled pattern over 500 code units once a slice is classified with it |
| Consolidation.Analyse | scripts/analyze-rule-consolidation.ts:191-441 | the report counts the flips, losses and ambiguity changes of the slices, the gate passes exactly when no slice makes one, and the analysis throws exactly on unknown or taken ids or a pattern that is too long |
| Consolidation.CountMovements | scripts/analyze-rule-consolidation.ts:257-441 | the loop counts every forbidden movement |
| Consolidation.ConsolidateRules | src/lib/server/classification/sqlite.ts:1453-1566 | all creates and deletes commit together, or the rules stay as they were |
| Consolidation.AppliedRows | src/lib/server/classification/sqlite.ts:1453-1566 | the committed rows are the old ones without the deleted ids, plus the created ones |
| ConsolidationFacts.AnalysedMean | scripts/analyze-rule-consolidation.ts:191-257 | the analysed rules are those not deleted and each created one as it is written, under its own id or a draft id |
| ConsolidationFacts.AppliedMean | src/lib/server/classification/sqlite.ts:1453-1566 | the table after the transaction holds the rules not deleted and each created one with its selector as stored, under its own id or a new one |
| ConsolidationFacts.CommitsIff | src/lib/server/classification/sqlite.ts:1453-1566 | the transaction commits exactly when every created rule can be stored under an id that is new and used once, and every deleted id is listed once and exists, be it as a created one |
| ConsolidationFacts.GateMeans | scripts/analyze-rule-consolidation.ts:257-441 | the gate is open exactly when deleted rules exist, created ids do not, and every slice is decided before and after, keeps its class unless it had none, and is disputed after exactly if it was before |
| ConsolidationFacts.CountersMean | scripts/analyze-rule-consolidation.ts:257-441 | the three counters: classes turned into their opposite, classes lost, disputes begun or ended |
| Consolidation.StoredMeaning | src/lib/server/classification/sqlite.ts:661-711 | a created rule means the same in the analysis and in the table exactly for stable selectors |
| Consolidation.GateIsEnough | scripts/analyze-rule-consolidation.ts:257-441 | a passed gate and stable selectors of the enabled rules: applying the manifest keeps the class of every classified slice and moves none into or out of ambiguity, although ids, times and order differ |
| GateExactness.GateSufficesIff | scripts/analyze-rule-consolidation.ts:257-441 | creating an enabled, valid exact rule behind a passed gate is harmless for all rows, slices and deletes exactly when its selector is stable |
| GateExactness.StableSuffices | scripts/analyze-rule-consolidation.ts:257-441 | for any match mode a stable selector is enough, and disabled or refused rules are harmless |
| GateExactness.LosesSlice | scripts/analyze-rule-consolidation.ts:257-441 | a selector that matches a slice as written but not as stored: replacing an old rule passes the gate and unclassifies the slice |
| GateExactness.TiesOnceStored | scripts/analyze-rule-consolidation.ts:257-441 | an exact folder selector whose key length changes: the gate passes and the slice becomes ambiguous |
| GateExactness.UnstableSelectorEscapesTheGate | scripts/analyze-rule-consolidation.ts:257-441 | a manifest, rows and a slice: the targets exist, the gate passes, the manifest applies, and the classified slice is ambiguous afterwards |
| Calendar.FromDayNumberIsInverse | src/lib/server/sync/calendar.ts:76-87 | the date accessors invert the day number for every day |
| Calendar.DayNumberIsMonotone | src/lib/server/sync/calendar.ts:89-101 | day numbers order valid dates by year, month and day |
| Calendar.ParseFormatted | src/lib/server/sync/calendar.ts:54-72 | formatting a date of the years 0 to 9999 and parsing it gives it back |
| Calendar.DifferenceOfSum | src/lib/server/sync/calendar.ts:76-101 | the difference between a date and the date n days on is n exactly while that date lies between 0100-01-01 and 9999-12-31 |
| Calendar.SumOfDifference | src/lib/server/sync/calendar.ts:76-101 | adding the difference of two dates to the first gives the second |
| Calendar.SumsCompose | src/lib/server/sync/calendar.ts:76-87 | adding in two steps is adding the sum exactly while the first sum lies between 0100-01-01 and 9999-12-31 |
| Calendar.DayStringIsInjective | src/lib/server/sync/calendar.ts:65-72 | different days are formatted differently, in every year that a Date reaches |
| Calendar.AddNothing | src/lib/server/sync/calendar.ts:76-87 | adding nothing gives a valid date back exactly from the year 100 on |
| Calendar.StringOrderIsChronological | src/lib/server/sync/calendar.ts:28-101 | the string order of dates is their chronological order |
| Calendar.GetDateRange | src/lib/server/sync/calendar.ts:103-123 | exactly the difference + 1 consecutive dates, or the range error |
| Calendar.RangeIsComplete | src/lib/server/sync/calendar.ts:103-123 | between regular ends the range holds exactly the dates from start to end |
| Catchup.SelectStartupCatchupDates | src/lib/server/sync/calendar.ts:331-458 | distinct dates, at most the maximum, selected and remaining are all candidates, and the cursor is the first unselected one |
| Catchup.GapCandidateMembers | src/lib/server/sync/calendar.ts:345-405 | the recent and the uncovered dates come first, each once |
| Catchup.CandidateMembers | src/lib/server/sync/calendar.ts:345-447 | the candidates are distinct and exactly the recent dates, the uncovered ones in scope and the eligible older work |
| CatchupCandidates.WaitsMeans | src/lib/server/sync/calendar.ts:407-441 | a date waits as older work exactly if it is valid, not after today, and unfinished or failed with some entry whose retry instant is absent, empty, or parses to one not after now; the first source of the instant takes precedence |
| CatchupCandidates.FailedDates | src/lib/server/sync/calendar.ts:424-439 | a valid failed date up to today that is neither a gap candidate nor unfinished is a candidate exactly if one of its failures may be retried now |
| CatchupCandidates.SelectedFailures | src/lib/server/sync/calendar.ts:424-458 | such a date is selected only then, and exactly then if there is room for all candidates |
| CatchupCandidates.OfferedStays | src/lib/server/sync/calendar.ts:331-458 | a date offered at one clock reading is offered at every later one of the day |
| CatchupCandidates.ScanMeans | src/lib/server/sync/calendar.ts:368-405 | the scan covers exactly the dates from the coverage start, watermark or first archived date to the day before the policy window or an earlier coverage end |
| CatchupCandidates.WindowMeans | src/lib/server/sync/calendar.ts:345-366 | the policy window has exactly the dates from the given number of days back to two days ago |
| CatchupCandidates.CandidatesMean | src/lib/server/sync/calendar.ts:331-447 | every candidate, said of the request: today and yesterday, the unarchived dates of window and scan, and the work that waits |
| CatchupCandidates.OldestFirst | src/lib/server/sync/calendar.ts:345-447 | the order of the candidates: today and yesterday, then the window, the scan and older work, each oldest first |
| Catchup.PushWindow | src/lib/server/sync/calendar.ts:359-366 | the policy-window loop offers the uncovered window dates, oldest first |
| Catchup.PushGaps | src/lib/server/sync/calendar.ts:386-405 | the gap loop offers every uncovered date from the earliest in scope to the end of the scan |
| Catchup.CollectOlderWork | src/lib/server/sync/calendar.ts:407-441 | unfinished and due failed dates that are not candidates yet, each once |
| Catchup.EveryGapIsOffered | src/lib/server/sync/calendar.ts:355-405 | with a fixed coverage start and no end, every unarchived date up to today is a candidate |
| CatchupProgress.RunClosesGaps | src/lib/server/sync/calendar.ts:449-457 | one run closes the maximum minus two gaps, or all of them, whatever dates wait for a retry |
| CatchupProgress.AllGapsClose | src/lib/server/sync/calendar.ts:331-458 | all gaps close within ceil(gaps / (maximum - 2)) runs, whatever dates wait at each of them, and then only waiting dates are left |
| Normalize.NormalizeSummaryDay | src/lib/server/ingest/normalize-summary.ts:188-1100 | completes exactly on acceptable days, with the canonical day; a failure code names a condition the day violates |
| Acceptance.AcceptanceMeans | src/lib/server/ingest/normalize-summary.ts:188-894 | read off the day as it arrives: accepted exactly when nothing is blank, negative or doubled, the zone is named, not contradicted and known, and all overcounted seconds of projects and account together are at most 0.001, which is what the three checks of the sums come down to |
| NormalizedContent.RowsAreArrived | src/lib/server/ingest/normalize-summary.ts:136-146 | the dimension rows of a completed day are the arrived ones of every scope, with names, seconds, percents, entity types, machines and raw texts, as multisets, and one total for each project |
| NormalizedContent.StoredDimensions | src/lib/server/ingest/reconcile.ts:1112-1146 | an update stores exactly these rows as the dimension totals of the date |
| NormalizedContent.SlicesAreArrived | src/lib/server/ingest/normalize-summary.ts:784-866 | the slices are the arrived entities, with names in normal form, seconds, root counts and metrics, one slice for what the entities of a project leave over and one for what the projects leave of the day |
| NormalizedContent.ScopesAreArrived | src/lib/server/ingest/normalize-summary.ts:701-718 | each project, and nothing else, has a scope with its seconds, what it said about entities, and their number |
| NormalizedContent.ProjectsAreArrived | src/lib/server/ingest/normalize-summary.ts:978-1020 | the projects are the arrived ones, with their entities in normal form |
| NormalizedContent.DayIsArrived | src/lib/server/ingest/normalize-summary.ts:721-757 | total, zone, metrics, project sum, fidelity and overall detail of the day, each said of what arrived |
| Normalize.ReadProjects | src/lib/server/ingest/normalize-summary.ts:409-719 | the project loop accepts exactly the lists of valid projects with distinct names and collects projects, scopes, rows and the sum |
| Normalize.ReadEntities | src/lib/server/ingest/normalize-summary.ts:467-612 | the entity loop accepts exactly the valid lists whose normalised names differ |
| Normalize.ReadRows | src/lib/server/ingest/normalize-summary.ts:39-151 | the dimension rows of a scope are accepted exactly when valid and distinct by their semantic key |
| Normalize.GenerateSlices | src/lib/server/ingest/normalize-summary.ts:784-866 | entity slices, project remainders and the day's residual |
| Normalize.MergeSlices | src/lib/server/ingest/normalize-summary.ts:868-884 | the merge map keeps the seconds and is the identity on slices with distinct keys |
| Normalize.DaySlicesDistinct | src/lib/server/ingest/normalize-summary.ts:432-439 | generated slices have distinct keys once duplicate projects and entities were rejected, so the merge never folds |
| Normalize.FinishSlices | src/lib/server/ingest/normalize-summary.ts:758-894 | overcounts and the closing sum check reject exactly the days whose sums are off |
| Conservation.ExactConservation | src/lib/server/ingest/normalize-summary.ts:784-894 | slices never fall short of the total, and equal it exactly when neither a project nor the account is overcounted |
| Conservation.DaySlicesSum | src/lib/server/ingest/normalize-summary.ts:784-866 | slices sum to the total plus what projects and account are overcounted by |
| Conservation.CompleteDaysConserve | src/lib/server/ingest/normalize-summary.ts:758-894 | slices of a complete day are nonnegative, distinct, within 0.001 of the total, and exact exactly without overcounts |
| Rearranged.OrderIrrelevant | src/lib/server/ingest/normalize-summary.ts:978-1095 | permuting projects, entities and dimension rows changes neither completion nor the canonical day |
| Rearranged.DayRowsDistinct | src/lib/server/ingest/normalize-summary.ts:129-146 | all dimension rows of a day have distinct sort keys |
| Rearranged.ShuffledInterchangeable | src/lib/server/ingest/normalize-summary.ts:721-866 | fidelity, sums, scopes, slices and sorted projects ignore the order of the projects |
| NormalizedDays.CanonicalIsWellScoped | src/lib/server/ingest/normalize-summary.ts:701-866 | scopes and slices agree: detail has entity slices, an empty project with seconds has only a summary slice, a verified zero has none |
| NormalizedDays.NormalizedKeysDistinct | src/lib/server/ingest/reconcile.ts:1012-1019 | days whose entities are in normal form get a row of their own for every slice |
| NormalizedDays.CompleteDaysPassArithmetic | src/lib/server/ingest/reconcile.ts:240-341 | reconciliation never refuses the arithmetic of a day that the normaliser completed |
| NormalizedDimensions.NormalizedDimensionsIff | src/lib/server/ingest/reconcile.ts:1112-1146 | the table takes the dimension rows of a normalised day exactly when no scope has two rows of one dimension and name |
| NormalizedDimensions.AcceptedButNotStorable | src/lib/server/ingest/normalize-summary.ts:129-146 | a completed day with two machines of one name, which the table refuses |
| Reconcile.Archive.ReconcileDay | src/lib/server/ingest/reconcile.ts:127-1493 | one call has the report and the archive of the specification; a call that throws changes nothing |
| ReconcileReports.UpdatedEvidence | src/lib/server/ingest/reconcile.ts:1225-1435 | after any call that updates, the evidence of the date is present and matches exactly if the heartbeats came without a conflict and no stored observation differs, or they were skipped on a verified zero whose evidence matched before |
| ReconcileReports.UpdatedReport | src/lib/server/ingest/reconcile.ts:1148-1487 | status, codes, daily total, dimensions, version, evidence and observations after an update, each said of the call and the archive before it |
| ReconcileReports.UpdatedSlices | src/lib/server/ingest/reconcile.ts:975-1106 | the rows after an update are the slices, the last of each key, written with the next version |
| ReconcileReports.UpdatedAllocations | src/lib/server/ingest/reconcile.ts:1069-1099 | each allocation follows the first slice of its key, or is detached when there is none |
| ReconcileReports.UnchangedReport | src/lib/server/ingest/reconcile.ts:523-779 | a summary accepted before: status, codes, when its evidence matches, and which observations are added |
| ReconcileReports.LayerRefusals | src/lib/server/ingest/reconcile.ts:136-224 | the answers to an invalid date and to a summary that is restricted, failed or skipped |
| ReconcileReports.GuardRefusals | src/lib/server/ingest/reconcile.ts:240-438 | the refusals of a complete summary, in the order in which they count, with their codes |
| ReconcileReports.TextsMean | src/lib/server/ingest/reconcile.ts:230-238 | heartbeat texts conflict exactly when one id and hash come in two texts |
| ReconcileReports.PassingCall | src/lib/server/ingest/reconcile.ts:781-902 | a call that passes is unchanged, preserved for the loss of detail, or updates; the loss is said of the slices and scopes of the summary |
| ReconcileReports.StorableMeans | src/lib/server/ingest/reconcile.ts:1112-1146 | the table takes the dimension rows of a summary exactly if project rows name a known project and no scope repeats a name in a dimension |
| Reconcile.Archive.Replace | src/lib/server/ingest/reconcile.ts:904-1487 | slices, allocations, dimension totals, daily total, evidence and layer state change together or not at all |
| Reconcile.Archive.Refresh | src/lib/server/ingest/reconcile.ts:523-779 | the unchanged path moves only evidence and verification metadata |
| Reconcile.RawTextsConflict | src/lib/server/ingest/reconcile.ts:230-238 | the loop finds one heartbeat that arrived in two texts exactly when there is one |
| Reconcile.CheckArithmetic | src/lib/server/ingest/reconcile.ts:240-341 | negative totals, negative slices and sums off by more than 0.001 are refused, with their codes |
| Reconcile.LosesSomeProject | src/lib/server/ingest/reconcile.ts:842-874 | the loop finds a detailed project that the lookup of scopes shows as missing, absent or coarse, with the names that every object inherits |
| Reconcile.UpsertSlices | src/lib/server/ingest/reconcile.ts:975-1063 | the slice loop updates archived keys and inserts the others, or fails with the unique index |
| Reconcile.OverlayAllocations | src/lib/server/ingest/reconcile.ts:1069-1099 | each allocation is adjusted, reattached or detached, unless the database refuses one |
| Reconcile.Retire | src/lib/server/ingest/reconcile.ts:1101-1106 | exactly the rows absent from the incoming set are deleted |
| Reconcile.InsertDimensions | src/lib/server/ingest/reconcile.ts:1112-1146 | the dimension totals become the rows of the day, or the table refuses one without a project or with a taken key |
| ReconcileFacts.UpsertFailsIff | src/lib/server/ingest/reconcile.ts:1012-1063 | the unique index refuses exactly the summaries that insert one key twice |
| ReconcileFacts.UpsertHolds | src/lib/server/ingest/reconcile.ts:1012-1063 | with distinct keys every slice is the content of its row and other rows stay |
| ReconcileRuns.Outcomes | src/lib/server/ingest/reconcile.ts:344-902 | exactly when a call updates, is unchanged and throws, and what each result may change |
| ReconcileRuns.OnlyUpdatesChangeData | src/lib/server/ingest/reconcile.ts:225-438 | every other result, and every failure, leaves slices, totals, dimension totals, allocations, version and accepted content of all dates alone |
| ReconcileRuns.OtherDatesStay | src/lib/server/ingest/reconcile.ts:904-1487 | a call never touches another date |
| ReconcileRuns.SurvivorsOfRunsKeepIds | src/lib/server/ingest/reconcile.ts:1021-1039 | a slice key that survives a run keeps its row id |
| ReconcileRuns.RunsKeepIdsUnique | src/lib/server/ingest/reconcile.ts:1039-1063 | row ids stay unique over all dates and runs |
| ArchiveHistory.VersionCountsUpdates | src/lib/server/ingest/reconcile.ts:975-977 | the version of a date counts its updates |
| ArchiveHistory.OneUpdatePerVersion | src/lib/server/ingest/reconcile.ts:414-438 | at most one update per date and expected version, anywhere in a run |
| ArchiveHistory.ReplayIsUnchanged | src/lib/server/ingest/reconcile.ts:523-779 | replaying an accepted summary at any time before the next update is unchanged and leaves the data alone, unless it is refused as stale or its heartbeat texts conflict |
| ArchiveHistory.AllocationsSurvive | src/lib/server/ingest/reconcile.ts:1069-1099 | no run adds, drops or reclassifies an allocation |
| ArchiveHistory.UpdateHolds | src/lib/server/ingest/reconcile.ts:975-1106 | after an update the rows are the slices of the summary, and an allocation is active exactly when its slice exists, within 0.001 of its seconds |
| ArchiveHistory.RunsKeepConsistent | src/lib/server/ingest/reconcile.ts:975-1186 | along runs with distinct keys each accepted date holds exactly the slices of its last accepted summary, and its allocations fit them |
| ArchiveHistory.RunsHoldLast | src/lib/server/ingest/reconcile.ts:975-1186 | along any runs each row of a date is the last slice of its key in the last accepted summary, and exactly the allocations with a row are active |
| ArchiveHistory.StoredSecondsMatchTotal | src/lib/server/ingest/reconcile.ts:309-341 | the rows of such a date, in any order of summation, are within 0.001 of its daily total |
| ArchiveDetail.DetailSurvives | src/lib/server/ingest/reconcile.ts:781-902 | along runs fed by the normaliser a project keeps entity detail on a date unless an accepted summary is a verified zero, declares it empty with zero seconds, or leaves it out although its scope is found |
| ArchiveDetail.UpdateKeepsDetailIff | src/lib/server/ingest/reconcile.ts:842-874 | an update keeps a project's entity detail or declares it empty exactly unless it leaves the project out and the lookup of its scope finds something |
| InheritedNames.AlwaysSurvivesIff | src/lib/server/ingest/reconcile.ts:849-852 | the entity detail of a project survives every run of normalised summaries exactly if no object inherits its name and no scope record has it as a field |
| InheritedNames.OtherNamesSurvive | src/lib/server/ingest/reconcile.ts:849-852 | for the fields of a scope record it does as long as no summary lists `__proto__` |
| InheritedNames.FoundMeans | src/lib/server/ingest/reconcile.ts:849-852 | the lookup of an unlisted project finds something exactly for the twelve members of every object, and for the four fields of a scope when the summary lists `__proto__` and the field is no zero |
| InheritedNames.DetailIsLost | src/lib/server/ingest/normalize-summary.ts:713-718 | a run from the empty archive that loses it: the first normalised summary lists the project with an entity, the second leaves it out and finds its scope |
| ArchiveDetail.OneRowPerSliceIff | src/lib/server/ingest/reconcile.ts:1012-1063 | an update stores one row per slice exactly when the re-normalised keys are distinct |
| ArchiveDetail.UpdatesIff | src/lib/server/ingest/reconcile.ts:344-902 | with distinct keys a call that passes the guards, brings new content and loses no detail updates exactly when the table takes its dimension rows, and throws otherwise; no other call updates, and only conflicting heartbeat texts throw too |
| ArchiveDetail.BeatsAreImmutable | src/lib/server/ingest/reconcile.ts:1268-1331 | stored heartbeats are never rewritten or dropped |
| ArchiveDetail.RunsKeepEvidence | src/lib/server/ingest/reconcile.ts:1295-1396 | the active heartbeats of a date are always those of its accepted evidence, and all are stored |
| ArchiveDetail.SucceededMeansEvidence | src/lib/server/ingest/reconcile.ts:1455-1458 | a day succeeds only as a verified zero or with the candidate's heartbeats as active evidence |
| Outcome.AggregateRunOutcome | src/lib/server/sync/contracts.ts:456-638 | throws exactly on a pending or running row of a run that was neither cancelled nor interrupted; otherwise the status by precedence, the codes, and success exactly if all rows succeeded as updated or unchanged without one of the degrading codes, which are spelled out |
| Outcome.SucceededIff | src/lib/server/sync/contracts.ts:603-622 | a run succeeds exactly when every row proves an updated or unchanged result without a degrading code |
| Outcome.StatusMeans | src/lib/server/sync/contracts.ts:562-638 | every status of a run with date rows and exactly when it is given, said of statuses, dispositions and codes |
| Outcome.GoodIs | src/lib/server/sync/contracts.ts:414-438 | a row proves its success exactly if it succeeded as updated or unchanged with no code that is DETAIL_DOWNGRADE or NO_DATES_UPDATED, ends in _RESTRICTED or _ERROR, or starts with one of the nine prefixes, unless it is one of the two informational codes |
| ReconciledRuns.RestrictedNeverSucceeds | src/lib/server/sync/contracts.ts:418-438 | joins reconciliation, executor and outcome: a run with a reconciled date whose heartbeats were restricted, with the default code or any code of that ending, never succeeds, whatever the other dates, flags and interleavings |
| ReconciledRuns.SuccessMeansEvidence | src/lib/server/sync/coordinator.ts:975-1023 | when a run succeeds, every date it reconciled holds its new summary, and is a verified zero or has the heartbeats that came with it as matching evidence |
| ReconciledRuns.GoodReportIff | src/lib/server/ingest/reconcile.ts:1455-1487 | exactly which reports are worth a success: an accepted summary with clean heartbeats, or a verified zero whose heartbeats were skipped, or degraded under a code that is no warning while the summary was new |
| Coordinator.Executor.ExecuteRun | src/lib/server/sync/coordinator.ts:624-1023 | for every worker behaviour and arrival of cancel, stop and abort: dispatch in order, each date at most once and exactly up to the first stop, all rows terminal, an outcome always, and success exactly if no flag was raised and every date, old or new, is such a success |
| Coordinator.Executor.ExecuteRegistry | src/lib/server/sync/coordinator.ts:662-725 | the outcome of a registry run; a finished refresh wins over a late cancel |
| Coordinator.Executor.Dispatch | src/lib/server/sync/coordinator.ts:735-973 | the loop's rows, flags and dispatched dates are those of the specification |
| Coordinator.Executor.HandleThrown | src/lib/server/sync/coordinator.ts:790-876 | the row of the date and the remaining ones after a worker error |
| Coordinator.Executor.HandleReturned | src/lib/server/sync/coordinator.ts:878-972 | the same after a worker result |
| Coordinator.Executor.MarkRemaining | src/lib/server/sync/coordinator.ts:1025-1048 | exactly the unfinished rows of the snapshot are marked |
| RunExecution.SucceedsIff | src/lib/server/sync/coordinator.ts:975-1023 | an unhindered run succeeds exactly when every date, old or new, is a proved success and nothing interfered |
| RunExecution.CleanRunMeans | src/lib/server/sync/coordinator.ts:975-1023 | that every date is a proved success, said of the rows before the run and of the results of the worker |
| RunRows.RowMeans | src/lib/server/sync/coordinator.ts:735-997 | every row of a finished run by the last date that was worked on: kept, as its worker left it, or marked by how the dispatch ended |
| RunRows.UnstartedMeans | src/lib/server/sync/coordinator.ts:1025-1048 | the rows of a run that is cancelled or stopped before its first date |
| RunRows.RegistryMeans | src/lib/server/sync/coordinator.ts:662-725 | the four outcomes of a registry run and when they arise |
| RunExecution.UndispatchedCarryNoResult | src/lib/server/sync/coordinator.ts:753-972 | a date that was not dispatched has no result: cancelled only after a cancel, skipped only after an authentication failure, else interrupted |
| RunExecution.FlagsDecideTheRun | src/lib/server/sync/coordinator.ts:1001-1021 | a cancel makes the run cancelled, otherwise a stop makes it interrupted |
| RunExecution.FinishedRowsStay | src/lib/server/sync/coordinator.ts:738-749 | dates finished before a restart are left as they were |
| RunExecution.FinalRowsAreTerminal | src/lib/server/sync/coordinator.ts:975-997 | no row of a finished run is pending or running |
| RunExecution.StopAt | src/lib/server/sync/coordinator.ts:735-790 | a dispatched date stops the dispatch exactly when it is the first to raise a flag, fail authentication or be interrupted |
| RunQueue.SyncRuns.EnqueueRun | src/lib/server/db/repositories/sync.ts:157-227 | intake reuses, conflicts, is full, or adds one queued run with pending dates; requests are compared with their dates sorted |
| RunQueue.SyncRuns.ClaimNextRun | src/lib/server/db/repositories/sync.ts:233-269 | the claim and its new state |
| RunQueue.SyncRuns.RecoverInterruptedRuns | src/lib/server/db/repositories/sync.ts:392-430 | running runs and their unfinished dates become interrupted |
| RunQueue.SyncRuns.MaybeCreateLinkedRetry | src/lib/server/sync/coordinator.ts:429-487 | a linked retry for an interrupted run that wants one, nothing, or an exception |
| RunQueue.SyncRuns.RunRecovery | src/lib/server/sync/coordinator.ts:401-427 | interrupt, link, and link the deferred runs when scheduling is on |
| Recovery.HistorySound | src/lib/server/sync/coordinator.ts:401-515 | over any history: at most one recovery retry per run and none of a cancelled one, links to older runs only, unique keys, one active run, at most ten waiting |
| Recovery.EveryHistoryIsSound | src/lib/server/sync/coordinator.ts:401-515 | all of this holds for every history from the empty queue |
| Recovery.ClaimOrder | src/lib/server/db/repositories/sync.ts:245-262 | manual runs first, older before younger, only when none is active |
| Recovery.SameHashIff | src/lib/server/sync/contracts.ts:658-668 | two requests have one payload hash exactly when they differ at most in the order of their retry dates |
| Recovery.EnqueueIs | src/lib/server/db/repositories/sync.ts:157-227 | every answer of the intake and when it is given |
| QueueSteps.IntakeMeans | src/lib/server/db/repositories/sync.ts:157-227 | reuse, conflict, a full queue at ten waiting runs, refusal and entry, each said of the runs and the request |
| QueueSteps.ClaimMeans | src/lib/server/db/repositories/sync.ts:233-269 | a claim succeeds exactly when no run is active and one waits |
| QueueSteps.CancelMeans | src/lib/server/db/repositories/sync.ts:276-325 | what a cancel does to a waiting, an active and an ended run |
| QueueSteps.InterruptMeans | src/lib/server/db/repositories/sync.ts:392-430 | what interruption does to each run and each of its dates |
| QueueSteps.LinkMeans | src/lib/server/sync/coordinator.ts:429-487 | a retry is linked for an interrupted run exactly if it was not cancelled, has none yet, is manual or scheduling is on, and has an open date or is a registry run; its request is the registry mode again, or a retry of the open dates in order with the first and the last of them as its range |
| RecoveryChains.RetryTakesUnfinished | src/lib/server/sync/coordinator.ts:463-486 | the dates of a recovery retry are exactly its parent's interrupted or pending dates |
| RecoveryChains.ChainShrinks | src/lib/server/sync/coordinator.ts:429-487 | along a chain of retries ids grow and date sets shrink |
| RecoveryChains.FinishedIsNeverRerun | src/lib/server/sync/coordinator.ts:463-486 | a date finished in one link is not run by any later link |
| RecoveryChains.DeferredIsComplete | src/lib/server/sync/coordinator.ts:496-515 | after deferred recovery every interrupted run that wants a retry has one |
| RecoveryEnds.RecoveryEndsWell | src/lib/server/sync/coordinator.ts:401-427 | recovery ends without an exception only when no run that it interrupted needs a retry any more, nor, while scheduling is on, any other interrupted run; otherwise it ends at an interrupted run that needs one whose key is in use or for which the queue of ten is full |
| RecoveryEnds.DeferredEnds | src/lib/server/sync/coordinator.ts:496-515 | deferred recovery ends well exactly when afterwards no interrupted run needs a retry |
| RecoveryEnds.LinkThrewIff | src/lib/server/sync/coordinator.ts:429-487 | in every reachable queue linking throws exactly for a run that needs a retry which cannot be queued |
| RecoveryChains.EndedIsFrozen | src/lib/server/db/repositories/sync.ts:276-325 | an ended run and its dates never change again |
| RecoveryChains.StepsAreValidTransitions | src/lib/server/sync/contracts.ts:346-369 | every step of the queue changes run statuses along the documented transitions only |
| RecoveryChains.IntakeIsIdempotent | src/lib/server/db/repositories/sync.ts:163-182 | the same request and key, its dates in any order, at any later time gets the same run and adds none |
| Canonical.CanonicalizeDependencies | src/lib/server/import/canonical.ts:31-43 | the loop yields the sorted distinct nonempty normal forms, each once |
| Canonical.SameCanonicalIff | src/lib/server/import/canonical.ts:31-43 | two lists are canonically equal exactly when their sets of normal forms are |
| Canonical.ConflictIff | src/lib/server/import/canonical.ts:76-89 | occurrences of an id conflict exactly when a field or the set of dependencies differs |
| ImportedContent.CanonicalMeans | src/lib/server/import/canonical.ts:31-43 | the canonical dependencies are the nonempty texts that trimming and NFC leave, each once, in order |
| Importer.DayConserves | src/lib/server/import/importer.ts:399-487 | stored seconds are the larger of total and entity sum with a residual, else at most a second below the total |
| Importer.MergedByKey | src/lib/server/import/importer.ts:844-868 | each normalised key has one row with the seconds of all its entity rows |
| ImportedContent.StoredMeans | src/lib/server/import/importer.ts:399-487 | read off the dump: one row for each entity of a project in normal form, with the seconds of all its spellings, and a residual row exactly when more than a second is left or the day has heartbeats |
| ImportRun.Tables.ImportAll | src/lib/server/import/importer.ts:325-600 | succeeds exactly without repeated dates and unallowed conflicts; counters match stored rows and beats read; each id has one heartbeat with the payload first seen and the number of beats that have it, each id and payload one variant with its number, marked as a conflict unless it is the first |
| ImportRun.Tables.ReadBeat | src/lib/server/import/importer.ts:489-585 | a beat is new, an identical repeat or a conflict; the tables after it are those of one beat more |
| ImportRun.Tables.ReadSlices | src/lib/server/import/importer.ts:396-487 | a day's rows and the slice, merge and residual counters |
| Batch.BatchInserter.Add | src/lib/server/import/batch.ts:54-60 | rows arrive in order, in statements of at most a chunk; a row of the wrong width is refused |
| Batch.BatchInserter.Flush | src/lib/server/import/batch.ts:62-68 | nothing stays pending and the flushed count is the number of rows |
| Batch.ChunksEqualRows | src/lib/server/import/batch.ts:54-68 | running the chunks leaves the table that row-by-row upserts would |
| RateLimiter.AttemptLimiter.Play | src/lib/server/auth/admin-auth.ts:104-127 | over any mix of calls, clears and resets each answer is that of the pruned list of its key since its last clear |
| RateLimiter.PruningIsHarmless | src/lib/server/oauth/rate-limit.ts:9-19 | the pruned list answers as a full log would whenever no attempt pruned by one call is inside the window of a later one |
| RateLimiter.HarmlessIff | src/lib/server/oauth/rate-limit.ts:9-19 | and only then: at given times pruning changes no answer of any selection of the calls, for any limit, exactly when nothing returns |
| RateLimiter.ReturningAttemptDisagrees | src/lib/server/oauth/rate-limit.ts:9-19 | any attempt that one call prunes and a later one would see again lets one call too many through |
| RateLimiter.PruningChangesNoAnswer | src/lib/server/oauth/rate-limit.ts:9-19 | the corollary for nondecreasing times |
| RateLimiter.LimiterBound | src/lib/server/auth/admin-auth.ts:112-122 | under the same condition no window (end - window, end] holds more than the limit of allowed calls |
| RateLimiter.DecreasingTimesDisagree | src/lib/server/oauth/rate-limit.ts:9-19 | the same for a longer history: attempts at 0, pruned at 100 |
| RateLimiter.DecreasingTimesBreakTheBound | src/lib/server/oauth/rate-limit.ts:9-19 | and then a window can hold more allowed calls than the limit |
| Capabilities.RefusedIffHeld | src/lib/server/sync/capabilities.ts:290-381 | in every reachable state a refusal has a hold reason releasing strictly later, and a reason means refusal unless an expired date restriction overrides it |
| Capabilities.OldRestrictionsDoNotSpread | src/lib/server/sync/capabilities.ts:421-472 | old restrictions of other dates never change a decision about a date |
| CapabilityEffects.AfterSuccess | src/lib/server/sync/capabilities.ts:386-420 | a success opens the endpoint for its date and every date without a restriction of its own |
| CapabilityEffects.AfterRestriction | src/lib/server/sync/capabilities.ts:421-472 | a 402 or 403 holds its date back for exactly the interval, under its code |
| CapabilityEffects.RestrictionSpreads | src/lib/server/sync/capabilities.ts:421-472 | it holds the other unrestricted dates back for the same interval exactly if it came for a recent date or for none |
| CapabilityEffects.AfterFailure | src/lib/server/sync/capabilities.ts:481-545 | a deferral and an error hold them back until their time, with their reasons |
| CapabilityEffects.HeldUntil | src/lib/server/sync/capabilities.ts:290-381 | after any events a refused attempt is given an instant: at every time the attempt is allowed exactly from that instant on |
| CapabilityEffects.OthersStay | src/lib/server/sync/capabilities.ts:386-545 | events of one endpoint decide nothing about another |
| CapabilityEffects.RestrictedDatesStay | src/lib/server/sync/capabilities.ts:290-321 | a restricted date waits for its own time, whatever else happens to the endpoint |
| CapabilityEffects.ProbeMeans | src/lib/server/sync/capabilities.ts:244-288 | a probe is due exactly for a restricted date whose time has come, and otherwise where an attempt is allowed without a success so far |
| CapabilityEffects.RecentMeans | src/lib/server/sync/capabilities.ts:107-130 | a date is recent from six days before today on, in days of 86400000 milliseconds |
| TextForms.EntityMeans | src/lib/server/import/canonical.ts:99-113 | the normal form of an entity, said of its characters: domains in lower case, files with forward slashes, without trailing ones, in lower case when they start with a drive, others trimmed |
| TextForms.PathMeans | src/lib/server/classification/model.ts:88-91 | the normal form of a path in a selector: forward slashes, one trailing slash dropped, lower case after a drive |
| TextForms.TrimMeans | src/lib/server/import/canonical.ts:99-103 | trimming drops white space at both ends, all of it, and nothing else |

## Left out

- ArchiveHistory.RunsKeepConsistent: is stated for summaries whose keys stay distinct when entities are normalised again, because an update with a repeated key stores fewer rows (ArchiveDetail.OneRowPerSliceIff); ArchiveHistory.RunsHoldLast is for all summaries.
- ArchiveHistory.UpdateHolds: the same, for one update.
- Consolidation.GateIsEnough: is stated for stable selectors, which exact rules need (GateExactness.GateSufficesIff); for glob rules the need is not shown.
- RulePreview.PreviewIsExact: speaks of the decision for a slice, before stale heartbeat identities are demoted.
- RateLimiter.LimiterBound: is stated for times at which nothing pruned returns, because it can fail for others (RateLimiter.DecreasingTimesBreakTheBound); which of those fail depends on the limit.
- Reconcile.Archive.ReconcileDay: has no `source_imports`, stored raw payloads, slice identities, project activity dates or `sync_days` rows.
- Reconcile.Archive.Replace: the same.
- CatchupProgress.AllGapsClose: is stated for a fixed coverage start or watermark, on one day, with every selected date archived.
- Catchup.SelectStartupCatchupDates: leaves out requests whose today, or the day before whose policy window, lies before 0100-01-02 or past 9999-12-30.
- Calendar.DayStringIsInjective: days more than 100,000,000 from 1970-01-01 are beyond the reach of a Date and are all formatted alike.
- Unicode: strings are sequences of scalar values, so lone surrogates and iteration over UTF-16 units are not modelled; the selector length limit counts UTF-16 units of scalar values.
- Float rounding: seconds are real numbers; the rounding of previewed seconds for display is applied to these.
- JSON parsing and the optional-field checks in front of the normalisers; the model starts from typed records.
- Heartbeat fields beside id and canonical hash, heartbeat variants of a reconciled day, and the flags of `sync_layer_state` beside acceptance, evidence and downgrade.
- The `sync_days` row that a reconciliation writes for its run; the executor treats what the worker wrote as arbitrary.
- Reuse of slice row ids after deletion: the model hands out increasing ids.
- Other writers of the archive between reconciliations, such as the user editing allocations; the run theorems start from any consistent state, so they cover each stretch between such edits.
- The transitions table, top movers and coverage numbers of the consolidation analysis, and `getCoverage`.
- The stale-heartbeat demotion of slices when they are listed for classification.
- Recomputing today in the source time zone through `Intl`, schedule slots and cadence.
- An executor that goes on after `stop` gave up waiting for it and ended its run; within a run the rows marked by such a stop are modelled.
- `pumpLoop`'s catch path, listeners, and the promise that `cancel` and `stop` wait for.
- Two daily rows written with `force` over existing data, dry runs, account dimension totals and warnings of the importer.
- The worker, fetching, budgets and request pacing; OAuth, sessions and password hashing; the web routes, MCP server and presentation code.
- `CapabilityPolicy.evaluateSyncRun`, export and loading of its state.
