# Service supervisor: lifecycle, views and text scanners

This project models the parts of a development-time service supervisor where order and arithmetic
are easy to get wrong, and proves what they keep.

**Lifecycle.** Each service name has an epoch number. Starts, stops, exits, health probes and
delayed restarts interleave at awaits, and a callback may act only in the epoch that created it.
`HealthRules` states the rules for one name as functions on a `Cell`. `HealthMonitorClass` is the
monitor as the daemon holds it, a class over maps and timers whose methods are proved equal to these
functions name by name. `LifecycleProtocol` is the step system: one action per stretch of code
between two awaits, with all pending continuations in a map, so that every interleaving is a run.
`HealthLaws` and `LifecycleSteps` say of every rule and every step what it does, on the cells and
worlds before and after. `LifecycleSafety`, `LifecycleCover` and `LifecycleBudget` prove that every
step keeps the invariants, `LifecycleRuns` states the guarantees over whole runs, `LifecycleStreaks`
and `LifecycleHandles` two exact conditions, and `LifecycleWitnesses` gives runs that show what the
code does not guarantee. `StartWaves` is the wave loop of a start with its health waits.

**JSON view.** `JsonTokens` scans text, `JsonPrinter` prints values with two spaces of indent and
proves that scanner and printer agree, `JsonLiterals` and `JsonGrammar` relate texts to values (RFC
8259, sections 2 to 7) and give the weight by which the walk of `JsonTree` ends although strings are
parsed again, `JsonTokenLaws`, `JsonLayout`, `JsonTreePaths` and `JsonTreeOrder` say exactly what
tokens, printed texts and rows there are, `JsonRoundTrip` shows that a printed value denotes itself
and `JsonReading` that no text denotes two values, and `JsonPaths` shows that node ids are
unambiguous.

**Redaction.** `Scanning` holds the laws of any linear scan that keeps or replaces stretches of a
text. `Jwt`, `JwtLaws`, `JwtHeads` and `JwtLeftovers` (RFC 7515, section 7.1) and `Bearer` and
`BearerLaws` (RFC 6750, section 2.1) are its two uses, each with the loop of the code proved equal
to the scan, `KnownTokens` is the one after the other, and `CredentialShapes` writes out what is
gone after them. Several lemmas take the step of the scan, or the test of what is a credential, as a
parameter, so that they hold for any other test too.

**Views and small machines.** `LogWindow`, `LogPages`, `VirtualList` and `SearchSpans` for the log
list, `GraphLayers` with `LayerTheory` and `NameOrder` for the service graph, `Cascade` for
dependents, `Waterfall*` for traces, `SlidingWindow` for the rate limiter and `Command*` for command
lines.

## What the code does where one might expect otherwise

- `ProcessManager.stop` takes whatever is on record for the name off the record when its kill is
  done (app/src/adapters/process/processes.ts:329). If a newer process was spawned meanwhile, it
  stays alive off the record. `StopCanLoseANewerProcess` is such a run, and
  `LeavesUntrackedExactly` says that no other step does this; `NoOrphanOnRecord` is therefore about
  the record, and `LiveIsOnRecord` says what else can be alive.
- `bumpGeneration` does not reset the unhealthy streak, so a new epoch can be restarted by its first
  unhealthy probe (`StreakCrossesEpochs`). `EarlyArmExactly` gives the exact condition. It counts the
  results that add to the streak: one that is applied while a restart is pending does not, so that an
  epoch that begins with a positive streak can still see a whole threshold of them
  (`PendingRestartSparesResults`).
- A start that finds its epoch outdated stops the process it got if that is still on record. The
  comment there says that a replacement must be left alone
  (app/src/application/orchestrator.ts:434-439), but the replacement is what the process runtime hands over, so the test does not tell them apart:
  `CleanupCanStopAReplacement` is a run, `CleanupStopsOtherExactly` the exact condition.
- The stop of an orphan forgets the name when it is done, also if the name was configured and started
  again meanwhile (app/src/application/orchestrator.ts:224-228). The process is then an orphan on
  record (`ForgetCanOrphan`); `ForgetOrphansExactly` says when, and the next stop plan answers for it.
- The crash path reads `enabled` whatever the policy; the unhealthy path reads it only when no policy
  is set (app/src/application/health-monitor.ts:329-330). The rules keep this difference.
- `redactJwts` keeps the rest of a run of token characters and dots when no token starts at a prefix
  it comes to, so a token behind `eyJ.` in the same run stays in clear. `TokensAreGoneExactly` gives
  the exact condition under which no token is left, `RedactsIfNeeded` in `JwtHeads` the one under
  which a text is changed.
- The fixed-height window can miss a row without overscan (`MissedWithoutOverscan`); the log list uses 16.
- The trace walk does not end for some traces in which two spans share an id (`SharedIdNeverEnds`),
  which the span store does not rule out (app/src/adapters/storage/spans.ts:53-63). `EndsExactly`
  gives the exact condition; the walk and what it draws are proved under it. Only the laws that speak
  of the one parent of a span (`NoSpanTwice`, `SiblingsInOrder`, `OmittedExactly`) require ids that
  differ and are not empty.

## Model

| member | source | states |
|---|---|---|
| LifecycleRuns.NoOrphanOnRecord | app/src/application/orchestrator.ts:242-293 | In every reachable world a live process on record belongs to the current epoch, or a start, cleanup or stop continuation that will stop or is stopping it is pending, or an earlier stop of it failed, or the name was forgotten while it was current and no stop plan came since |
| LifecycleRuns.LiveIsOnRecord | app/src/adapters/process/processes.ts:114-185 | Every live process is the one on record or was taken off the record by an earlier stop of another process |
| LifecycleCover.LeavesUntrackedExactly | app/src/adapters/process/processes.ts:309-330 | A step leaves a live process off the record exactly when it ends a stop of another process while that process is on record |
| LifecycleWitnesses.StopCanLoseANewerProcess | app/src/adapters/process/processes.ts:329 | A run in which such a stop takes a newer live process off the record: the delete after the kill does not look at what is on record by then |
| LifecycleCover.ForgetOrphansExactly | app/src/application/orchestrator.ts:224-228 | Forgetting a name leaves a live process on record without anyone to answer for it exactly when that process is current and no pending continuation will stop it |
| LifecycleWitnesses.ForgetCanOrphan | app/src/application/orchestrator.ts:224-228 | A run in which it does |
| LifecycleHandles.CleanupStopsOtherExactly | app/src/application/orchestrator.ts:430-445 | The process that a stale start stops is of another epoch than its own exactly when the process runtime handed it over instead of spawning one |
| LifecycleHandles.FreshAt | app/src/adapters/process/processes.ts:114-129 | In every reachable world no process has the epoch of a start that has not spawned yet |
| LifecycleWitnesses.CleanupCanStopAReplacement | app/src/application/orchestrator.ts:434-442 | A run in which a stale start stops the live process of the current epoch, which was to be left alone |
| LifecycleRuns.HoldersStayStale | app/src/application/health-monitor.ts:218-232 | After a stop, while startOne is not entered, every timer, probe, exit and start continuation holds an epoch older than the current one |
| LifecycleRuns.StopIsFinal | app/src/application/orchestrator.ts:242-254 | If startOne is not entered after a stop, then once the pending starts and stops have run a process still live survived a failed stop or was displaced from the record |
| LifecycleRuns.OldTimersAreInert | app/src/application/health-monitor.ts:254-261 | A timer armed before such a stop changes nothing but its own registration when it fires |
| LifecycleRuns.GenerationsGrow | app/src/application/health-monitor.ts:218-228 | Epochs never shrink over a run, also across forgetting a name and adding it again |
| LifecycleRuns.StopMintsNewEpoch | app/src/application/health-monitor.ts:42-51 | A stop and a forget mint an epoch that no earlier world had reached |
| LifecycleRuns.ExitSilencesProbes | app/src/application/health-monitor.ts:397-399 | Once an exit has been handled for an epoch whose launch was recorded, no probe of that epoch changes anything in the cell, although the epoch is still current |
| LifecycleRuns.RestartBudget | app/src/application/health-monitor.ts:357-371 | Between two resets of the count at most max_retries restarts are armed, by crashes and unhealthy probes together, each taking one unit |
| LifecycleRuns.RestartDelay | app/src/application/health-monitor.ts:254-261 | A restart armed when the count is k waits backoff * 2^k seconds, carries the current epoch and is the one pending timer |
| LifecycleBudget.SumOfDelays | app/src/application/health-monitor.ts:254-261 | The waits of n restarts of one budget add up to backoff * (2^n - 1) seconds |
| LifecycleRuns.WaitsOfBudget | app/src/application/health-monitor.ts:254-261 | In every reachable world the waits since the last reset total at most backoff * (2^max - 1) seconds |
| LifecycleRuns.HealthyEndsHealthRestarts | app/src/application/health-monitor.ts:331-356 | After a Healthy result no probe of that epoch arms a restart, and a wait_for_healthy service never gets a health-triggered restart in any run |
| LifecycleRuns.ForgivenOnlyWhenStable | app/src/application/health-monitor.ts:377-385 | The count falls without a manual action only after the configured number of Healthy results in a row, with no Unhealthy between them, all applied in one epoch |
| LifecycleStreaks.StreakIsTrailingRun | app/src/application/health-monitor.ts:320-343 | In every reachable world the unhealthy streak is the number of Unhealthy results that counted since it was last cleared, over all epochs |
| LifecycleStreaks.EarlyArmExactly | app/src/application/health-monitor.ts:218-228 | A restart armed by an unhealthy probe comes before a whole streak of results that count in its own epoch, itself included, exactly when the streak was positive when the epoch began and no result of the epoch has cleared it, and the threshold is above one |
| LifecycleStreaks.EarlyArmByApplied | app/src/application/health-monitor.ts:341-348 | The same by the results applied in the epoch: fewer than the threshold imply a positive streak at its beginning and no other result since, and the converse holds if every Unhealthy result counted and none completed a streak |
| LifecycleWitnesses.PendingRestartSparesResults | app/src/application/health-monitor.ts:341 | A run in which the epoch begins with a positive streak and yet a whole threshold of results is applied before the restart, as a pending restart keeps two of them from counting |
| LifecycleWitnesses.StreakCrossesEpochs | app/src/application/health-monitor.ts:218-228 | The unhealthy streak outlives its epoch: with a threshold of three the first unhealthy probe of a new epoch can arm a restart |
| LifecycleRuns.InvariantAt | app/src/application/orchestrator.ts:320-445 | The invariants on epochs, records, continuations, budget, streaks and silenced epochs hold in every world of every run |
| LifecycleSteps.EveryStepObeys | app/src/application/orchestrator.ts:320-445 | Every step of every run does to state, epoch, timer, watch, record, processes and continuations what is said of it on the worlds before and after |
| LifecycleSteps.FailedStartFails | app/src/application/orchestrator.ts:423-429 | A start that fails leaves a failed service in a newer epoch without timer or watch, ends itself, and a stop of what is on record is pending; the name is active only if a live process is on record |
| LifecycleSteps.OutdatedStartOnlyEnds | app/src/application/orchestrator.ts:423-429 | A start that throws when its epoch is over changes nothing but that it is over |
| LifecycleSteps.FailedStartCanBeRepeated | app/src/application/orchestrator.ts:295-332 | After a failed start the next one begins a new epoch, unless a live process is on record |
| LifecycleSteps.CrashedServiceComesBack | app/src/application/health-monitor.ts:88-108 | From the death of a process whose exit is to be restarted from, over the timer and the start it begins, to a new live process on record in a new epoch, shown as running, with one restart counted |
| LifecycleSteps.StopBringsDown | app/src/application/orchestrator.ts:242-293 | From the first step of a stop to its last: the service is stopped in a new epoch, without timer or watch, its process is not live and none is on record |
| LifecycleSteps.EveryOutcomeIsPossible | app/src/application/orchestrator.ts:320-445 | A pending continuation may go on with every outcome of what it waits for; only a stop waits for its process to be gone |
| HealthLaws.ExitExactly | app/src/application/health-monitor.ts:59-108 | An exit of another epoch changes nothing; in its own the watch is gone, Failed stays, Stopping and Stopped end as Stopped, otherwise the state is Restarting exactly when a timer of the epoch is armed, which is when the service is configured and the crash rule holds, and else Failed in a new epoch without a timer |
| HealthLaws.ProbeExactly | app/src/application/health-monitor.ts:151-184 | What a probe result shows, counts, proves, arms and forgives, and that a stale, ignored or early one changes nothing |
| HealthLaws.StartHealthExactly | app/src/application/health-monitor.ts:110-125 | With a health check the epoch is watched, without one the service is healthy unless it is down |
| HealthLaws.FailExactly | app/src/adapters/daemon/supervisor.ts:1401-1413 | The epoch ends as FAILED without timer or watch; counts stay |
| HealthLaws.ForgetExactly | app/src/application/health-monitor.ts:42-51 | Forgetting leaves a newer epoch and nothing else but what is shown |
| HealthLaws.ActiveExactly | app/src/application/orchestrator.ts:295-318 | A name is active exactly if a live process is on record, or it is shown as coming up, up or healthy and not as going down |
| HealthLaws.CrashRestartsExactly | app/src/domain/service/policies.ts:17-30 | The crash rule as a table over enabled, policy, exit code and the number of restarts |
| HealthLaws.UnhealthyRestartsExactly | app/src/application/health-monitor.ts:329-332 | The unhealthy path follows a policy that is set whether or not restarts are enabled |
| HealthLaws.LimitsExactly | app/src/application/health-monitor.ts:254-261 | The defaults of the thresholds and of the backoff, and that each delay is twice the one before |
| LifecycleSafety.GoodKept | app/src/application/orchestrator.ts:320-445 | Every step keeps: no continuation holds an epoch that was not minted, start continuations hold distinct epochs, an untracked name is idle |
| LifecycleCover.TrackedKept | app/src/adapters/process/processes.ts:114-185 | Every step keeps each live process on record or remembered as displaced |
| LifecycleBudget.BudgetKept | app/src/application/health-monitor.ts:197-203 | Every step keeps the count equal to the restarts armed since the last reset, and within the maximum |
| LifecycleBudget.ReadyKept | app/src/application/health-monitor.ts:278-293 | Every step keeps the healthy streak equal to the trailing Healthy results, and readyOnce in an epoch with one |
| LifecycleBudget.SilentKept | app/src/application/health-monitor.ts:59-75 | Every step keeps the current epoch ignoring health results once an exit of it was handled |
| LifecycleBudget.HealthArmNeedsUnproved | app/src/application/health-monitor.ts:350-356 | A probe arms a restart only in an epoch without a Healthy result |
| LifecycleBudget.ForgivenessIsEarned | app/src/application/health-monitor.ts:377-385 | A probe resets the count only at the end of a long enough run of Healthy results |
| HealthMonitorClass.RestartTimers.Schedule | app/src/application/health-monitor.ts:239-246 | The timeout of the name is replaced: at most one pending timeout per name, and it is the one whose handle is kept |
| HealthMonitorClass.RestartTimers.Clear | app/src/application/health-monitor.ts:263-269 | The pending timeout of the name, if any, is cancelled, and no other |
| HealthMonitorClass.RestartTimers.ClearAll | app/src/application/health-monitor.ts:271-276 | No timeout is left registered with the event loop |
| HealthMonitorClass.RestartTimers.Fire | app/src/application/health-monitor.ts:241-244 | A timeout that fires was the pending one of its name and is pending no more |
| HealthMonitorClass.HealthMonitor.OnExit | app/src/application/health-monitor.ts:59-108 | The new state of the name and the outcome are those of the exit rule, all other names are untouched |
| HealthMonitorClass.HealthMonitor.StartHealth | app/src/application/health-monitor.ts:110-192 | A service with a health check is watched in this epoch, another is healthy at once |
| HealthMonitorClass.HealthMonitor.OnProbe | app/src/application/health-monitor.ts:151-184 | A probe result of another epoch, of an ignoring state or in the start period changes nothing; any other is shown and counted |
| HealthMonitorClass.HealthMonitor.SetHealth | app/src/application/health-monitor.ts:278-293 | Health and state of the name follow the rule, also for a name that is not tracked |
| HealthMonitorClass.HealthMonitor.MaybeRestartUnhealthy | app/src/application/health-monitor.ts:320-375 | Streaks, count and timer of the name follow the rule of unhealthy restarts |
| HealthMonitorClass.HealthMonitor.EndStreak | app/src/application/health-monitor.ts:357-374 | A completed streak starts over and arms a restart if one is left |
| HealthMonitorClass.HealthMonitor.MaybeForgiveRestarts | app/src/application/health-monitor.ts:377-385 | Healthy streak and count follow the rule of forgiveness |
| HealthMonitorClass.HealthMonitor.BumpGeneration | app/src/application/health-monitor.ts:218-228 | The epoch is the next one, the healthy streak and readiness start over, the unhealthy streak stays |
| HealthMonitorClass.HealthMonitor.BumpRestartCount | app/src/application/health-monitor.ts:197-203 | The private count and the one shown to clients are set together |
| HealthMonitorClass.HealthMonitor.ResetRestartCount | app/src/application/health-monitor.ts:209-212 | Count and healthy streak are zero |
| HealthMonitorClass.HealthMonitor.FireTimeout | app/src/application/health-monitor.ts:254-261 | The action of a restart timer runs exactly when its epoch is still current |
| HealthMonitorClass.HealthMonitor.Forget | app/src/application/health-monitor.ts:42-51 | Everything about the name but its epoch is dropped, and the epoch moves on |
| HealthMonitorClass.HealthMonitor.Dispose | app/src/application/health-monitor.ts:53-57 | All timers and watches are cancelled and every epoch has moved on |
| StartWaves.WaitHealthy | app/src/application/orchestrator.ts:495-508 | The wait succeeds exactly when a poll before the deadline sees HEALTHY with no failure or HEALTHY before it |
| StartWaves.NamesNeedingHealthWait | app/src/application/orchestrator.ts:546-565 | Exactly the names of the wave that a later step depends on with condition service_healthy, each once |
| StartWaves.LaunchWave | app/src/application/orchestrator.ts:167-182 | Every pending name of the wave is launched, even when another one fails, and each event tells how its startOne settles; the wave fails exactly if one of them rejects |
| StartWaves.AwaitWaveHealth | app/src/application/orchestrator.ts:479-493 | A name is observed healthy only with a poll that decides so, and timed out only with none; the wait succeeds exactly when every unblocked, checked name that a later wave wants healthy has such a poll |
| StartWaves.Start | app/src/application/orchestrator.ts:140-196 | A name is launched only after its healthy dependencies were observed healthy during this start, every event is true of the world, and nothing is launched after a failed wave or wait. It succeeds exactly when every pending name starts and every wanted wait has a healthy poll; the launched names are the pending ones of the waves up to the first that fails, in order |
| JsonTokens.ReadWhile | app/src/shared/json-view.ts:216-230 | The token is the longest run of characters from its start, and at least one character |
| JsonTokens.StringEnd | app/src/shared/json-view.ts:232-245 | The end is behind the first quote that no backslash escapes, or the end of the text |
| JsonTokens.NextToken | app/src/shared/json-view.ts:182-206 | The next token and where it ends are those of the lexical rules; every step makes progress |
| JsonTokens.TokenizeJson | app/src/shared/json-view.ts:99-108 | The tokens are those of the lexical rules for every text |
| JsonTokenLaws.FirstExactly | app/src/shared/json-view.ts:182-206 | The token at the front of any text, character by character: where a literal closes, what runs are maximal, when a word or a key is one |
| JsonTokenLaws.LexExactly | app/src/shared/json-view.ts:99-108 | Every token of a text obeys this where the one before ended |
| JsonTokenLaws.SpaceExactly | app/src/shared/json-view.ts:182-206 | White space by code points |
| JsonTokens.LosesNothing | app/src/shared/json-view.ts:99-108 | The texts of the tokens, joined, are the input, for every text |
| JsonPrinter.PrinterAndScannerAgree | app/src/shared/json-view.ts:39-48 | The tokens of a printed value that are not white space are exactly the value's own, with the right kinds; key exactly for member names |
| JsonPrinter.ScanPrinted | app/src/shared/json-view.ts:182-278 | The same for a value printed at any indent with any text behind it that may follow a value |
| JsonLayout.PrintedAsLaid | app/src/shared/json-view.ts:39-48 | The printed form is the tokens of the value laid out by the brackets that are open: two spaces each, a line break behind a comma and an opening and before a closing bracket, none in an empty pair |
| JsonLiterals.EscapeIsShortest | app/src/shared/json-view.ts:39-48 | Of all ways to write a character the shortest is printed, with small hexadecimal digits |
| JsonReading.PrintedIsReadBack | app/src/shared/json-view.ts:39-48 | The printed form of a value denotes that value, in any order of its members, and no other |
| JsonRoundTrip.PrintedDenotesItself | app/src/shared/json-view.ts:39-48 | The printed form is a text of the grammar whose strings, numbers and names are those of the value |
| JsonReading.DenotesOneValue | app/src/shared/json-view.ts:388-393 | A JSON text denotes at most one value, up to the order of members |
| JsonLiterals.EscapedDecodes | app/src/shared/json-view.ts:39-48 | What is printed between quotes reads as the string, escapes included |
| JsonLiterals.DecodedCloses | app/src/shared/json-view.ts:232-245 | The scanner finds the end of every string literal of the grammar at the quote behind it |
| JsonGrammar.WeighsNoMore | app/src/shared/json-view.ts:382-400 | A text of the JSON grammar weighs no less than the value it denotes: the measure by which the walk over strings that are parsed again ends |
| JsonPaths.IdsDiffer | app/src/shared/json-view.ts:291-293 | Paths with the same node id are equal |
| JsonPaths.IdIsCompactJson | app/src/shared/json-view.ts:291-293 | A node id is the compact JSON array of the path: its tokens with nothing between |
| JsonPaths.DecimalExactly | app/src/shared/json-view.ts:291-293 | An index is written as its digits without a zero in front |
| JsonTreePaths.RowsExactly | app/src/shared/json-view.ts:295-329 | The rows of the open tree are exactly those of the paths that resolve, each with the value its path leads to as it is shown, its depth, its number of entries and its match |
| JsonTreePaths.PathsExactly | app/src/shared/json-view.ts:295-329 | A path has a row exactly when it resolves: step by step into items by index and members by name, through strings that are opened |
| JsonTreePaths.ShownExactly | app/src/shared/json-view.ts:382-400 | A string is opened exactly when it trims to at least two characters, begins with a brace or bracket and parses to an object or array |
| JsonTreeOrder.SiblingsInOrder | app/src/shared/json-view.ts:318-328 | Of two rows under one parent the one whose item or member stands first comes first |
| JsonTreeOrder.RowsArePreorder | app/src/shared/json-view.ts:295-329 | The first row is the value itself, every other comes after its parent with only rows under the parent between |
| JsonTreeOrder.NoPathTwice | app/src/shared/json-view.ts:295-329 | No path has two rows |
| JsonTree.WalkJson | app/src/shared/json-view.ts:295-329 | The walk returns the preorder rows of the tree, with what is collapsed left out |
| JsonTree.WalkEntries | app/src/shared/json-view.ts:318-328 | The same for the entries of one node |
| JsonTree.ShownChildrenWeighLess | app/src/shared/json-view.ts:372-400 | The entries of a node, of a parsed string too, weigh less than the node |
| JsonTree.VisibleRowsAreAFilter | app/src/shared/json-view.ts:126-144 | The visible rows are the full rows, in order, without those below a collapsed row |
| JsonTree.VisibleExactly | app/src/shared/json-view.ts:295-329 | A row is visible exactly when it is a row of the full tree and no proper ancestor is collapsed |
| JsonTree.InitialCollapsedIds | app/src/shared/json-view.ts:110-124 | Collapsed by default are exactly the expandable rows from the given depth on |
| JsonTree.DefaultCollapseShowsDepth | app/src/shared/json-view.ts:110-124 | With them collapsed exactly the rows up to that depth are visible |
| JsonTree.AddAncestorIds | app/src/shared/json-view.ts:345-352 | Added are the ids of the root and of all proper prefixes of the path |
| JsonTree.ForceExpandMatches | app/src/shared/json-view.ts:331-343 | Still collapsed is what is neither the root nor above a match |
| JsonTree.MatchesAreVisible | app/src/shared/json-view.ts:331-343 | During a search every matching row is visible, whatever was collapsed |
| JsonTree.OnlyAncestorsAreOpened | app/src/shared/json-view.ts:331-352 | A search opens a row exactly if it is the root or a proper ancestor of a matching row |
| NameMarkers.NameContainsMarker | app/src/shared/redaction.ts:186-205 | Found exactly when the marker stands somewhere with a delimiter or an end of the name on both sides |
| Jwt.JwtEnd | app/src/shared/redaction.ts:262-284 | The end of the token that starts there, or -1 when none does |
| Jwt.JwtLengthExactly | app/src/shared/redaction.ts:262-284 | A token is exactly three segments of at least 16 characters joined by dots, the last read as far as it goes |
| Jwt.SkipJwtRun | app/src/shared/redaction.ts:286-296 | The run of token characters and dots is skipped, or one character |
| CredentialShapes.SegmentIsLong | app/src/shared/redaction.ts:258-305 | A segment is at least 16 letters, digits, hyphens and underscores |
| Jwt.RedactJwts | app/src/shared/redaction.ts:236-256 | The loop computes the scan that replaces a token at a prefix or keeps the whole run there |
| JwtLaws.OnlyTokensAreCut | app/src/shared/redaction.ts:236-256 | Outside the replaced stretches the text is untouched, and each of them is one whole token |
| JwtHeads.NoHeadTokenIsLeft | app/src/shared/redaction.ts:236-256 | No token is left that stands at the first prefix of its run of token characters and dots |
| JwtHeads.RedactsIfNeeded | app/src/shared/redaction.ts:236-256 | A text is left as it is exactly when no token stands at the first prefix of its run |
| JwtHeads.RedactIdempotent | app/src/shared/redaction.ts:236-256 | Redacting three-part tokens twice changes nothing more |
| JwtLaws.SegmentsMakeAToken | app/src/shared/redaction.ts:258-284 | Any three segments of at least 16 token characters, joined by dots and beginning with the prefix, are a token |
| JwtLeftovers.TokensAreGoneExactly | app/src/shared/redaction.ts:236-256 | The output holds no token exactly when in no run of the text a prefix that the scan reaches and that begins no token is followed by a token |
| JwtLeftovers.TokenInsideRunIsKept | app/src/shared/redaction.ts:250-252 | Each such token stands in the output as it was, whatever stands before and behind |
| JwtLeftovers.TokenBehindShortSegment | app/src/shared/redaction.ts:250-252 | Every token is kept so behind a short segment that begins with the prefix |
| KnownTokens.RedactBoth | app/src/shared/redaction.ts:225-227 | The two passes in the order of the code |
| KnownTokens.NoCredentialInBoth | app/src/shared/redaction.ts:225-227 | After both passes no "bearer " is left as a word with a credential after it: the second pass makes none |
| KnownTokens.BothIdempotent | app/src/shared/redaction.ts:225-227 | Both passes, done twice, change nothing more |
| Bearer.RedactBearer | app/src/shared/redaction.ts:308-333 | The loop computes the scan that replaces a credential after "bearer " as a word |
| CredentialShapes.BearerSecretsAreGone | app/src/shared/redaction.ts:308-333 | No "bearer " in any case is left as a word before a b64token of at least 20 characters, a Google access token or three long segments beginning with eyJ, all written out; a text is changed exactly when one stands there |
| CredentialShapes.SecretsAreGone | app/src/shared/redaction.ts:225-227 | The same after both passes; a text is changed exactly when one of these or a token at a head stands in it |
| CredentialShapes.LooksExactly | app/src/shared/redaction.ts:218-223 | These three shapes are what is taken for a credential, and nothing else |
| BearerLaws.BearerIsGone | app/src/shared/redaction.ts:308-333 | No "bearer " is left as a word with a credential after it |
| BearerLaws.RedactsIfNeeded | app/src/shared/redaction.ts:308-333 | A text is left as it is exactly when no credential stands in it |
| BearerLaws.RedactIdempotent | app/src/shared/redaction.ts:308-333 | Redacting bearer credentials twice changes nothing more |
| BearerLaws.OnlyCredentialsAreCut | app/src/shared/redaction.ts:308-333 | Outside the replaced stretches the text is untouched, and each of them is a credential |
| BearerLaws.NoCredentialIsLeft | app/src/shared/redaction.ts:308-333 | The same for any test of what is a credential that does not take the mask for one |
| BearerLaws.OpaqueExactly | app/src/shared/redaction.ts:218-223 | The opaque form is the b64token of RFC 6750, section 2.1, at least twenty characters long |
| Scanning.OnlyCutsChange | app/src/shared/redaction.ts:236-256 | Whatever the step, a scan keeps in place every character that it does not replace |
| LogWindow.AppendFollowEvents | app/web/logs.ts:216-252 | The batched form equals applying the accepted events one at a time, and then, if a row was appended, keeping the last max(1, cap) rows |
| LogWindow.AcceptedExactly | app/web/logs.ts:217 | Accepted are, in order and each once, exactly the events whose time stamp is not before the limit, or all without a limit |
| LogWindow.FollowKeepsUnique | app/web/logs.ts:216-252 | No two rows come to share a positive sequence number |
| LogWindow.LatestIsShown | app/web/logs.ts:221-240 | A row whose number occurs among the events shows the last such event, and no row changes its place |
| LogWindow.AppendedInOrder | app/web/logs.ts:225-239 | Behind the old rows stands one row for each event that no row or event before it shares the number of, in the order of arrival |
| LogWindow.FollowExactly | app/web/logs.ts:243-251 | The cap counts only when a row came in, and then the last max(1, cap) rows stay |
| LogPages.MergeInOrder | app/web/logs.ts:200-205 | Behind the page stand, in their order, exactly the rows newer than its last |
| LogPages.PrependInOrder | app/web/logs.ts:207-214 | In front stand, in their order, exactly the older rows of unknown numbers |
| LogPages.MergeKeepsUnique | app/web/logs.ts:200-205 | Merging an ascending page repeats no number, keeps the page in front and loses no newer row |
| LogPages.PrependKeepsUnique | app/web/logs.ts:207-214 | Prepending keeps every row, adds only rows of unknown numbers and repeats none |
| VirtualList.RowOffsets | app/web/logs.ts:191-198 | Entry i is the total height of the rows before row i |
| VirtualList.IndexAtOffset | app/web/logs.ts:175-189 | The last row that does not start after the offset, for heights that are not negative |
| VirtualList.MeasuredRange | app/web/components/log-list.tsx:118-126 | Every row that begins above the lower edge of the viewport and ends below the upper one is in the range, rows of no height too; above the top of the list only those that end below its top; the range is the rows at the edges with the overscan around them |
| VirtualList.MissedAboveList | app/web/components/log-list.tsx:118-126 | Scrolled above the list, more rows of no height than the overscan reaches back are not all rendered |
| VirtualList.FixedRangeCovers | app/web/logs.ts:160-173 | Every row in view is in the range exactly when there is overscan, or the row after those that fit does not exist or begins below the viewport |
| VirtualList.FixedRangeIsSmall | app/web/logs.ts:160-173 | At most ceil(view / row) + 2 * overscan rows are rendered |
| VirtualList.MissedWithoutOverscan | app/web/logs.ts:170-172 | Without overscan a row that is half in view is missed |
| SearchSpans.SpansForLiteral | app/web/logs.ts:388-398 | Each span is the first match behind the one before, and with fewer than 64 spans no match follows the last |
| SearchSpans.LogSearchText | app/web/components/log-list.tsx:420-442 | The parts joined are the text, and the marked ones are the spans |
| GraphLayers.Tally | app/web/graph.tsx:39-51 | The counts and the lists of dependents of all services, with the multiplicity of repeated dependencies |
| GraphLayers.NextFrontier | app/web/graph.tsx:57-70 | After a frontier is placed the counts are those of the rest, and the next frontier is, sorted, what has become ready |
| GraphLayers.Layers | app/web/graph.tsx:34-77 | The layers are the levels of the graph, each sorted, and then what is left over as it is configured |
| GraphLayers.EveryNameIsPlaced | app/web/graph.tsx:34-77 | Every service has a place |
| GraphLayers.NoNameIsPlacedTwice | app/web/graph.tsx:34-77 | It has only one |
| LayerTheory.EdgeGoesLater | app/web/graph.tsx:55-71 | An edge to a service of a level comes from an earlier level |
| LayerTheory.ChainsAreShort | app/web/graph.tsx:55-71 | No chain of dependencies that ends at a service of level k has more than k edges |
| LayerTheory.LongestChain | app/web/graph.tsx:55-71 | And one has exactly k |
| LayerTheory.LeftOverExactly | app/web/graph.tsx:72-75 | Left over are exactly the services on a dependency cycle of two or more services or downstream of one |
| GraphLayers.LeftoverInOrder | app/web/graph.tsx:72-75 | What is left over stands in the last layer as it is configured |
| NameOrder.LessExactly | app/web/graph.tsx:53-70 | Names are compared at the first place where they differ |
| NameOrder.SortRight | app/web/graph.tsx:53-70 | The sort keeps the names, and distinct names end up in the order of their code units |
| Cascade.AddDirectDependents | app/web/cascade.ts:14-26 | One pass adds exactly the services outside the selection to which a chain of dependents rises in the order of the configuration, says whether it added any, and a pass that adds none has found a closed set |
| Cascade.RestartDependents | app/web/cascade.ts:29-41 | The result is exactly the services outside the selection with a path of dependencies into it |
| Cascade.ReachingIsLeast | app/web/cascade.ts:29-41 | Every closed set holds it |
| Waterfall.ChildrenOf | app/web/waterfall.tsx:12-25 | Each parent is given its spans, sorted by start |
| Waterfall.BeginExactly | app/web/format.ts:58-62 | A span begins at the earlier of its ends, an end of zero standing for the start |
| Waterfall.SortIsStable | app/web/waterfall.tsx:21-23 | The sort keeps the spans, orders them by start and leaves spans that start together as they were |
| WaterfallWalk.Visit | app/web/waterfall.tsx:32-37 | A visit appends the subtree of the span, and ends, on every trace without a loop |
| WaterfallWalk.Walk | app/web/waterfall.tsx:29-42 | The walk returns the trees of all roots, and ends, on every trace without a loop |
| WaterfallWalk.WalkedExactly | app/web/waterfall.tsx:29-42 | A span is drawn at depth d exactly when a chain of d + 1 spans leads from a root to it |
| WaterfallLaws.NoSpanTwice | app/web/waterfall.tsx:29-42 | No span is drawn twice |
| WaterfallLaws.WalkedIsPreorder | app/web/waterfall.tsx:32-37 | Roots are at depth 0; every other span comes after its parent, one deeper, with nothing of the parent's depth or less between |
| WaterfallLaws.SiblingsInOrder | app/web/waterfall.tsx:21-23 | Of two spans under one parent the one that comes first among its sorted children is drawn first |
| WaterfallLaws.SiblingsByStart | app/web/waterfall.tsx:21-23 | Siblings are drawn by their start |
| WaterfallCycles.OmittedExactly | app/web/waterfall.tsx:29-42 | A span is left out exactly when its chain of parents leads into a cycle |
| WaterfallEnds.EndsExactly | app/web/waterfall.tsx:29-42 | The recursion ends exactly when no chain down from a root meets an id twice or the empty id; one level more than there are spans decides it |
| WaterfallEnds.SharedIdMayEnd | app/web/waterfall.tsx:29-42 | Two spans of one id may be walked to the end |
| WaterfallWalk.GoodIdsHaveNoLoop | app/web/waterfall.tsx:29-42 | A trace whose ids differ and are not empty has no such chain |
| WaterfallCycles.DrawnHasRoot | app/web/waterfall.tsx:29-42 | A span is drawn exactly when a chain leads from a root to it |
| WaterfallCycles.SharedIdNeverEnds | app/web/waterfall.tsx:32-37 | With two spans of one id the recursion need not end: cut off below any number of levels it fills them all |
| SlidingWindow.SlidingWindowLimiter.TryAcquire | app/src/shared/sliding-window.ts:15-23 | Refused exactly when the window that ends now already holds limit acquisitions of the key's whole history; in every window at most limit stay granted, and a key that had none left comes last |
| SlidingWindow.SlidingWindowLimiter.Prune | app/src/shared/sliding-window.ts:40-49 | The pruned list is exactly the history newer than the cutoff |
| SlidingWindow.SlidingWindowLimiter.Count | app/src/shared/sliding-window.ts:25-27 | The number of acquisitions of the key newer than the cutoff |
| SlidingWindow.SlidingWindowLimiter.Hottest | app/src/shared/sliding-window.ts:29-38 | The best key by the running comparison, each key at its own reading of the clock |
| SlidingWindow.HottestIsFirstMaximal | app/src/shared/sliding-window.ts:29-38 | That is the first key with the most acquisitions, and there is none only if all counts are zero |
| SlidingWindow.AcquireKeepsLimited | app/src/shared/sliding-window.ts:15-23 | One more acquisition, when fewer than limit are newer than the cutoff, keeps every window (t - windowMs, t] at limit or below |
| SlidingWindow.NewerExactly | app/src/shared/sliding-window.ts:40-49 | What is kept are, in order and each once, exactly the stamps after the cutoff |
| SlidingWindow.NewerTwice | app/src/shared/sliding-window.ts:40-49 | Pruning again with a later cutoff is pruning the whole history once |
| CommandLine.CommandArguments | app/web/command.ts:2-46 | The loop computes the run of the character machine |
| CommandGrammar.ReadAll | app/web/command.ts:8-41 | Every text is read as words, pieces and what is open at its end, and the machine's state is what was read |
| CommandLaws.ParsesExactly | app/web/command.ts:2-46 | A list of arguments is the result exactly when the input is written as words with these values, with gaps between, and the first is not empty |
| CommandLaws.UnfinishedExactly | app/web/command.ts:42 | The error about an open quotation or escape is reported exactly for inputs that are not written as words |
| CommandLaws.QuotingRoundTrip | app/web/command.ts:2-46 | Single-quoting every word and joining by spaces parses back to the words |
| CommandLaws.JoinedLines | app/web/command.ts:2-46 | Two inputs that parse, joined by a space, give both lists one after the other |

## Left out

- Container runtimes, adoption of processes that are already up (beyond the set of claimed names in `StartWaves`), and `dispose` as a step of a run: runs contain processes the daemon spawned, and end before disposal.
- Configuration changes during a run: one configuration per name; an exit and a restart timer may find the name removed, and a name may be forgotten and appear again.
- The `probing` flag: any number of probes may be in flight, which allows more runs than the code has.
- Environment resolution, ports, identity, hooks, proxy start, persistence and events inside `startOne`: each is an await that returns or throws.
- Reminder and start-period logging, and wall-clock time: delays are numbers, the start period is a flag of each probe result.
- Startup and shutdown planning: `StartWaves` takes the plan with dependencies in earlier waves as given; a stop plan is, for each name, one waiting continuation.
- `fail` on blockers before the waves: the set of blocked names is an input of `Start`.
- `JSON.parse`: a parameter of the tree walk that may only return what the grammar gives to the text, with numbers spelled anew; how numbers are rounded is not modelled, a number is the text that writes it.
- `coerceJsonInput`, previews, labels, `formatJsonPath` and the order in which JSON.parse enumerates members.
- UTF-16: a character beyond the basic plane is one `char`, where the code has two units and compares by units; half a surrogate pair, which no `char` holds, is read as U+FFFD.
- Letters outside ASCII: lower-casing is that of ASCII.
- Redaction by regular expressions: Google tokens and token assignments in running text, user patterns, and the name lists around `nameContainsMarker`.
- `Detector.update` and the other entry points of the detector: they choose which scans run.
- Time stamps of logs other than as strings compared by code units; sequence numbers that are not integers.
- Floating-point rounding: heights, offsets and delays are real numbers.
- The order of the result of `restartDependents`, which is sorted by locale; the result is a set, and its growth in place is a set that each pass returns.
- The order in which `kids.values()` is sorted in the trace view: each list is sorted on its own.
- Positions, edges and lanes of the graph drawing, and all React components.
- SlidingWindow.SlidingWindowLimiter.Hottest: the clock is read once for each key, as a list of readings that do not go back.
