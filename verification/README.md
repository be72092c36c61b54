# ggrun: verified models

ggrun decides whether a model fits memory, runs bounded experiments against a live server, and contains what
the backend allocates. This project models the state machines and the accounting behind that in Dafny and
proves what they keep. `dafny verify dfyconfig.toml` checks everything.

| files | what they model |
|---|---|
| `Workflow*.dfy` | the rewriter that adds a stall limit to every `agent(...)` call of a workflow script: its tokens (a subset of ECMA-262, 14th edition, sections 12.4 and 12.9), the call scanner, the list of edits, and what a second pass does |
| `Memguard*.dfy` | the allocation firewall: the ledger and its table under the mutex, and many threads that check, allocate, free and record in separate critical sections |
| `Calibration*.dfy`, `AdmissionWork.dfy` | the calibration controller with its prices and its clock, against processes, benches and an advisor that may answer anything; and the budget of one admission |
| `ContextSearch.dfy`, `PreflightRows.dfy`, `PreflightEvidence.dfy` | memory preflight: the interpolating context search, the two measures of fit, and evidence reconciled, persisted and reloaded |
| `BackendUpdate.dfy` | promotion, archiving and rollback of build trees, where any rename, removal, build or manifest write may fail |
| `CapabilityLock.dfy` | processes around one lock file and one record |
| `ServingWatch.dfy` | the watchdog: lines put together from chunks, and the kill rule |
| `GgufAccounting.dfy` | how the bytes of a model's tensors are charged, across shards and per layer |
| `CommandText.dfy`, `PowerShellText.dfy` | commands rendered for comparison and for PowerShell, and readers for both |
| `Options.dfy`, `Numbers.dfy`, `Text.dfy` | shared vocabulary |

Code that changes things in steps is a class or a method with loops; what it computes is a function, and the
theorems are lemmas about that function or about runs of a step function. Calls into the outside are methods
whose bodies choose any outcome their contract allows. Time is a whole number of nanoseconds, scores and slack
are reals, sizes are unbounded unless 64-bit wrap-around is written out.

Where a promised property does not hold of the code, the project keeps the code and proves when it does:

- A second pass over a rewritten script changes it exactly when some call without options leaves a brace or
  bracket open at its closing parenthesis, as `agent([)` does. An options argument that ends in a `//` comment
  swallows the text wrapped around it, and then even the first pass breaks the call
  (`WorkflowIdempotent.Twice`, `WorkflowComment.OpenBracketTwice`, `WorkflowComment.CommentLosesClose`,
  `WorkflowComment.CommentBreaksIdempotence`).
- Options count as limited as soon as the text `stallMs:2147483647` is anywhere in them, in a string or a
  comment too (`WorkflowOutput.OptionsText`).
- One thread can hold twice the host limit, because `mlock` inside a pinned allocation is checked before the
  outer call is recorded (`MemguardSafety.LimitReached`).
- Live bytes do not stay covered by their counter. `munlock` takes the whole record of an address whatever
  length it unlocks, and between a real free and the `record_free` after it another thread may be given the
  same address, whose new record is then taken. A run keeps the cover if and only if every `record_free` takes
  no more than was to spare, and a release keeps it if and only if its record stands for no more than was
  returned or to spare (`MemguardRace.PartialUnlock`, `MemguardRace.ReuseRace`,
  `MemguardSafety.CoveredExactly`, `MemguardSafety.ReleaseCovers`).
- A challenger's reserve prices the baseline's load but not its admission. The baseline is back by the
  optimization deadline, whatever an affordable challenger does within its bounds, if and only if restoring it
  takes no longer than its priced load; at the price the controller itself puts on a restoration some
  challenger leaves it 30 seconds late (`CalibrationCost.BackByDeadline`,
  `CalibrationCost.PricedRestorationLate`).
- The advisor's near-tie rule makes a measurement slower than the default serve exactly when it names one
  between 97 percent of the winner's score and the default's (`CalibrationDecision.PickScore`,
  `CalibrationDecision.SlowerServed`).
- A winner is to keep 95 percent of every phase of the default. Each challenger is only compared with the one it
  replaces, so that holds of every search if and only if at most one challenger is measured; of n, only 0.95 to
  the n-th is kept (`CalibrationDecision.PhasesHeld`, `CalibrationDecision.WinnerImproves`).
- A candidate is passed over when its arguments print like the baseline's, which is to be the same once every
  argument is cut at its spaces. That is the same argv if no argument holds a space; every argv of two
  arguments or more prints like another one (`CalibrationDecision.PrintTells`,
  `CalibrationDecision.PrintCollides`).
- An update in which nothing fails deletes the build it has just archived if and only if the recorded previous
  build is missing and its path is the first free archive name of the commit being replaced
  (`BackendUpdate.PromotionKeepsPrevious`, `BackendUpdate.ArchiveLost`).
- Removing a stale lock is not atomic with seeing it. A run keeps mutual exclusion if and only if every stale
  removal takes a lock nobody is working under; after one abandoned lock two waiters can break that and lose a
  write (`CapabilityLock.RunExclusive`, `CapabilityLock.StaleLockStolen`).
- A record that cannot be read is taken for an empty one and overwritten. A write loses nothing if and only if
  what was read is the record but for what the write sets; a failed read loses every other entry, with a fresh
  lock and a single process (`CapabilityLock.WriteKeeps`, `CapabilityLock.ReadDecides`,
  `CapabilityLock.UnreadableRecordLost`). On Windows the record is removed before it is replaced, so a failure
  in between loses it unless it was empty (`CapabilityLock.ClearDecides`, `CapabilityLock.ReplacedRecordLost`).
- A command displayed off Windows is to be replayed, but its assignments are written raw: it splits back if and
  only if no value needs quoting (`PowerShellText.PosixReadsBack`, `PowerShellText.ValueSplits`).
- What is tested of a log depends on where its chunks end if and only if a finished line is longer than 4,096
  bytes; of a line cut once, if and only if more than 4,096 bytes of it came before the cut
  (`ServingWatch.SplitsAgree`, `ServingWatch.SplitPoint`, `ServingWatch.LongLineDepends`).
- Tensors of one name are all charged the last one's span; the exact difference to the data section, and with
  one name twice the condition that the two spans are equal, are `GgufAccounting.SpansTotal` and
  `GgufAccounting.SameNameTwice`, and `GgufAccounting.LastSpanTwice` is such a file.
- A row that goes below zero can hide another row of its device from the summed measure of fit, so without
  merging the two measures agree only under a condition on the rows (`PreflightRows.SlackRulesOut`,
  `PreflightRows.RowHidden`).

## Model

| member | source | states |
|---|---|---|
| `WorkflowIdempotent.Twice` | clientkit/workflow.go:141-208 | for every text whose wrapped options do not end in a line comment, rewriting the output again changes nothing if and only if every call without options closes its braces and brackets; it never gets shorter |
| `WorkflowScript.PatchingTwice` | clientkit/workflow.go:138-208 | the same of whole scripts: patching a patched script is the identity exactly under that condition |
| `WorkflowOutput.EveryCallLimited` | clientkit/workflow.go:138-208 | every balanced call of a script without such comments is found again in the output, with its first argument and those after the second unchanged, and a second one that carries the text `stallMs:2147483647` |
| `WorkflowOutput.OptionsText` | clientkit/workflow.go:176-194 | that second argument is the original one if its expression carries the text, white space aside, otherwise the original expression between `Object.assign({}, (` and `), { stallMs: 2147483647 })`, or the limit alone where there was only white space |
| `WorkflowOutput.CallIff` | clientkit/workflow.go:153-169 | a call is taken for one exactly if `agent`, white space and a parenthesis that closes begin there and no dot stands before, white space aside |
| `WorkflowOutput.MethodKept` | clientkit/workflow.go:159 | a method called agent stays as it is |
| `WorkflowTokens.NameKept` | clientkit/workflow.go:153-161 | a name other than agent stays as it is, also if agent is a part of it |
| `WorkflowTokens.TokenKept` | clientkit/workflow.go:145-152 | a string, a template or a comment with its end stays as it is, whatever it holds, and holds no delimiter of a call |
| `WorkflowTokens.CommaInside` | clientkit/workflow.go:210-253 | a comma or a closing parenthesis between parentheses, braces or brackets neither divides arguments nor ends the call |
| `WorkflowTokens.CommaDivides` | clientkit/workflow.go:210-253 | a comma outside them divides arguments |
| `WorkflowComment.OpenBracketTwice` | clientkit/workflow.go:170-174 | `agent([)`, with any plain text behind the bracket, has no comment and is changed by a second pass |
| `WorkflowIdempotent.InStep` | clientkit/workflow.go:210-253 | from any depth inside a call, the scanner finds the call's end in a rewritten text exactly if it finds it in the original: rewriting nested calls never opens or closes the outer one |
| `WorkflowIdempotent.TextKept` | clientkit/workflow.go:143-168 | text pieces, identifiers and near-misses of `agent(` are found unchanged in the rewriter's output |
| `WorkflowIdempotent.CallKept` | clientkit/workflow.go:159-196 | a rewritten call is found as a call again, with the rewritten arguments if it was balanced and with one merged argument otherwise |
| `WorkflowTwice.RescanOptions` | clientkit/workflow.go:176-194 | after wrapping, the scanner still finds the same argument boundaries and the same end of the call |
| `WorkflowTwice.RescanBare` | clientkit/workflow.go:170-174 | after options are added to a call that had none, the scanner finds two arguments exactly if the first was balanced |
| `WorkflowLexer.WalkThenScan` | clientkit/workflow.go:210-253 | scanning a text that begins with whole tokens is scanning the rest from the depth they leave, for every follower that cannot join their last byte |
| `WorkflowRewrite.OptionsSettled` | clientkit/workflow.go:181-193 | rewritten options are recognised as carrying the limit, so they are not wrapped twice |
| `WorkflowEdits.ScanJSCall` | clientkit/workflow.go:210-253 | the loop over counters returns the closing parenthesis and the call's own commas of the recursive scan, or fails exactly when that does |
| `WorkflowEdits.SkipJSQuoted` | clientkit/workflow.go:255-281 | the index after the closing quote, escapes skipped, or the end of the text |
| `WorkflowEdits.PreviousNonSpace` | clientkit/workflow.go:311-318 | the last byte before i that is not white space, NUL when there is none |
| `WorkflowEdits.SortedIsReversed` | clientkit/workflow.go:203 | sorting the recorded edits by descending start yields them in reverse order of discovery, whatever sort is used |
| `WorkflowEdits.ApplyEdits` | clientkit/workflow.go:204-207 | applying edits that are in bounds, disjoint and increasing from right to left equals one simultaneous splice: all other text is kept, in order |
| `WorkflowScript.ChangeRewrites` | clientkit/workflow.go:170-194 | the one edit recorded for a call turns its argument text into the rewritten argument list, and lies inside its parentheses |
| `WorkflowScript.WorkflowNoTimeoutScript` | clientkit/workflow.go:141-208 | the index loop with its edit list computes the rewriting that the theorems are about |
| `WorkflowComment.CommentLosesClose` | clientkit/workflow.go:185-192 | a call whose wrapped options end in a line comment, the very calls idempotence is not stated for, is never read back with its arguments; and if the newline ending the comment stays, as it must unless vertical tabs or form feeds stand behind it, a closing parenthesis the scanner finds belongs to the text after the call |
| `WorkflowComment.CommentBreaksIdempotence` | clientkit/workflow.go:185-192 | a script on which the second pass changes text because of such a comment, although all its calls are balanced |
| `MemguardLedger.Guard.AllocationAllowed` | native/memguard/memguard.c:164-188 | for device and managed memory a request is allowed exactly if the GPU's own limit is not set, or it is empty, or it fits beside the GPU's active bytes; for pinned and locked memory the same of the host's; a device number out of range is GPU 0 |
| `MemguardLedger.Guard.RecordAllocation` | native/memguard/memguard.c:190-226 | a successful allocation takes the first free slot, if any, and is added modulo 2^64 to the active bytes of its GPU or, pinned or locked, of the host, whose peak follows; every other field stays, and failures change nothing |
| `MemguardLedger.Guard.RecordFree` | native/memguard/memguard.c:228-249 | a successful free clears the first used slot of the key and subtracts its size, saturating, from its GPU's or the host's active bytes; every other field stays, and failures and unknown keys change nothing |
| `MemguardLedger.Guard.RuntimeAllocate` | native/memguard/memguard.c:260-279 | one call on its own: a request over its own limit is denied and changes nothing, and no counter within its limit leaves it |
| `MemguardSafety.FirewallLimit` | native/memguard/memguard.c:164-249 | for every interleaving by T threads a limited GPU's active bytes plus allowed but unrecorded sizes stay within T times the limit, the host's within 2T times; so within the limit for one thread on a GPU |
| `MemguardSafety.LimitReached` | native/memguard/memguard.c:521-529 | both bounds are reached by some run, so they cannot be lowered |
| `MemguardSafety.LedgerAgrees` | native/memguard/memguard.c:190-249 | in every run a counter that never wrapped equals the used records plus what met a full table, so record_free never saturates; a limited counter whose askers' limits fit 64 bits never wraps |
| `MemguardSafety.WrapBreaks` | native/memguard/memguard.c:208 | a recording step keeps that agreement exactly if its addition does not overflow |
| `MemguardSafety.LiveBytesCovered` | native/memguard/memguard.c:339-361 | if releases are whole, keys are live once and not handed out between a real free and its record_free, counters and calls about to record cover all live bytes per counter, stale records of async frees included |
| `MemguardSafety.ForgetKeepsCover` | native/memguard/memguard.c:228-249 | without those rules record_free keeps every live allocation recorded exactly if the record it takes is not the only one left for one that is live |
| `MemguardSafety.CoveredExactly` | native/memguard/memguard.c:190-249 | in every run, with partial releases and reused keys, the bytes live stay covered throughout if and only if every record_free takes no more of the counter than is to spare; and while the counter has not wrapped, to be covered is to be at most the counter and what is about to be recorded |
| `MemguardSafety.RunCovers` | native/memguard/memguard.c:228-249 | the same equivalence from any covered state on |
| `MemguardSafety.StepCovers` | native/memguard/memguard.c:228-249 | a step keeps the bytes covered if and only if it is no record_free that takes more than is to spare |
| `MemguardSafety.ReleaseCovers` | native/memguard/memguard.c:531-537 | a release and its record_free keep the cover exactly if the record taken stands for no more than what was returned and what was to spare |
| `MemguardRace.ReuseRace` | native/memguard/memguard.c:339-348 | a run, keys live once throughout, that ends with nothing in flight, b live bytes and a counter of a, for any a and b whose requests the GPU limit allows |
| `MemguardRace.PartialUnlock` | native/memguard/memguard.c:531-537 | one thread locks a bytes and unlocks all but b of them: nothing is in flight, b bytes are live and the counter is 0 |
| `Calibration.Controller.RunCalibration` | go/cmd/ggrun/calibrate.go:948-1544 | whatever effects answer: nothing is handed back and nothing is live, or the only live process with the argv it was started with, after a stop one that was just started or seen running; a pending decision only with the measured argv of the winner it names, which is the measurement that won by makespan, phases and samples, or the first of the advisor's name within three percent of its makespan, and promoted exactly if it is the finalist; an unmeasured one only with the baseline; a missing one only for a stated reason, and the search ends only when every candidate was taken up, time or failures ran out, or automatic mode has its one measurement; in a prompt environment, with the load within its ceiling and a restoration within the price put on it, a stopped baseline leaves a server unless the advisor's helper could not be released, by the emergency deadline, and by the optimization deadline plus the restoration's excess when no winner or advisor was tried |
| `Calibration.Controller.TryCandidate` | go/cmd/ggrun/calibrate.go:1190-1265 | a turn of the candidate loop leaves the baseline untouched or nothing live, its priced restoration still before the deadline, charges at most one failure below the budget, appends at most this candidate's exact measurement, scored as the baseline's makespan over its own on the same workload and zero otherwise, and says why if it was not tried or not measured |
| `Calibration.Controller.Gate` | go/cmd/ggrun/calibrate.go:1190-1253 | a candidate is passed over only if its arguments print like the baseline's or it was refused, the search stops only out of time or money, and otherwise the experiment is affordable at that moment; the oracle is asked exactly of an affordable candidate while the baseline runs |
| `CalibrationDecision.PrintTells` | go/cmd/ggrun/calibrate.go:1199-1201 | two argv print alike if and only if they are the same once every argument is cut at its spaces, so printing tells apart argv whose arguments hold none |
| `CalibrationDecision.PrintCollides` | go/cmd/ggrun/calibrate.go:1199-1201 | every argv of two arguments or more prints like another one |
| `Calibration.Controller.Displace` | go/cmd/ggrun/calibrate.go:1255-1265 | the baseline's stop leaves an affordable challenger its priced admission, load and workload before the reserve; if it fails, what can serve is handed back |
| `Calibration.Controller.Admit` | go/cmd/ggrun/calibrate.go:1261-1382 | a start with none live, its refusal or its measurement, and the candidate's release, within what was priced |
| `Calibration.Controller.Measure` | go/cmd/ggrun/calibrate.go:1318-1382 | a process that is not the exact candidate is released unmeasured as a stable refusal; the exact one is measured, given up late or on a busy server, or charged as a failure, and released |
| `Calibration.Controller.Bench` | go/cmd/ggrun/calibrate.go:1047-1096 | a workload runs only on an idle server with more than three seconds left, and is given up only if one of the two is missing |
| `Calibration.Controller.AfterFailedRelease` | go/cmd/ggrun/calibrate.go:1169-1181 | a process that survived its stop is handed back, otherwise the baseline is restored, with no decision |
| `Calibration.Controller.FinishUnmeasured` | go/cmd/ggrun/calibrate.go:1389-1440 | a decision is pending exactly if the baseline runs with its own argv and automatic mode ran out of time or admission refused for good; it is about the first finalist, unmeasured in the first case and unavailable in the second |
| `Calibration.Controller.FinishMeasured` | go/cmd/ggrun/calibrate.go:1442-1543 | the winner, or after a failed restart the baseline, is in service with its measured argv or comes without a decision |
| `Calibration.Controller.RestoreService` | go/cmd/ggrun/calibrate.go:1552-1576 | a restart only in a window worth it, never longer than that window |
| `Calibration.Controller.Choose` | go/cmd/ggrun/calibrate.go:1442-1483 | the choice is the comparison's winner, or the near-tie the advisor selected: never below 97 percent of the winner's score; the advisor is asked exactly in the asked-for mode, on one slot, with time for it, and what it answered decides |
| `Calibration.Controller.NearTie` | go/cmd/ggrun/calibrate.go:1467-1482 | the first measurement of the selected name is chosen if and only if it reaches 97 percent of the winner's score |
| `CalibrationDecision.PickScore` | go/cmd/ggrun/calibrate.go:1467-1482 | the choice is within three percent of the winner, and slower than the measured default if and only if the advisor names a measurement in that band below it |
| `CalibrationDecision.SlowerServed` | go/cmd/ggrun/calibrate.go:1467-1482 | any measurement of 0.97 to 1 beside the default is served in its place when the advisor names it |
| `CalibrationCost.ChallengerFits` | go/cmd/ggrun/calibrate_cost.go:56-69 | an affordable challenger gets its priced admission and load after the baseline stop, and release and restoration still fit |
| `CalibrationCost.WinnerLeavesRestoration` | go/cmd/ggrun/calibrate_cost.go:112-124 | a winner restart that fails leaves the baseline's priced restoration inside the emergency window |
| `CalibrationCost.RestoringBegins` | go/cmd/ggrun/calibrate_cost.go:56-69 | whatever a challenger within its bounds does, restoring the baseline can begin one priced load before the deadline |
| `CalibrationCost.BackByDeadline` | go/cmd/ggrun/calibrate_cost.go:56-69 | the baseline is back by the deadline after every such challenger if and only if restoring it takes no longer than the priced load |
| `CalibrationCost.PricedRestorationLate` | go/cmd/ggrun/calibrate.go:1160-1162 | a restoration that takes its own price, admission and load, misses the deadline after some such challenger by exactly that admission |
| `CalibrationCost.PricedToTheEnd` | go/cmd/ggrun/calibrate.go:1214-1265 | the same for an experiment priced to the last nanosecond whose steps all take their price |
| `CalibrationCost.PricedLoad` | go/cmd/ggrun/calibrate_cost.go:126-141 | the priced load is the observed or worst permitted one, a quarter more, and at most a quarter over the ceiling |
| `CalibrationDecision.Best` | go/cmd/ggrun/calibrate.go:1442-1447 | the comparison's winner is a measurement: the default, or one that scores more than three percent above it |
| `CalibrationDecision.BestWins` | go/cmd/ggrun/calibrate.go:875-903 | the comparison loop finds the measurement that improves on the winner of those before it and on which none after it improves: more than three percent faster on the same workload, no phase more than five percent slower, the slowest sample no slower |
| `CalibrationDecision.OneWins` | go/cmd/ggrun/calibrate.go:875-903 | there is only one such measurement |
| `CalibrationDecision.OneChallenger` | go/cmd/ggrun/calibrate.go:875-903 | one challenger is chosen over the default if and only if it improves on it in that sense |
| `CalibrationDecision.WinnerImproves` | go/cmd/ggrun/calibrate.go:875-903 | a winner other than the default ran the same workload more than three percent faster with a slowest sample no slower, and keeps 0.95 to the number of challengers of every phase |
| `CalibrationDecision.PhasesHeld` | go/cmd/ggrun/calibrate.go:30-34 | the winner keeps 95 percent of every phase of the default, whatever was measured, if and only if there is at most one challenger |
| `CalibrationDecision.PickServes` | go/cmd/ggrun/calibrate.go:1467-1482 | what serves is that winner, or the first measurement of the advised name if its makespan is within three percent of the winner's |
| `CalibrationDecision.DecisionMeans` | go/cmd/ggrun/calibrate.go:1389-1440 | a decision is about the measured challenger, promoted exactly if it is to serve, or about the first planned one, which is unavailable |
| `CalibrationDecision.AttemptsCount` | go/cmd/ggrun/calibrate.go:770-779 | launches in a row that run out of time on one finalist are counted one by one, from the recorded count for that finalist or from zero |
| `Calibration.Controller.Serve` | go/cmd/ggrun/calibrate.go:1490-1506 | a winner is tried if there is one; within bounds something serves afterwards, by the emergency deadline, or by the optimization deadline plus the restoration's excess if no winner or advisor was tried; what serves was restarted with the winner's argv, or with the baseline's if that failed or there is no winner |
| `CalibrationDecision.Prioritize` | go/cmd/ggrun/calibrate.go:1660-1673 | the baseline first, a named finalist second, then the candidates of other names |
| `CalibrationDecision.OthersKeepOrder` | go/cmd/ggrun/calibrate.go:1666-1671 | those are each there once and in their order |
| `CommandText.FormatReadsBack` | go/cmd/ggrun/main.go:341-347 | a rendered command splits back into the very arguments it was rendered from |
| `CommandText.FormatInjective` | go/cmd/ggrun/main.go:341-411 | configurations that render the same are the same, so comparing renderings compares argv |
| `CommandText.ReadQuoted` | go/cmd/ggrun/main.go:391-411 | one quoted argument, whatever its characters, reads back whole before a space or the end |
| `CommandText.LeftBare` | go/cmd/ggrun/main.go:391-411 | an argument is written as it is exactly if it is not empty and needs no quoting |
| `AdmissionWork.AnyOrder` | go/cmd/ggrun/launch_work.go:106-182 | for any order of loads and grants at most the allowance, four converging and one admitted start, and every granted timeout is positive, within the ceiling of one start and what was configured, and ends by the fixed deadline |
| `AdmissionWork.AllowanceReached` | go/cmd/ggrun/launch_work.go:106-182 | some order uses the whole bound |
| `AdmissionWork.Admission.BeginLoad` | go/cmd/ggrun/launch_work.go:159-182 | granted exactly if the allowance is not used up and a second is left; the timeout is the least of what is left, the ceiling and what is configured |
| `AdmissionWork.Admission.GrantAdmittedStart` | go/cmd/ggrun/launch_work.go:106-115 | granted once, and then room for one start more |
| `AdmissionWork.Admission.GrantConvergingLoad` | go/cmd/ggrun/launch_work.go:119-126 | granted four times, one start more each |
| `ContextSearch.LargestFitting` | go/cmd/ggrun/preflight.go:1763-1784 | for any oracle the result is an answer it gave, fits, and is a multiple of 1,024 below the start, with at most five questions, none twice; when every device's slack lies on a line it is the largest such context, found with at most one interpolated question |
| `ContextSearch.Interpolate` | go/cmd/ggrun/preflight.go:1788-1801 | the largest multiple of 1,024 below the short end at which every short device is still on the fitting side of its line |
| `ContextSearch.LineDecides` | go/cmd/ggrun/preflight.go:1788-1801 | on straight lines one interpolation from any fitting answer names the largest fitting context |
| `ContextSearch.ShortSlopes` | go/cmd/ggrun/preflight.go:1794-1797 | a device short at the far end falls on its line from a fitting answer, so the early return is never taken |
| `PreflightRows.Merge` | go/cmd/ggrun/preflight.go:1275-1297 | one row per name that came, holding for each component exactly what came under it |
| `PreflightRows.SumAdds` | go/cmd/ggrun/preflight.go:1275-1297 | what a name holds is the sum over its rows, however they are grouped |
| `PreflightRows.WorstDeficit` | go/cmd/ggrun/preflight.go:1363-1398 | the largest deficit over all pairs of a row and its GPU, zero and no device if none |
| `PreflightRows.DeviceSlack` | go/cmd/ggrun/preflight.go:1912-1926 | per GPU with rows, what is left after the sum of its rows, overhead and growth |
| `PreflightRows.MeasuresAgree` | go/cmd/ggrun/preflight.go:1750-1757 | with one row per device the worst deficit is zero exactly if all slack is non-negative, and otherwise the largest negative slack |
| `PreflightRows.MergedMeasuresAgree` | go/cmd/ggrun/preflight.go:1275-1297 | after merging the same holds of the unmerged rows' sums, whatever their number, order and signs: no device is shorter than the reported deficit, and one is exactly that short if there is a deficit |
| `PreflightRows.SlackRulesOut` | go/cmd/ggrun/preflight.go:1363-1398 | without merging, slack rules out a deficit exactly if no row of the device exceeds their sum |
| `PreflightRows.RowHidden` | go/cmd/ggrun/preflight.go:1363-1398 | two rows whose sum just fits, one of them over what is free by any amount |
| `PreflightRows.NonNegativeRowsWithin` | go/cmd/ggrun/preflight.go:1363-1398 | rows that are never negative satisfy that |
| `PreflightEvidence.Reconcile` | go/cmd/ggrun/preflight.go:446-478 | the loops with their name index raise, for each measured peak in turn, the last row of its name or append one |
| `PreflightEvidence.ReconciledCovers` | go/cmd/ggrun/preflight.go:446-478 | no parsed row gets lower or changes a labelled component, and every measured peak, the host's too, is covered by a row |
| `PreflightEvidence.RaisedGrows` | go/cmd/ggrun/preflight.go:453-470 | the last row of a name comes to exactly the larger of its total and the peak, every other row stays |
| `PreflightEvidence.GuardedPlan` | go/cmd/ggrun/preflight.go:480-514 | an entry for every measured device and every CUDA row, and the host's bytes with its unexplained peak |
| `PreflightEvidence.WithPeakHolds` | go/cmd/ggrun/preflight.go:506-514 | the host's bytes come to the larger of what its row accounts for and what was held, with the labelled parts as they were |
| `PreflightEvidence.PlanDevicesAre` | go/cmd/ggrun/preflight.go:480-505 | each entry keeps the measured peak under the device's own ID and holds its row's bytes |
| `PreflightEvidence.Load` | go/cmd/ggrun/preflight.go:346-374 | evidence is refused unless found, at the guarded level and not empty; else one row per entry and one for the host if anything was measured there |
| `PreflightEvidence.ReloadIsMeasured` | go/cmd/ggrun/preflight.go:346-374 | reconciled rows persisted in bytes and reloaded give the same MiB by component for every CUDA device and the host, and no other rows |
| `PreflightEvidence.MiBSurvives` | go/cmd/ggrun/preflight.go:409-414 | a size in MiB survives its bytes exactly if it is not negative and fits them |
| `PreflightEvidence.CeilCovers` | go/cmd/ggrun/preflight.go:409-414 | rounding up to MiB covers the bytes exactly if its 64-bit addition does not wrap |
| `BackendUpdate.Installation.Update` | go/cmd/ggrun/backend_update.go:137-315 | under any failures only the staged candidate and the superseded archive are removed; an error leaves the record, every other tree and, if the undoing renames succeed, the active tree as they were, and the active tree on the disk anyway; a promotion follows two conformance runs, one of the staged tree and one of the active tree, and an error before it tries to remove what was staged; an error has a cause outside or finds every archive name taken; a promotion leaves the swapped trees and a record of the new commit, the reviewed patches and policy and the replaced version, and if nothing failed the disk that the state before it determines |
| `BackendUpdate.ArchiveNamesDiffer` | go/cmd/ggrun/backend_update.go:64-87 | the archive names of one commit differ, so none is overwritten |
| `BackendUpdate.CandidatesDiffer` | go/cmd/ggrun/backend_update.go:216 | a candidate is staged beside the active tree under a name that pruning accepts, another one every time |
| `BackendUpdate.Installation.Archive` | go/cmd/ggrun/backend_update.go:64-87 | the build is moved to an archive name of its commit that is free, the first such name if nothing failed, or nothing changes |
| `BackendUpdate.Installation.Swap` | go/cmd/ggrun/backend_update.go:410-428 | both trees change places, or everything is back unless an undoing rename failed |
| `BackendUpdate.Installation.Rollback` | go/cmd/ggrun/backend_update.go:361-408 | trees and record are exchanged, or both are as before unless an undoing rename failed; it fails only for a cause outside, an unmanaged record or an archive without its binary |
| `BackendUpdate.Installation.PruneCandidate` | go/cmd/ggrun/backend_update.go:98-104 | only a staged candidate beside the active build is ever removed |
| `BackendUpdate.PromotionKeepsPrevious` | go/cmd/ggrun/backend_update.go:241-309 | told before it begins: a promotion in which nothing fails keeps the tree it replaces at the recorded previous path unless the previous record names the first free archive name, which it does not while the older archive exists; and the active path holds the new build unless the previous record names that |
| `BackendUpdate.ArchiveStays` | go/cmd/ggrun/backend_update.go:301-309 | with any failures, the recorded previous path holds the tree that was active exactly if the archive pruned is another one |
| `BackendUpdate.ArchiveLost` | go/cmd/ggrun/backend_update.go:301-309 | when the older archive is gone and its name is the first free one of the commit replaced, such an update leaves the replaced build nowhere on the disk unless another tree holds the same |
| `BackendUpdate.RollbackTwice` | go/cmd/ggrun/backend_update.go:361-408 | two rollbacks restore both trees, and the record up to its timestamp exactly if both binaries are called alike |
| `BackendUpdate.UpdateThenRollback` | go/cmd/ggrun/backend_update.go:268-290 | a record written by an update can be rolled back to the old commit, patches and path, and that undone |
| `CapabilityLock.LockProtects` | go/cmd/ggrun/backend_capabilities.go:112-228 | for any interleaving, with crashes, stale removals, failing reads and failing writes: if every stale removal takes an abandoned lock, at most one process is between acquire and release; if also every read succeeds, or fails on a record that holds nothing but what is being set, and no write that first removes the record stops before replacing it, the record is the first one with every successful write applied |
| `CapabilityLock.YoungLockProtects` | go/cmd/ggrun/backend_capabilities.go:207-228 | while no lock file gets two minutes old nothing stale is removed, so the same holds with only the reads and the replacing as conditions |
| `CapabilityLock.StepExclusive` | go/cmd/ggrun/backend_capabilities.go:207-228 | a step keeps every process between acquire and release holding the lock if and only if it is no removal of a lock somebody works under |
| `CapabilityLock.RunExclusive` | go/cmd/ggrun/backend_capabilities.go:207-228 | a run keeps that throughout if and only if every stale removal in it takes an abandoned lock |
| `CapabilityLock.WriteKeeps` | go/cmd/ggrun/backend_capabilities.go:122-137 | a successful write keeps the record complete if and only if what was read is the record but for what the write sets |
| `CapabilityLock.ReadDecides` | go/cmd/ggrun/backend_capabilities.go:61-66 | reading and then writing keeps the record complete if and only if the read succeeded or the record held nothing but what is set |
| `CapabilityLock.ClearDecides` | go/cmd/ggrun/backend_capabilities.go:252-255 | where the record is removed before it is replaced, success does what a write without that does, and a failure or a crash in between keeps the record if and only if it was empty |
| `CapabilityLock.NothingCleared` | go/cmd/ggrun/backend_capabilities.go:252-255 | a run in which no write removes the record first never stops before replacing it |
| `CapabilityLock.ReplacedRecordLost` | go/cmd/ggrun/backend_capabilities.go:252-255 | a run of a single process whose failed rename leaves no record |
| `CapabilityLock.UnreadableRecordLost` | go/cmd/ggrun/backend_capabilities.go:61-66 | a run of two calls by one process, the second unable to read, that keeps only the second write, and is complete only if the two set the same |
| `CapabilityLock.ReplayHolds` | go/cmd/ggrun/backend_capabilities.go:112-205 | in such a record every flag written is present, with its latest reason, and the latest capabilities |
| `CapabilityLock.StaleLockStolen` | go/cmd/ggrun/backend_capabilities.go:219-222 | after an abandoned lock two processes can be between acquire and release at once, and the first write is lost |
| `CapabilityLock.GivesUp` | go/cmd/ggrun/backend_capabilities.go:219-226 | a waiter gives up exactly once its time is over |
| `CapabilityLock.TimesOut` | go/cmd/ggrun/backend_capabilities.go:207-226 | a call that finds the lock taken gives up if and only if more than its timeout has passed since it began |
| `ServingWatch.WaitForShutdownCrashOrWedge` | go/cmd/ggrun/backend_watchdog.go:215-269 | the polling loop ends at the first signal, at the first exit, or at the first poll at which a fatal line is overdue: completed, /health silent since, and the CPU ticks as read before for confirmAfter up to the check, counted from when they last moved |
| `ServingWatch.KillMeans` | go/cmd/ggrun/backend_watchdog.go:242-267 | the step of the loop kills at a poll if and only if a fatal line is overdue there, for every run of polls |
| `ServingWatch.FatalTested` | go/cmd/ggrun/backend_watchdog.go:228-246 | a fatal line is completed at some poll exactly if one is among the lines tested of the log |
| `ServingWatch.SilenceKills` | go/cmd/ggrun/backend_watchdog.go:242-267 | after a fatal line, silence with unchanged ticks for confirmAfter does kill |
| `ServingWatch.ChunksDoNotMatter` | go/cmd/ggrun/backend_watchdog.go:231-241 | however the log is split, every finished line of up to 4,096 bytes is tested once, whole and in order, and of a longer one at least its last 4,096 bytes |
| `ServingWatch.SameLinesTested` | go/cmd/ggrun/backend_watchdog.go:231-241 | two splits of one log whose lines fit test the same lines |
| `ServingWatch.LongLineDepends` | go/cmd/ggrun/backend_watchdog.go:239-241 | in any log, a longer line is tested whole when the log comes in one chunk and only its last 4,096 bytes when a chunk ends right before its newline |
| `ServingWatch.SplitPoint` | go/cmd/ggrun/backend_watchdog.go:239-241 | a line cut once is tested whole if and only if at most 4,096 bytes of it came before the cut |
| `ServingWatch.SplitsAgree` | go/cmd/ggrun/backend_watchdog.go:231-241 | all splits of a log test the same lines if and only if every finished line has at most 4,096 bytes |
| `GgufAccounting.ShardsFill` | tools/gguf/parse_gguf.py:399-457 | across shards every byte is charged once and a layer's expert bytes are routed plus shared; with usable offsets and unique names the total is all data sections |
| `GgufAccounting.EachChargedOnce` | tools/gguf/parse_gguf.py:334-396 | expert and non-expert bytes grow by exactly the tensors' sizes, and a layer's four tables together by exactly those of its tensors |
| `GgufAccounting.SpansFill` | tools/gguf/parse_gguf.py:316-332 | with usable offsets and unique names the spans of the tensors, in any order, fill the data section |
| `GgufAccounting.SpansTotal` | tools/gguf/parse_gguf.py:316-332 | with usable offsets the tensors, in any order and with any names, are charged the data section plus what repeated names misplace, and fill it exactly if that comes to nothing |
| `GgufAccounting.SameNameTwice` | tools/gguf/parse_gguf.py:322-332 | with one name twice among any tensors the total is off by the difference of the two spans, so it is the data section if and only if they are equal |
| `GgufAccounting.LastSpanTwice` | tools/gguf/parse_gguf.py:322-332 | two tensors of one name, of a and b bytes, are charged 2 b |
| `GgufAccounting.Spans` | tools/gguf/parse_gguf.py:321-332 | offsets are accepted exactly if they begin at zero, rise strictly and stay inside the data section, and spans are then the gaps by name |
| `GgufAccounting.DataStartIs` | tools/gguf/parse_gguf.py:314-317 | the data section begins at the first multiple of the alignment, 32 by default, at or behind the headers |
| `GgufAccounting.Accounts.Account` | tools/gguf/parse_gguf.py:301-396 | one shard adds what its tensors are charged, at spans if usable and by type arithmetic otherwise; every total and every per-layer table grows by exactly the sizes of the tensors whose names put them there |
| `GgufAccounting.TotalsApart` | tools/gguf/parse_gguf.py:334-396 | expert, shared, gate, table, other and embedding totals, and six tables at every layer, each grow by exactly the tensors whose names contain the parts that mark them |
| `GgufAccounting.ShardsApart` | tools/gguf/parse_gguf.py:399-457 | the same across all shards |
| `GgufAccounting.LayerWritten` | tools/gguf/parse_gguf.py:344-345 | a tensor named `blk.`, the decimal digits of k and a dot is of layer k |
| `GgufAccounting.LayerIs` | tools/gguf/parse_gguf.py:344-345 | a layer is found exactly if the name says one |
| `GgufAccounting.PublishExperts` | tools/gguf/parse_gguf.py:459-472 | in the published arrays expert bytes are routed plus shared in every layer, although the arrays may differ in length |
| `GgufAccounting.Publish` | tools/gguf/parse_gguf.py:467-472 | an array as long as the model or its last layer needs, with every entry of the table and zeros elsewhere |
| `PowerShellText.CommandReadsBack` | go/cmd/ggrun/command_display.go:26-47 | a displayed command reads back as the variables it sets, split at the first equals sign, and the very arguments it passes |
| `PowerShellText.DisplayReadsBack` | go/cmd/ggrun/command_display.go:26-47 | on Windows outside MSYS that is the command displayed |
| `PowerShellText.CutIs` | go/cmd/ggrun/command_display.go:36 | the first equals sign divides an assignment |
| `PowerShellText.LeftBare` | go/cmd/ggrun/command_display.go:75-97 | an argument is written as it is exactly if PowerShell hands it on unchanged |
| `PowerShellText.ArgsReadBack` | go/cmd/ggrun/command_display.go:75-97 | the argument list alone reads back, bare words, quoted ones and the stop-parsing marker alike |
| `PowerShellText.ReadDoubled` | go/cmd/ggrun/command_display.go:51-62 | a verbatim string with every kind of quote doubled reads back as the string |
| `PowerShellText.DisplayCommand` | go/cmd/ggrun/command_display.go:26-47 | PowerShell's assignments and call on Windows outside MSYS, elsewhere the comparison form after the raw assignments |
| `PowerShellText.PosixReadsBack` | go/cmd/ggrun/command_display.go:27-33 | elsewhere the displayed command splits back into its assignments and arguments if and only if no assigned value holds a character that would need quoting |
| `PowerShellText.ValueSplits` | go/cmd/ggrun/command_display.go:27-33 | a value with a space is displayed as two words |

## Left out

- `WorkflowScript.PatchingTwice`: scripts with an options argument that ends in a line comment are only covered by CommentLosesClose, for each such call, and one script on which idempotence fails, because what such a script means to the second pass depends on all the text after the call.
- `CalibrationDecision.BestWins`: the makespan and the slowest sample of a result are inputs; which field of a benchmark they come from is not modelled.
- `MemguardSafety.LiveBytesCovered`: keys that two guarded allocations share, such as a range both locked and registered, are outside it, because the ledger cannot tell whose record a free takes.
- `PreflightEvidence.ReloadIsMeasured`: rows with negative components or of 2^44 MiB and more do not come back, as MiBSurvives says; the order of the reloaded rows is not stated.
- `BackendUpdate.Installation.Update`: the checks that decide whether a rebuild is needed, git and the build itself are arbitrary outcomes; removal of a tree is all or nothing.
- `ServingWatch.WaitForShutdownCrashOrWedge`: a run is any finite number of polls; what makes a line fatal is a given predicate.
- JavaScript beyond the lexer: regular expression literals and templates inside templates are not understood by the rewriter and nothing is claimed about them; white space is ASCII.
- Placement, benchmarks, argv building and the memory oracle: their results are inputs. The parser repair loop of backend_capabilities.go is left out with them, since all it does depends on how an argv is rebuilt.
- CUDA row names are taken as parsed; strconv's other spellings of an index are not modelled.
- saveMemoryEvidence: only tests call it; launches persist what GuardedPlan models.
- Wire formats, printed messages, the launch-work ledger, cgroup and /proc reading: foreign calls whose results are inputs.
- Catalog scraping, the downloader, credential storage and the remaining argument parsers: platform-bound or easy.
