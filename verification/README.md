# Glasswatch: verified models of the stateful cores

Glasswatch is a patch-management service. Most of it moves rows between an API and a database; this
project models the parts that decide something and proves what they promise:

- **the patch scheduler**: the risk score, the greedy packing of findings into maintenance windows, the
  bundles and totals made from it (`Scoring`, `Scheduler`, `Optimality`, `Planning`, over `Sorting`);
- **the circuit breaker** and the error-rate bookkeeping (`CircuitBreaker`, over `Sliding`);
- **rate limiting**: the in-memory limiter, the Redis limiter as a two-step protocol, and the middleware
  that composes them (`MemoryLimiter`, `RedisLimiter`, `Middleware`, over `Sliding`);
- **approval and execution**: deployment rules, the approval service and the execution gate with one call
  at a time, approve and reject calls that overlap, and the run of a bundle's items (`RuleEngine`,
  `Approvals`, `SplitApprovals`, `Deployment`);
- **retention, comparison, selection**: backup records and their files, snapshot differences, and the
  choice of a maintenance window (`Backups`, `Snapshots`, `Windows`).

Code that updates state in place is a class or a method with loops, proved equal to a function of the old
state; the theorems are lemmas about those functions, over every input, every run or every interleaving.
`dafny verify dfyconfig.toml` checks the whole project.

## Conventions

Clocks, ids, outcomes of awaited calls and faults are parameters. Times are whole seconds in the
scheduler, the breaker and the services, and whole microseconds in the limiters. EPSS is in millionths.
A database table is a map or a sequence; an exception is an `Err`. Each endpoint has its own limit and
window, which do not change; a limiter's clock does not go back.

## Where the code and its documentation disagree

The model follows the code. Each point has a lemma below.

- The Redis limiter's pipeline is called atomic, but counting and adding are two steps: with k overlapping
  callers up to limit + k - 1 requests pass (`RedisLimiter.BoundIsReached`, `RedisLimiter.LimitIsKeptIff`).
- The 429 raised on a Redis denial is caught by the surrounding `except Exception`, so the in-memory limiter
  decides again: the configured limit is kept exactly when nobody exceeds it (`Middleware.LimitIsKeptIff`), and
  twice the limit passes (`Middleware.BurstPasses`); without a Redis client everything passes
  (`Middleware.FailingOpenPassesAll`).
- A half-open breaker is meant to recover. With overlapping calls it can use up its probes and then refuse
  every later call (`CircuitBreaker.RecoversIff`, `CircuitBreaker.ExhaustionIsReachable`).
- The error rate accepts any window, but timestamps older than 300 seconds are gone
  (`CircuitBreaker.RatesAreExactIff`).
- "Near quarter end" is missed for more than thirty days (`RuleEngine.QuarterEndIff`).
- A single rejection is meant to reject the request. An approval that overlaps it writes its own status over
  it (`SplitApprovals.LateApprovalOverwritesRejection`, `SplitApprovals.DecisionIsFinalIff`).
- Low risk is meant to be approved automatically. The request is, but its bundle is not released and the
  request refuses every later approval (`Approvals.AutoApprovalReleasesNothing`).
- The first item of a new window is placed without a capacity check, so the schedule can exceed the limits
  (`Optimality.GreedyIsFeasibleIff`, `Optimality.ShortWindowIsOverfilled`).
- Default windows "start from next Sunday": on a Sunday after two they start in the past
  (`Planning.FirstSundayIsNear`).
- The exposure points ignore case, the urgent-action test does not (`Scoring.ActionIsMonotoneIff`,
  `Scoring.SpellingChangesTheActionIff`).
- Verification ignores the status, so a failed backup whose file was finished becomes verified
  (`Backups.FailedBackupCanBeVerified`).
- Service differences record states only: the enabled flag of a service that is added or changes state is
  lost, while a change of the flag alone can be read back (`Snapshots.LaterSideIsKnownIff`,
  `Snapshots.RoundTripIff`). An empty version counts as a missing one (`Snapshots.LabelIsTrueIff`).
- Asset tags default to a list, which the window choice asks for dictionary entries (`Windows.FindsTheLeast`).

## Model

| member | source | states |
|---|---|---|
| Sorting.SortSorts | backend/services/optimization.py:379-380 | the sorted list is descending and holds the same elements as often |
| Sorting.SortIsStable | backend/services/optimization.py:379-380 | elements with equal keys keep their order |
| Sorting.SortIsTheStableSort | backend/services/optimization.py:379-380 | descending and stable leave one result only, so the insertion sort stands for the library's sort |
| Sorting.FilterSort | backend/services/backup_service.py:519-527 | filtering before or after the stable sort gives the same list |
| Scoring.CalculateScore | backend/services/scoring.py:60-211 | stores the breakdown of exactly the factors that apply, and the clamped sum of its points as score |
| Scoring.BreakdownAddsUp | backend/services/scoring.py:81-194 | the recorded lines add up to the eight factors |
| Scoring.BreakdownLines | backend/services/scoring.py:84-194 | severity, criticality, exposure and runtime always leave a line; EPSS, KEV, missing patch and controls exactly when they apply |
| Scoring.SeverityAndExposurePoints | backend/services/scoring.py:84-131 | severities are worth 30, 20, 10, 5 and 0, missing and unknown ones 10; exposures 10, 5 and 0, missing and unknown ones 0; capitals do not matter |
| Scoring.FindingPoints | backend/services/scoring.py:96-111 | a KEV listing is worth 20, an available patch 5 more than none, and an EPSS score its fifteenfold without the fraction |
| Scoring.AssetPoints | backend/services/scoring.py:113-194 | each step of criticality is worth 3, executed code 15 more and code not loaded 10 less than loaded code, a control in place 10 less |
| Scoring.NothingScoresNothing | backend/services/scoring.py:81-194 | a patchable finding without severity, EPSS and KEV listing on an isolated asset of criticality 0 that loads it sums to 0, which with the rows above fixes every sum |
| Scoring.ScoreMeans | backend/services/scoring.py:204-205 | the score is the sum where that lies between 0 and 100, else the nearer end |
| Scoring.LevelMeans | backend/services/scoring.py:214-228 | CRITICAL from 80, HIGH from 60, MEDIUM from 40, LOW below |
| Scoring.ActionMeans | backend/services/scoring.py:231-262 | immediate patching exactly for a KEV listing, executed code, 80 points, or 60 on an exactly spelled internet exposure; then standard patching exactly for an exploit or 40 points; then monitoring exactly from 20 |
| Scoring.ScoreIsMonotone | backend/services/scoring.py:81-205 | score and level never fall when none of the eight factors improves, for any EPSS and criticality |
| Scoring.ActionIsMonotoneIff | backend/services/scoring.py:230-262 | for a finding no less risky and no less exploitable, the action stays at least as urgent exactly unless the exact spelling of an internet exposure made the first one urgent, the second is spelled otherwise, and neither a score of 80 nor a KEV listing nor executed code makes it urgent |
| Scoring.SpellingChangesTheActionIff | backend/services/scoring.py:244-250 | rewriting an exact internet exposure in another case keeps the score, and changes the action exactly for scores from 60 to 79 without KEV listing or executed code |
| Scoring.SpellingChangesTheAction | backend/services/scoring.py:244-250 | a named pair of assets that differ in the case of their exposure only: both score 70, one is patched immediately, the other in the standard way |
| Scoring.CalculateVulnerabilityScore | backend/services/scoring.py:264-322 | the optimizer's wrapper returns the score, level, action and breakdown of a temporary row with the runtime record |
| Scoring.OptimizerScoreMeans | backend/services/scoring.py:283-311 | a runtime record decides about execution and loading, a missing one counts as code that is not loaded, and no control is applied |
| Scoring.BulkScore | backend/services/scoring.py:324-376 | scores exactly the rows without a score, or all on recalculation, leaves the others untouched and returns the summary of the outcomes |
| Scoring.BulkScoreAgain | backend/services/scoring.py:324-376 | recalculating twice gives the same rows and summary; without recalculation nothing is then scored |
| Scoring.SummaryCounts | backend/services/scoring.py:341-376 | the distribution counts each level and sums to the number of scored rows |
| Scheduler.OptimizeWithHeuristic | backend/services/optimization.py:357-444 | the loop with its accumulators returns the packing of the sorted list: window after window takes the next items it has room for |
| Scheduler.FitsIff | backend/services/optimization.py:259-278 | constraints 2 and 3 admit a load exactly up to the capacity min(max vulnerabilities, half hours in the limit), given that they admit an empty window |
| Scheduler.FitsMeans | backend/services/optimization.py:259-278 | constraints 2 and 3 hold of a load exactly if it is within the maximum of patches, the maximum downtime and the window's own length |
| Scheduler.HundredthsTruncates | backend/services/optimization.py:275-278 | the conversion of hours times 100 to an integer drops the fraction towards zero |
| Scheduler.CapacityMeans | backend/services/optimization.py:398-408 | a window's capacity covers n half hours exactly if the maximum of patches, the maximum downtime and the window's length all do |
| Scheduler.SlotFits | backend/services/optimization.py:398-408 | the loop's capacity test on count and accumulated duration holds exactly while the window has room left |
| Optimality.PrefixDominance | backend/services/optimization.py:255-278 | for every k the greedy schedule has at least as much risk in the first k windows as any assignment that satisfies constraints 1 to 3 |
| Optimality.MinimalRiskTime | backend/services/optimization.py:304-317 | the greedy schedule minimises total risk-time, unscheduled items counted for all windows, over all assignments that satisfy constraints 1 to 3 |
| Optimality.GreedyIsFeasibleIff | backend/services/optimization.py:425-432 | the greedy schedule satisfies constraints 1 to 3 exactly when the limits admit every empty window and each window entered after the first has room for one item |
| Optimality.ShortWindowIsOverfilled | backend/services/optimization.py:425-432 | a ten-minute second window receives a half-hour item |
| Optimality.GreedyIsAssignment | backend/services/optimization.py:394-432 | every item gets one window or none |
| Optimality.RiskierFirst | backend/services/optimization.py:379-444 | a riskier item is never scheduled later than a less risky one, nor left out while that is scheduled |
| Optimality.CriticalBeforeHigh | backend/services/optimization.py:280-302 | every CRITICAL item comes no later than any HIGH one, as the comment of constraint 4 asks |
| Optimality.PlaceAt | backend/services/optimization.py:394-432 | position p of the sorted list goes to the window whose room covers p |
| Optimality.PlacedShare | backend/services/optimization.py:394-432 | each window receives exactly min(its room, the items left) |
| Optimality.UnsortAt | backend/services/optimization.py:371-380 | every item of the input keeps the window of its place in the sorted list |
| Optimality.UnsortTally | backend/services/optimization.py:371-380 | counts and risk sums per window agree between input order and sorted order |
| Optimality.SelectionBound | backend/services/optimization.py:379-380 | any m distinct items sum to at most the top m of the sorted list |
| Optimality.PackEntries | backend/services/optimization.py:415-442 | every entry holds the slice of the sorted list its window has room for, and windows strictly increase |
| Optimality.PackCovers | backend/services/optimization.py:415-442 | every window that receives an item has an entry |
| Optimality.PackFlattens | backend/services/optimization.py:394-444 | all entries together are a prefix of the sorted list: nothing twice, nothing skipped |
| Optimality.ScheduleIsGreedy | backend/services/optimization.py:415-442 | a window's entry counts exactly the items the assignment sends there, and a window without entry gets none |
| Optimality.WindowsAreFullButNotOver | backend/services/optimization.py:394-442 | a window with more than one item, and the first in any case, keeps the maximum of patches, the maximum downtime and its own length; a window behind which anything is left could not take one more |
| Optimality.EntriesOfSchedule | backend/services/optimization.py:415-442 | an entry takes half an hour an item, names the assets of its items and sums their scores |
| Planning.OptimizeGoal | backend/services/optimization.py:114-230 | one bundle row per schedule entry, none for a preview or without findings; reported counts, risk total and completion are those of the scheduled prefix |
| Planning.Totals | backend/services/optimization.py:197-200 | the two sums over the schedule equal count and risk of the distinct scheduled items |
| Planning.PackedSchedule | backend/services/optimization.py:184-200 | the schedule's entries name windows of the list and its items are the covered prefix |
| Planning.CreateBundle | backend/services/optimization.py:446-490 | a bundle for the entry's window with its risk and whole minutes, approval required above five assets, and one item row per finding with that finding's vulnerability, asset and score |
| Planning.CreateBundles | backend/services/optimization.py:189-195 | one bundle per entry; their item rows together are those of the schedule |
| Planning.NoPairTwice | backend/services/optimization.py:477-488 | no (vulnerability, asset) pair is repeated in the bundles when none is in the input |
| Planning.CreateDefaultWindows | backend/services/optimization.py:492-521 | weekly four-hour windows from the first Sunday at two |
| Planning.FirstSundayIsNear | backend/services/optimization.py:501-505 | the first window is on a Sunday at two, at most a week ahead, and not before the start exactly unless that is a Sunday past two |
| Planning.EpochWasThursday | backend/services/optimization.py:501-505 | the weekday count starts on the right day and advances daily |
| CircuitBreaker.ErrorService.constructor | backend/services/error_service.py:52-70 | a new service sees every circuit closed with nothing counted |
| CircuitBreaker.ErrorService.Begin | backend/services/error_service.py:388-411 | the part before the await admits or refuses as the breaker's state says and touches no other service |
| CircuitBreaker.ErrorService.End | backend/services/error_service.py:413-435 | the part after the await settles with the state snapshot taken before, not the current state |
| CircuitBreaker.ErrorService.Call | backend/services/error_service.py:370-435 | an undisturbed call is the composition of both parts |
| CircuitBreaker.RunsAreConsistent | backend/services/error_service.py:388-435 | in every sequential run CLOSED has fewer failures than the threshold, OPEN at least as many, HALF_OPEN at least one less and no probe counted |
| CircuitBreaker.ProbesNeverExhausted | backend/services/error_service.py:404-411 | in sequential runs the probe quota never refuses a call and every failed probe reopens |
| CircuitBreaker.TwoSuccessesClose | backend/services/error_service.py:395-424 | from OPEN after the timeout two successive successes restore CLOSED with count 0 |
| CircuitBreaker.OpenRefusesUntilTimeout | backend/services/error_service.py:394-403 | in every interleaving an open breaker has seen a call fail, refuses every call until more than the timeout has passed since the last failure, and admits the first call after that and moves to half-open |
| CircuitBreaker.OpenSinceFailure | backend/services/error_service.py:425-433 | the stored failure time is that of the last call that failed, and only a failure opens the breaker |
| CircuitBreaker.CounterIsPeak | backend/services/error_service.py:415-433 | since a reset the counter is the largest excess of failures over successes of any suffix, and the breaker opens exactly when a stretch reaches the threshold |
| CircuitBreaker.QuotaHolds | backend/services/error_service.py:395-411 | in every interleaving the probe counter equals the probes admitted since the last move to HALF_OPEN and stays within the maximum |
| CircuitBreaker.ProbesPerMove | backend/services/error_service.py:395-411 | in every interleaving at most the maximum of probes is admitted between two moves to HALF_OPEN, besides the moving call |
| CircuitBreaker.ExhaustedIsFinal | backend/services/error_service.py:404-411 | a half-open breaker with its probes used up and nothing in flight refuses every call for ever |
| CircuitBreaker.RecoversIff | backend/services/error_service.py:395-432 | a half-open breaker, whatever calls are in flight, can still close exactly when a probe is left, a probe is under way, or enough calls are under way to reopen it by failing |
| CircuitBreaker.StuckStays | backend/services/error_service.py:395-432 | otherwise it stays half-open without a probe in every continuation |
| CircuitBreaker.IdleRecoversIff | backend/services/error_service.py:404-424 | with nothing in flight it can close exactly when a probe is left |
| CircuitBreaker.ExhaustionIsReachable | backend/services/error_service.py:388-435 | ten overlapping calls with the default limits lead there |
| CircuitBreaker.ErrorTracker.Track | backend/services/error_service.py:202-212 | one more error counted, its timestamp appended, timestamps past five minutes dropped, other groups untouched |
| CircuitBreaker.ErrorTracker.CalculateErrorRate | backend/services/error_service.py:339-362 | the rate times the window is the number of stored timestamps inside it |
| CircuitBreaker.TrackedIsRecentHistory | backend/services/error_service.py:202-212 | the stored timestamps are the whole history cut to the last 300 seconds |
| CircuitBreaker.RatesAreExactIff | backend/services/error_service.py:339-362 | rates are exact for every history and moment exactly for windows of at most 300 seconds |
| CircuitBreaker.LongWindowUndercounts | backend/services/error_service.py:339-362 | for every longer window a history whose rate is too low |
| MemoryLimiter.Judge | backend/middleware/rate_limit.py:49-64 | the pruning loop, limit test and retry hint compute the decision function |
| MemoryLimiter.InMemoryRateLimiter.IsAllowed | backend/middleware/rate_limit.py:32-64 | decides on the list of one key and endpoint and changes no other list |
| MemoryLimiter.InMemoryRateLimiter.Clear | backend/middleware/rate_limit.py:66-69 | forgets every list |
| MemoryLimiter.ListIsWindowOfHistory | backend/middleware/rate_limit.py:52-64 | the stored list is the full admission history cut to the window and never exceeds the limit |
| MemoryLimiter.WindowBound | backend/middleware/rate_limit.py:45-64 | no interval of one window's length holds more admissions than the limit |
| MemoryLimiter.AllowedIff | backend/middleware/rate_limit.py:52-64 | a call is allowed exactly when fewer admissions than the limit lie in the window that ends with it |
| MemoryLimiter.KeysAreIndependent | backend/middleware/rate_limit.py:48-64 | each key and endpoint, with its endpoint's own limit and window, behaves as if no other existed |
| MemoryLimiter.AllowedAgainIff | backend/middleware/rate_limit.py:56-64 | after a denial the next call is allowed exactly once the oldest entry has left the window |
| MemoryLimiter.RetryAfterIsSoundAndTight | backend/middleware/rate_limit.py:56-60 | waiting retry_after seconds suffices, and a wait shorter than retry_after - 1 seconds never does |
| RedisLimiter.RateLimiter.CheckRateLimit | backend/services/rate_limiter.py:82-127 | prune, count, add and expire on one key with each fault's outcome, failing open, other keys untouched |
| RedisLimiter.RunKeepsInv | backend/services/rate_limiter.py:89-122 | with k overlapping callers set size plus pending adds stay within limit + k - 1 and recent admissions are in one of the two |
| RedisLimiter.SetStaysSmall | backend/services/rate_limiter.py:98-119 | the sorted set never holds more than limit + k - 1 entries |
| RedisLimiter.WindowBound | backend/services/rate_limiter.py:89-122 | no window sees more than limit + k - 1 admissions; for one caller that is the limit |
| RedisLimiter.BoundIsReached | backend/services/rate_limiter.py:16-18 | for every limit and k, in a window of at least that many clock ticks, a legal run in which limit + k - 1 requests pass |
| RedisLimiter.LimitIsKeptIff | backend/services/rate_limiter.py:16-18 | the limit is kept in every run and window exactly when callers do not overlap, or the window has no more clock ticks than the limit |
| RedisLimiter.RefusedOnlyWhenFull | backend/services/rate_limiter.py:97-110 | however callers overlap, a call is refused only if its window holds as many admissions as the limit |
| RedisLimiter.AdmittedIff | backend/services/rate_limiter.py:97-122 | with nobody else under way a call is admitted exactly when its window holds fewer admissions than the limit |
| RedisLimiter.OutcomeMeans | backend/services/rate_limiter.py:97-122 | a call counts the timestamps of its window; refused it has nothing remaining, admitted its entry is added for a minute beyond the window and entries and remaining requests make up the limit |
| RedisLimiter.FaultsFailOpen | backend/services/rate_limiter.py:84-86 | with any fault a request is refused only by a full set already counted, and the whole limit is reported as remaining |
| RedisLimiter.NoLimitNoAdmission | backend/services/rate_limiter.py:108-111 | a limit below one admits nobody |
| Middleware.RateLimitMiddleware.Dispatch | backend/middleware/rate_limit.py:91-147 | unlimited paths pass untouched; on the others a Redis denial or failure hands the decision to the in-memory limiter; the Redis keys and lists of other clients and paths stay as they were |
| Middleware.ConfiguredLimits | backend/middleware/rate_limit.py:84-89 | ten logins, twenty callbacks and five demo logins a minute, five new keys in five minutes |
| Middleware.NoOtherLimits | backend/middleware/rate_limit.py:95-100 | no path is limited that does not start with one of the four prefixes |
| Middleware.RedisHalf | backend/middleware/rate_limit.py:111-127 | while Redis is up its half of every serial run is a run of the two-step protocol with one caller |
| Middleware.MemoryHalf | backend/middleware/rate_limit.py:129-143 | the other half is a run of the in-memory limiter over the calls Redis denied, whatever goes wrong |
| Middleware.AtMostTwiceTheLimit | backend/middleware/rate_limit.py:111-143 | with Redis up no window sees more than twice the limit pass |
| Middleware.BurstSplits | backend/middleware/rate_limit.py:111-143 | of a burst Redis passes the first limit requests and the memory limiter the next limit |
| Middleware.LimitIsKeptIff | backend/middleware/rate_limit.py:111-143 | in every run, whatever goes wrong with Redis at any call, what passes respects the configured limit in every window exactly when what arrives does: the composition never enforces the limit itself |
| Middleware.SparsePasses | backend/middleware/rate_limit.py:111-127 | as long as no window holds more requests than the limit, all pass the Redis step and the in-memory list stays empty |
| Middleware.DensePasses | backend/middleware/rate_limit.py:129-143 | the first request that exceeds the limit in some window passes too |
| Middleware.BurstPasses | backend/middleware/rate_limit.py:111-143 | of a burst of n within one window min(n, twice the limit) pass while Redis is up |
| Middleware.FailingOpenPassesAll | backend/services/rate_limiter.py:84-86 | without a Redis client, or with every pipeline failing, all requests of any run pass |
| Middleware.KeysDiffer | backend/middleware/rate_limit.py:106-116 | two different pairs of client host, which holds no slash, and path never share a Redis key |
| Middleware.ClientsAreIndependent | backend/middleware/rate_limit.py:102-143 | on a site with any number of clients and paths, each path with its own limits, each pair is served as if there were no other |
| Middleware.PerClientLimits | backend/middleware/rate_limit.py:102-143 | so for each client and path at most twice its limit passes while Redis is up, and the limit is kept exactly when the arrivals keep it |
| RuleEngine.EvaluateDeployment | backend/services/rule_engine.py:46-105 | counts the tenant's enabled rules, collects the matches by falling priority and returns the verdict they demand |
| RuleEngine.DetermineVerdict | backend/services/rule_engine.py:227-240 | block exactly if some match blocks; warn exactly if none blocks and some warns, escalates, notifies or asks for approval |
| RuleEngine.MatchingMembers | backend/services/rule_engine.py:83-98 | the matches are exactly the rules that apply |
| RuleEngine.MatchingMeans | backend/services/rule_engine.py:83-98 | the matches are exactly the tenant's enabled rules that reach the deployment and are in force, in the calendar's terms |
| RuleEngine.MatchingByPriority | backend/services/rule_engine.py:71-80 | they come by falling priority |
| RuleEngine.ConditionMeans | backend/services/rule_engine.py:137-221 | a condition holds exactly if always, if that many days from now lie in a later month or (up to thirty days) quarter, or if the weekday is listed and its hour has come; holidays and other conditions never |
| RuleEngine.ScopeMeans | backend/services/rule_engine.py:107-135 | a scope matches exactly if global, if it names the caller's environment, if all its tags or its one tag are the caller's, or if it names an asset of the caller's |
| RuleEngine.VerdictMeans | backend/services/rule_engine.py:227-240 | blocked exactly by a blocking rule that reaches the deployment and is in force, allowed exactly without any rule that does and blocks, warns, asks for approval, escalates or notifies |
| RuleEngine.WeekdayRuleBlocksFrom | backend/services/rule_engine.py:200-221 | a weekday rule blocks exactly on its days from its hour on, hence until the end of the day |
| RuleEngine.HolidayRulesNeverBlock | backend/services/rule_engine.py:137-178 | rules on holidays or with unknown conditions never have an effect |
| RuleEngine.KnownMonths | backend/services/rule_engine.py:180-198 | the lengths of the months, with leap years by the century rule |
| RuleEngine.ExecutionBlockedIff | backend/services/rule_engine.py:107-135 | without context a deployment is blocked exactly by an enabled global block rule of the tenant that is in force, in the calendar's terms |
| RuleEngine.MonthEndIff | backend/services/rule_engine.py:180-185 | the month-end test holds exactly when that many days from now lie in a later month |
| RuleEngine.QuarterEndIff | backend/services/rule_engine.py:187-198 | the quarter-end test means the same for quarters on every date exactly for at most thirty days |
| RuleEngine.EndOfMayIsMissed | backend/services/rule_engine.py:187-198 | for more than thirty days the end of May is a date on which the test is wrong |
| RuleEngine.ThirtyDaysStayInQuarter | backend/services/rule_engine.py:187-198 | thirty days from the first two months of a quarter do not leave it |
| Approvals.ApprovalService.CreateApprovalRequest | backend/services/approval_service.py:29-120 | stores a pending request, or an approved one for low risk under an auto-approving policy, with the policy's quota and expiry; errors change nothing |
| Approvals.ApprovalService.ApproveRequest | backend/services/approval_service.py:122-230 | records the approval, counts it and releases the bundle when the quota is met; expiry is written; other errors change nothing |
| Approvals.ApprovalService.RejectRequest | backend/services/approval_service.py:232-296 | records the rejection, rejects the request and cancels its bundle |
| Approvals.ApprovalService.CheckExpiredRequests | backend/services/approval_service.py:338-367 | expires exactly the overdue pending requests of the tenant asked for |
| Approvals.ExpireOverdue | backend/services/approval_service.py:358-363 | the loop changes the status of exactly the overdue requests |
| Approvals.PermissionMeans | backend/services/approval_service.py:426-453 | a user may decide a request exactly if known and administrator or approver, or if exactly one policy row has the request's tenant and risk and lists the user's role |
| Approvals.PoliciesForMeans | backend/services/approval_service.py:409-424 | the policy query finds no row, the only row, or several |
| Approvals.CreateSucceedsIff | backend/services/approval_service.py:50-93 | a creation succeeds exactly for a known bundle, a new id and at most one policy; without a policy it asks for one approval in 48 hours, with one for its quota in its hours, and approves low risk at once if the policy says so |
| Approvals.ApproveSucceedsIff | backend/services/approval_service.py:146-178 | an approval succeeds exactly for a pending request up to its expiry time by a user who may decide it and has not approved it; past that time it marks the request expired |
| Approvals.ApproveRecords | backend/services/approval_service.py:180-206 | a success adds one action and one to the counter, and at the quota approves the request and its bundle, nothing else |
| Approvals.RejectSucceedsIff | backend/services/approval_service.py:245-294 | a rejection succeeds exactly for a pending request, expired or not, by a user who may decide it, and rejects it and cancels its bundle, nothing else |
| Approvals.SweepAgreesWithApprove | backend/services/approval_service.py:343-363 | the sweep expires exactly the requests of its tenant on which an approval at that moment would come too late |
| Approvals.StartSucceedsIff | backend/services/deployment_service.py:60-122 | a start succeeds exactly for an approved bundle of the tenant without a global block rule in force, and sets only its status |
| Approvals.FinishSetsStatus | backend/services/deployment_service.py:152-158 | a run of items ends failed exactly when some failed and none succeeded |
| Approvals.QuotaReleases | backend/services/approval_service.py:189-206 | approvals by distinct permitted users in time each count, and the one that meets the quota, no earlier one, approves the request and releases its bundle in that user's name |
| Approvals.RunKeepsInv | backend/services/approval_service.py:146-206 | in every run of atomic calls a pending request's counter is the number of its approvers and every approved bundle has a request that released it |
| Approvals.ApprovalsWerePermitted | backend/services/approval_service.py:163-178 | everyone on record as approver made a successful call in an environment whose users and policies let that user decide the request |
| Approvals.StartsOnlyWhenApproved | backend/services/deployment_service.py:78-122 | in every run a bundle enters in_progress only if an approved request for it gathered its required number of distinct users whose role, or the one policy listing it, let them decide it, and no enabled global block rule is in force at that moment |
| Approvals.CounterCountsApprovers | backend/services/approval_service.py:171-193 | under atomic calls the counter equals the number of distinct approvers |
| Approvals.DecisionsAreFinal | backend/services/approval_service.py:146-154 | under atomic calls approved, rejected and expired requests never change again |
| Approvals.AutoApprovalReleasesNothing | backend/services/approval_service.py:65-73 | a request approved at creation leaves its bundle as it was, and every later approval of it fails |
| SplitApprovals.UndisturbedApproveIsAtomic | backend/services/approval_service.py:135-228 | read, check and commit in a row are the atomic approve call |
| SplitApprovals.UndisturbedRejectIsAtomic | backend/services/approval_service.py:245-294 | read, check and commit in a row are the atomic reject call |
| SplitApprovals.RunKeepsInv | backend/services/approval_service.py:135-206 | in every interleaving each count read is covered by approvers other than the caller, and every approved bundle has a request with its quota of approvers on record |
| SplitApprovals.CounterNeverExceedsApprovers | backend/services/approval_service.py:189-195 | in every interleaving the counter never exceeds the distinct approvers and an approved request has its quota of them, despite lost increments |
| SplitApprovals.ApprovedOnlyByItsQuota | backend/services/approval_service.py:57-73 | the same for every request from its creation on, unless it was approved there |
| SplitApprovals.ApproversPassed | backend/services/approval_service.py:163-178 | in every interleaving whoever is on record as approver passed the tests in time, while the users and policies let that user decide the request |
| SplitApprovals.StartsOnlyWhenBacked | backend/services/deployment_service.py:78-122 | also when approve and reject calls overlap a bundle starts only with the required number of distinct approvers on record, all permitted when tested, and no enabled global block rule in force |
| SplitApprovals.WriteIsExactIff | backend/services/approval_service.py:189-191 | a write keeps an exact counter exact exactly when the count it read is still the current one, or one less for a user already on record |
| SplitApprovals.OverlappingApprovalsLoseOne | backend/services/approval_service.py:189-191 | two overlapping approvals leave two approvers and a counter raised by one |
| SplitApprovals.LateApprovalOverwritesRejection | backend/services/approval_service.py:193-206 | a rejection between an approval's tests and its write is overwritten and the bundle released |
| SplitApprovals.DecisionIsFinalIff | backend/services/approval_service.py:146-154 | a decided request and its actions stay unchanged in every continuation exactly when no call under way may still write to it |
| SplitApprovals.WritesMean | backend/services/approval_service.py:180-206 | what a call writes does not depend on the row it finds: an approval that meets the quota by its own count approves and releases, any other leaves the status alone |
| SplitApprovals.NeverPendingAgain | backend/services/approval_service.py:146-154 | in no interleaving does a decided request become pending again |
| SplitApprovals.ClosedStaysClosed | backend/services/approval_service.py:146-154 | from such a state no step of any kind reopens the request |
| SplitApprovals.OpenCallCanWrite | backend/services/approval_service.py:189-206 | from any other state there is a continuation that changes it |
| Deployment.DeploymentService.ExecuteBundle | backend/services/deployment_service.py:32-188 | what the gate refuses changes nothing; otherwise every item of the bundle succeeds, no other item changes, the bundle ends completed and its log at 100 percent |
| Deployment.DeploymentService.ExecuteItems | backend/services/deployment_service.py:129-139 | the item loop counts one success per item of the bundle and no failure |
| Deployment.DeploymentService.ExecuteBundleItem | backend/services/deployment_service.py:221-279 | the item succeeds and the bundle's progress is brought up to date |
| Deployment.DeploymentService.UpdateBundleProgress | backend/services/deployment_service.py:281-318 | writes the progress of the bundle, and nothing for a bundle without items |
| Deployment.ProgressOf | backend/services/deployment_service.py:299-316 | total and completed are the numbers of the bundle's items and of those done, the percentage is their quotient rounded down, and 100 exactly when every item is done |
| Deployment.CountsAreCardinalities | backend/services/deployment_service.py:299-307 | the two counts are the sizes of the sets of the bundle's items and of its finished items |
| Deployment.DoneCountIsFullIff | backend/services/deployment_service.py:304-307 | all items are counted exactly when each is successful, failed or skipped |
| Backups.NamesAreApart | backend/services/backup_service.py:558-563 | the file names of two different backup ids never coincide |
| Backups.BackupService.SaveMetadata | backend/services/backup_service.py:347-365 | replaces the entry with the same id and puts the new one last |
| Backups.BackupService.CreateBackup | backend/services/backup_service.py:160-251 | success stores a completed entry with its file; any failure stores a failed entry and raises, whatever files of its own it leaves |
| Backups.CreateRecords | backend/services/backup_service.py:215-249 | a creation puts one record at the end, completed or failed, with the checksum once the file was finished, and raises exactly when it failed |
| Backups.FinishedBackupFiles | backend/services/backup_service.py:193-213 | a finished backup leaves its encrypted archive and no plain one, or its plain archive, and no dump; other files are untouched |
| Backups.CategoryMeans | backend/services/backup_service.py:335-345 | the first of a month is monthly, any other Sunday weekly, the rest daily |
| Backups.BackupService.VerifyBackup | backend/services/backup_service.py:481-512 | true and status verified if the file has the recorded checksum, false if not, an error for an unknown id |
| Backups.BackupService.PruneBackups | backend/services/backup_service.py:514-556 | deletes the files and entries beyond each quota, or raises when no metadata file exists |
| Backups.Select | backend/services/backup_service.py:519-543 | grouping, sorting and cutting mark exactly the good entries beyond their category's quota |
| Backups.ToDeleteMember | backend/services/backup_service.py:524-533 | an entry is deleted exactly when it lies beyond the quota among the good entries of its own category, newest first |
| Backups.DeletedWhenQuotaIsNewer | backend/services/backup_service.py:524-533 | a good entry is deleted when its category holds a quota of newer good ones, and only when more than a quota, itself included, are at least as new |
| Backups.PruneKeepsTheNewest | backend/services/backup_service.py:519-552 | after pruning each category holds exactly its newest good entries up to the quota, in the same order |
| Backups.QuotasAreKept | backend/services/backup_service.py:126-132 | pruning leaves seven daily, four weekly and twelve monthly completed or verified backups, or all there are |
| Backups.OthersStay | backend/services/backup_service.py:519-523 | entries that are neither completed nor verified stay, and none appears |
| Backups.NothingOlderStays | backend/services/backup_service.py:524-533 | no good entry that stays is older than one of its category that goes |
| Backups.NewestGoodStays | backend/services/backup_service.py:524-533 | an entry as new as any good one survives every prune |
| Backups.PruneIsIdempotent | backend/services/backup_service.py:514-556 | a second prune deletes nothing |
| Backups.RemainingIsTheRest | backend/services/backup_service.py:542-549 | keeping entries by remaining id keeps exactly those not deleted |
| Backups.DeletedFilesAreGone | backend/services/backup_service.py:535-540 | the file of every deleted entry is gone |
| Backups.RunKeepsInv | backend/services/backup_service.py:160-556 | in every run of create, verify and prune, even with repeated ids, ids are unique and every completed or verified entry has its file with the recorded checksum |
| Backups.VerifiesIff | backend/services/backup_service.py:488-512 | verification succeeds exactly when an entry's file has its recorded checksum, whatever its status |
| Backups.VerifyChanges | backend/services/backup_service.py:488-512 | verification changes nothing but the status of a record that passes |
| Backups.FailedBackupCanBeVerified | backend/services/backup_service.py:488-512 | a run that failed after its file was finished is promoted from failed to verified |
| Snapshots.CompareMaps | backend/services/snapshot_service.py:158-187 | the loop lists exactly the keys on which the two maps differ, each once, with both values and the label |
| Snapshots.CompareServices | backend/services/snapshot_service.py:189-204 | the loop lists exactly the services that differ in any field, each once, with both states |
| Snapshots.CompareSnapshots | backend/services/snapshot_service.py:133-225 | an error if a snapshot is missing; else one entry for each package name whose last versions in the two lists differ, with exactly these, one for each service whose last records differ, with their states, and none for any other |
| Snapshots.VersionsAreLast | backend/services/snapshot_service.py:158-160 | of several packages with one name the last one's version counts |
| Snapshots.ServicesAreLast | backend/services/snapshot_service.py:189-191 | of several services with one name the last one counts |
| Snapshots.ApplyGivesPost | backend/services/snapshot_service.py:162-187 | carrying out the recorded changes turns the earlier map into the later one |
| Snapshots.UndoGivesPre | backend/services/snapshot_service.py:162-187 | carrying them out backwards turns the later map into the earlier one |
| Snapshots.DiffIsEmptyIff | backend/services/snapshot_service.py:162-187 | no changes exactly when the maps are equal |
| Snapshots.SwappedDiff | backend/services/snapshot_service.py:162-187 | comparing the other way round reports the same keys with the values exchanged |
| Snapshots.LabelIsTrueIff | backend/services/snapshot_service.py:171-171 | a label is right exactly unless an empty string is taken for a missing entry |
| Snapshots.SwapIff | backend/services/snapshot_service.py:171-171 | added and removed change places when the sides do, exactly unless both values are empty or missing |
| Snapshots.ReportIsEmptyIff | backend/services/snapshot_service.py:206-225 | a summary of zeros exactly for snapshots in which every name has the same last version and the same last service, and configurations and kernel are equal |
| Snapshots.ServiceStatesRoundTrip | backend/services/snapshot_service.py:189-204 | the recorded states lead from the earlier states to the later ones and back |
| Snapshots.LaterSideIsKnownIff | backend/services/snapshot_service.py:189-204 | the earlier services and the changes determine the later services exactly when no entry records a new state: the enabled flag is lost with every service that is added or changes state, and only there |
| Snapshots.EarlierSideIsKnownIff | backend/services/snapshot_service.py:189-204 | the later services and the changes determine the earlier services exactly when no entry with a state change records an old state |
| Snapshots.RoundTripIff | backend/services/snapshot_service.py:189-204 | both sides can be read back exactly from comparisons in which no state changed |
| Snapshots.EitherFlagFits | backend/services/snapshot_service.py:199-204 | with a recorded new state either flag of the service gives the same changes |
| Snapshots.UnexplainedEntryIff | backend/services/snapshot_service.py:198-204 | an entry without a state change stands exactly for a service whose enabled flag alone changed |
| Windows.QueryIsBest | backend/models/maintenance_window.py:181-190 | a query finds nothing exactly when no eligible window matches, else one that its ordering puts first |
| Windows.CascadeIsLexicographic | backend/models/maintenance_window.py:179-222 | the four queries together find the least window in one order (tier, priority, start), or none exactly when no eligible window matches any tier |
| Windows.FindsTheLeast | backend/models/maintenance_window.py:140-222 | the same for the whole call with its fallbacks for the asset, which raises exactly for a tag list that is not empty |

## Left out

- The OR-Tools solver, its objective (it gives unscheduled items no penalty) and its constraint 4 (which does not encode its own comment); constraints 1 to 3 serve as the feasibility specification.
- "Group by asset when possible" in the heuristic's description: no code does it.
- A goal without a vulnerability limit or downtime limit: both are taken as present, since the heuristic compares with them.
- Filters and relations the models do not declare (`goal.asset_filters`, `av.runtime_data`): the scoped list and an optional runtime record are inputs.
- Floating point: durations, EPSS, percentages and rates are exact integers or reals, so rounding of `int(completed / total * 100)` and of times is not modelled.
- Upper-casing of non-ASCII strings in the score: a stored name is exact, in another case, unknown or missing.
- Context-only entries of the score breakdown (exploit maturity, execution frequency), which carry no points.
- BulkScore: rows are distinct objects, as one query returns them.
- RedisLimiter.WindowBound: clock readings of the callers are distinct, since the printed timestamp is the set member; adding and renewing the expiry are one step, and network faults occur only in the single-caller `CheckRateLimit`.
- Middleware.AtMostTwiceTheLimit: the calls of one client to one path are serialised in one process and have distinct times, since the memory limiter is per process; what goes wrong with Redis is a function of the moment.
- CircuitBreaker: cancellation of an admitted call, which neither returns nor raises an `Exception`, is not a step.
- Several processes sharing the approval tables are covered by the interleaved model only for approve and reject; create, expiry sweep and execution are single steps there.
- What a caller commits or rolls back after an exception; the services' own writes count as done.
- auto_assess_risk: the risk level of a request is an input; a missing tenant when a notification is sent, and the notification itself, are not modelled.
- The routes for agents and Slack, which set a bundle's status outside the approval service; the approve-then-execute properties are about the two services.
- The order in which a bundle's items run: each of them succeeds, so the order does not show in the result.
- Whether the in-place update of the JSON column `execution_log` reaches the database; the log is the object's.
- Audit logs, started and completed timestamps, durations and notifications of the deployment service.
- pg_dump, compression, encryption, S3 and restore: a backup is one step with an outcome, a file its path and checksum.
- Rollback records and `can_accommodate_bundle`: a status sequence and a chain of tests that would only add easy members.
- Reading a rule's JSON configuration: day names and the default numbers of days are resolved before the model's conditions; a holiday calendar never matches, as in the code.
