# RouteLLM verification

A Dafny model of the request-time control logic and the offline benchmark tooling of the RouteLLM
gateway, with proofs of what these parts promise. `dafny verify dfyconfig.toml` checks everything.

| module | what it models |
|---|---|
| `FixedWindow`, `RateLimit`, `RedisLimiter` | two-key fixed-window admission: a reference read off the log of admissions, whole runs and Retry-After, and the Redis script that refines the reference in place |
| `Routing`, `Escalation` | cost-aware selection, the escalation plan, thresholds; the validated loop with its five exits, one deadline, cost accounting, at most one durable record |
| `Cursor`, `Activity` | base64url cursors and keyset pages over a table that grows while it is read |
| `Oracle` | the benchmark oracle's shortest-path and chain searches |
| `Pricing` | decimal arithmetic of bounded precision and the cost of a request |
| `Folds` | the allocation of tasks to four balanced folds |
| `RunLog` | the benchmark producer, a disk that may fail or crash at any step, and the loader |
| `Calibration`, `Frontier`, `Coverage` | reliability tables, the threshold frontier, proposition coverage and the rubric check |
| `Ordering`, `Common` | sorting and the order of text, optional values and results, shared by the others |

## What the code does where its promise needs a condition

- **Admission.** Redis keeps a key alive through the exact millisecond of its expiry. A window
  therefore covers `window + 1` milliseconds, and a call retried at exactly the promised
  `Retry-After` can be rejected again: `RateLimit.RejectedAtRetryAfter` is such a run, and
  `RateLimit.RetryAfterHonest` gives the exact condition. The
  interval bound holds as promised for intervals of k windows, where it is strict, and
  `RateLimit.BurstsAttainTheBound` reaches it at `k * (window + 1) + 1` milliseconds.
- **Escalation.** The repository's README (line 1029) speaks of one summary row per
  validation-enabled request. A request has its row if and only if it did not end at its deadline,
  telemetry is configured, and the write does not fail and finishes within its own timeout and by
  the deadline (`Escalation.Gateway.RowExactly`, carried by `GenerateValidated`).
  `Escalation.DeadlineLeavesNoRow` is a request without a row although nothing is wrong with
  telemetry; no row ever says `deadline_exceeded`.
- **Cursors.** Decoding undoes encoding exactly for texts of at most 192 bytes with the separator;
  the encoding of longer ones passes the limit of 256 characters. Timestamps and UUIDs are far
  below that.
- **Paging.** A page limit of zero would end paging at once (`Activity.ZeroLimitStops`); the route
  demands at least one.
- **Pricing.** No digit is ever lost, but the result overflows exactly when a million times the
  price leaves the exponent range of the ambient decimal context. The ten spare digits are never used.
- **Frontier.** Comparing the missing rates of two thresholds is a type error. The function returns
  exactly when at most one threshold selected no valid label.
- **Reliability tables.** Equal-frequency bins of no records are an error; equal-width bins are not.
- **Run log.** A completed run is accepted exactly when no result id came up twice, because a
  repeated id overwrites the earlier result's file.
- **Folds.** The checks after the allocation can fail only through the number of categories, which
  must be seven.
- **Proposition ids.** A requirement can be split into at most 26 children; the next suffix is not
  allowed in an id.

## Model

| member | source | states |
|---|---|---|
| FixedWindow.UsedAfterHit | src/adaptive_llm_gateway/rate_limit.py:60-67 | an admission joins the open window or opens the next one, and the usage grows by exactly its weight |
| FixedWindow.UsedLater | src/adaptive_llm_gateway/rate_limit.py:37-38 | without admissions the usage stays the same until the window ends and is zero from then on |
| FixedWindow.UsedWithinCapacity | src/adaptive_llm_gateway/rate_limit.py:39-42 | a log whose entries each fitted when admitted never has more than the capacity in a window |
| FixedWindow.WindowsReachingBack | src/adaptive_llm_gateway/rate_limit.py:37-68 | what was admitted since a time fits in as many capacities as whole windows reach back to it, and the last window's usage |
| FixedWindow.IntervalBound | src/adaptive_llm_gateway/rate_limit.py:37-68 | any k * (window + 1) + 1 consecutive milliseconds admit at most k + 1 capacities |
| FixedWindow.IntervalBoundStrict | src/adaptive_llm_gateway/rate_limit.py:37-68 | any interval that is one millisecond shorter, hence any k windows, admits strictly less than k + 1 capacities |
| RateLimit.NextLawful | src/adaptive_llm_gateway/rate_limit.py:37-68 | every call and every pause keeps the log ordered and both capacities respected for all keys |
| RateLimit.RunLawful | src/adaptive_llm_gateway/rate_limit.py:37-68 | every history reachable by calls of any clients and pauses is lawful |
| RateLimit.RunsRespectCapacity | src/adaptive_llm_gateway/rate_limit.py:37-68 | over every run, each client's and the global admitted weight in k windows stays below k + 1 capacities, for all k and all starting times |
| RateLimit.BurstsAttainTheBound | src/adaptive_llm_gateway/rate_limit.py:37-68 | for every k a concrete run admits k + 1 whole capacities in k * (window + 1) + 1 milliseconds, so the bound is sharp |
| RateLimit.ChargedByKind | src/adaptive_llm_gateway/rate_limit.py:193-197 | what a key is charged in any interval of any run is the explicit weight for every explicit call admitted and the adaptive weight for every adaptive one |
| RateLimit.ClientQuota | src/adaptive_llm_gateway/rate_limit.py:37-68 | over every run and any k client windows, a client's admitted explicit calls times the explicit weight and adaptive calls times the adaptive weight stay below k + 1 client capacities |
| RateLimit.GlobalQuota | src/adaptive_llm_gateway/rate_limit.py:37-68 | the same for all clients together, with the global window and capacity |
| RateLimit.BlockedLater | src/adaptive_llm_gateway/rate_limit.py:42-57 | with nothing admitted meanwhile a key blocks a later call exactly until its remaining time has passed, which is at most a window |
| RateLimit.AdmittedAgain | src/adaptive_llm_gateway/rate_limit.py:42-57 | a rejected call is admitted later exactly when the last of its blocking windows has ended |
| RateLimit.RetryAfterHonest | src/adaptive_llm_gateway/rate_limit.py:233-250 | strictly after Retry-After the call is admitted; at Retry-After itself exactly when the delay is not the last millisecond of a blocking window; the overshoot is below a second unless a window is in its last millisecond |
| RateLimit.RejectedAtRetryAfter | src/adaptive_llm_gateway/rate_limit.py:42-57 | a concrete run in which a call is told to retry after one second and is rejected exactly a second later, and admitted a millisecond after that |
| RedisLimiter.RepresentsLater | src/adaptive_llm_gateway/rate_limit.py:37-38 | the passing of time keeps a counter and its expiry in agreement with the log |
| RedisLimiter.BumpedMirrors | src/adaptive_llm_gateway/rate_limit.py:60-67 | a counter after INCRBY and the conditional PEXPIRE is what the window of the longer log says |
| RedisLimiter.RepresentsAfterAdmission | src/adaptive_llm_gateway/rate_limit.py:60-68 | the admitting branch keeps every counter, touched or not, in agreement with the log |
| RedisLimiter.Redis.constructor | src/adaptive_llm_gateway/rate_limit.py:37-38 | an empty store represents the empty log |
| RedisLimiter.Redis.Tick | src/adaptive_llm_gateway/rate_limit.py:37-38 | time passing in the store is time passing in the reference |
| RedisLimiter.Redis.IncrBy | src/adaptive_llm_gateway/rate_limit.py:60-64 | INCRBY on a live key keeps its expiry, on a missing key starts from zero without one |
| RedisLimiter.Redis.PExpire | src/adaptive_llm_gateway/rate_limit.py:61-66 | PEXPIRE sets the expiry of one live key and nothing else |
| RedisLimiter.Redis.LiveCounters | src/adaptive_llm_gateway/rate_limit.py:37-68 | every live counter is the weight admitted in its current window, at most its capacity, and expires within the client's or the global window length |
| RedisLimiter.Redis.CountersAgree | src/adaptive_llm_gateway/rate_limit.py:37-53 | GET and PTTL answer what the log answers |
| RedisLimiter.Redis.Refuse | src/adaptive_llm_gateway/rate_limit.py:42-58 | the rejecting branch replies with the largest remaining time and the scope of the blocking keys |
| RedisLimiter.Redis.Spend | src/adaptive_llm_gateway/rate_limit.py:60-67 | the admitting branch adds the weight to both counters and gives fresh ones an expiry |
| RedisLimiter.Redis.Eval | src/adaptive_llm_gateway/rate_limit.py:30-69 | a call is admitted exactly if both counters have room for the weight of its kind; an admission adds that weight to both and to the log, starts windows of the configured lengths and touches no other key; a rejection changes nothing; and one call is one step of the reference |
| RedisLimiter.Drive | src/adaptive_llm_gateway/rate_limit.py:30-69 | any sequence of calls and pauses drives the store through exactly the reference run, so the whole-run bounds hold of it |
| RedisLimiter.DecodeProceeds | src/adaptive_llm_gateway/rate_limit.py:224-232 | of all replies, well formed or not, exactly those that start with a one and another number admit |
| RedisLimiter.DecodeRejects | src/adaptive_llm_gateway/rate_limit.py:224-250 | of all replies exactly those with a zero, a number and a known scope reject with a Retry-After, which is the delay rounded up to seconds and at least one; everything else is unavailability |
| RedisLimiter.Send | src/adaptive_llm_gateway/rate_limit.py:203-222 | a call takes time both ways and runs the script at most once, on arrival; a call that does not arrive changes nothing but the time |
| RedisLimiter.Admit | src/adaptive_llm_gateway/rate_limit.py:187-250 | admission fails closed: a call proceeds only on a reply that says so, which is the script's own decision at the time of arrival unless something altered the reply; the log grows by the weight of the kind exactly when the script admitted; which error, Retry-After and scope come out otherwise |
| Routing.CheapestFirst | src/adaptive_llm_gateway/application/adaptive.py:217-226 | putting the selected candidate before the sorted others is sorting all qualifying candidates |
| Routing.PlanIsCheapestFirst | src/adaptive_llm_gateway/application/adaptive.py:214-227 | without fallback the plan is the first max-attempts qualifying candidates by cost and id, without repetition and with no cheaper one skipped; under fallback it is the likeliest candidate alone |
| Routing.CheapestInNumbers | src/adaptive_llm_gateway/routing/ml_experiment.py:376-382 | what qualifies is exactly what reaches the threshold, by cost and then id, and the first of it is selected |
| Routing.FallbackInNumbers | src/adaptive_llm_gateway/routing/ml_experiment.py:383-387 | a fallback is a likeliest candidate, of these a cheapest, of these the first by id |
| Routing.RouteOutcome | src/adaptive_llm_gateway/routing/policy.py:108-153 | when routing fails with which error, and that a decision carries the threshold and the two counts |
| Routing.HigherThreshold | src/adaptive_llm_gateway/routing/ml_experiment.py:369-387 | a higher threshold never lowers the selected cost while something qualifies, and a fallback persists with its candidate |
| Routing.FallbacksGrow | src/adaptive_llm_gateway/routing/ml_experiment.py:328-354 | the fallback count of any request set is nondecreasing in the threshold |
| Routing.SweepThresholds | src/adaptive_llm_gateway/routing/ml_experiment.py:328-364 | the nested loops count the fallbacks of every threshold, and higher thresholds have no fewer |
| Escalation.CostsAgree | src/adaptive_llm_gateway/application/adaptive.py:385-398 | the two sums agree: the total is known exactly when every attempt's cost is, and the sum of all costs is then the sum of the known ones |
| Escalation.KnownCostFilters | src/adaptive_llm_gateway/application/adaptive.py:392-398 | the known cost is the sum over those attempts whose cost is known |
| Escalation.KnownCostIsSpent | src/adaptive_llm_gateway/application/adaptive.py:392-398 | the known cost of the attempts is what the responses cost |
| Escalation.RecordTells | src/adaptive_llm_gateway/application/adaptive.py:249-274 | the record of any exit has one to three attempts, is escalated exactly if more than one, and names a returned model exactly if the request returned, with a passing verdict |
| Escalation.AttemptTells | src/adaptive_llm_gateway/application/adaptive.py:301-307 | attempt k names the k-th model of the plan and carries its response's cost and latency and its verdict's status, duration and codes |
| Escalation.RecordTimes | src/adaptive_llm_gateway/application/adaptive.py:263-274 | a record's latency and validation time are those of the judged responses, its status is the last verdict, and its codes are those of the failures it gave up on |
| Escalation.SignalTells | src/adaptive_llm_gateway/application/adaptive.py:277-287 | the metric of any exit says how and after how many attempts it ended, and recovered exactly if it escalated and returned |
| Escalation.RecordCosts | src/adaptive_llm_gateway/application/adaptive.py:318-320 | the record's known cost is what the responses cost, and is the total whenever the cost counts as complete, which it does exactly if the last attempt was judged |
| Escalation.Gateway.constructor | src/adaptive_llm_gateway/request_deadline.py:26-38 | one deadline, fixed at the start of the request |
| Escalation.Gateway.Await | src/adaptive_llm_gateway/request_deadline.py:40-53 | an awaited step that respects a timeout within the remaining time never passes the deadline |
| Escalation.Gateway.RecordInference | src/adaptive_llm_gateway/application/service.py:99-139 | the per-call telemetry write stays within the deadline |
| Escalation.Gateway.Generate | src/adaptive_llm_gateway/application/service.py:47-97 | one call at most, of the given model and started before the deadline; a response is the provider's, of that model unless rejected; when the call counts as out of time, the deadline has passed |
| Escalation.Gateway.RecordExecution | src/adaptive_llm_gateway/application/adaptive.py:413-461 | the durable record is written if and only if the write is configured, time is left, and it succeeds within the smaller of the remaining time and its timeout |
| Escalation.Gateway.Try | src/adaptive_llm_gateway/application/adaptive.py:230-294 | one attempt up to its verdict, with the three readings of the deadline |
| Escalation.Gateway.Settle | src/adaptive_llm_gateway/application/adaptive.py:249-287 | settling emits the exit's metric and writes the exit's record exactly under the guard of the write |
| Escalation.Gateway.RowExactly | src/adaptive_llm_gateway/application/adaptive.py:413-461 | a request has its one row if and only if it did not end at its deadline and the write is configured, does not fail, and finishes within its timeout and by the deadline |
| Escalation.Gateway.Raise | src/adaptive_llm_gateway/application/adaptive.py:243-288 | the record and metric built at the exit of a call that raised are those of the common description, with incomplete cost and the last attempt's verdict |
| Escalation.Gateway.Return | src/adaptive_llm_gateway/application/adaptive.py:308-346 | the record and metric built at the exit of a passing response are those of the common description; `recovered`, which looks for a failed attempt, is `escalated` |
| Escalation.Gateway.GiveUp | src/adaptive_llm_gateway/application/adaptive.py:353-381 | the record and metric built at the exit of a final failure are those of the common description, with the failure codes |
| Escalation.Gateway.Conclude | src/adaptive_llm_gateway/application/adaptive.py:295-381 | the loop goes on to the next model if and only if one is left, the response failed its checks, there are failures, and every one is recoverable |
| Escalation.Gateway.Round | src/adaptive_llm_gateway/application/adaptive.py:230-381 | one round of the loop ends the request accounted for or leaves one more recoverable attempt |
| Escalation.Gateway.RunPlan | src/adaptive_llm_gateway/application/adaptive.py:229-383 | models run as a prefix of the plan; every earlier attempt failed with recoverable failures only; giving up with a model left means the verdict was no failure, had no failures or one not recoverable; the outcome is the first pass, a final failure, a call without a usable response or an expired deadline; the final assertion is never reached |
| Escalation.Gateway.GenerateValidated | src/adaptive_llm_gateway/application/adaptive.py:205-383 | for every environment: one to three attempts, `recovered` equal to `escalated` on return, no call after the deadline, an end by the one deadline plus the time spent outside awaits, and a row exactly under the stated condition |
| Escalation.Gateway.GenerateRouted | src/adaptive_llm_gateway/application/adaptive.py:205-240 | after routing, the models called are the first of the qualifying candidates by cost and id, in this order, or the likeliest candidate alone under fallback |
| Escalation.DeadlineLeavesNoRow | src/adaptive_llm_gateway/application/adaptive.py:231-294 | a concrete request that ends at its deadline and has no row although telemetry is configured and would answer at once |
| Cursor.Base64RoundTrip | src/adaptive_llm_gateway/telemetry/query.py:48-58 | decoding base64url undoes encoding on all byte sequences |
| Cursor.Alphabet | src/adaptive_llm_gateway/telemetry/query.py:48-50 | the digits of the encoding are the characters of the URL-safe alphabet |
| Cursor.DigitOf | src/adaptive_llm_gateway/telemetry/query.py:58 | the decoder takes letters, digits and both spellings of the last two values for digits of base 64, with these values, and no other character |
| Cursor.SameBits | src/adaptive_llm_gateway/telemetry/query.py:48-50 | the digits of one, two and three bytes carry the same bits, first byte first |
| Cursor.CursorHolds | src/adaptive_llm_gateway/telemetry/query.py:48-50 | a cursor holds the two texts around a vertical bar, without padding |
| Cursor.StrippedEncoding | src/adaptive_llm_gateway/telemetry/query.py:50-57 | padding that was stripped and recomputed from the length is the original padding |
| Cursor.SplitAtSeparator | src/adaptive_llm_gateway/telemetry/query.py:59 | splitting at the first separator recovers both parts |
| Cursor.CursorRoundTrip | src/adaptive_llm_gateway/telemetry/query.py:48-66 | a cursor decodes to its texts exactly when they have at most 192 bytes; longer ones are refused |
| Cursor.CursorRefused | src/adaptive_llm_gateway/telemetry/query.py:54-64 | an empty cursor, one of more than 256 characters, and one with a character outside ASCII are refused |
| Activity.IsoRoundTrip | src/adaptive_llm_gateway/telemetry/query.py:48-61 | ISO times in UTC, with the fraction left out when it is zero, parse back to their instant, are free of the separator and have at most 32 bytes |
| Activity.UuidRoundTrip | src/adaptive_llm_gateway/telemetry/query.py:48-61 | hyphenated UUIDs parse back and have 36 bytes |
| Activity.IsoShape | src/adaptive_llm_gateway/telemetry/query.py:49 | times are written as date, T, time of day, an optional six-digit fraction and the zero offset |
| Activity.LibraryTextsAreFaithful | src/adaptive_llm_gateway/telemetry/query.py:48-66 | ISO times and hyphenated UUIDs meet everything that paging relies on of the two texts |
| Activity.KeyRoundTrip | src/adaptive_llm_gateway/telemetry/query.py:48-66 | decoding a cursor gives back the row key it was made from |
| Activity.ListSpec | src/adaptive_llm_gateway/persistence/repository.py:52-93 | a page is strictly descending and holds exactly the rows before the cursor and not older than its last one; more rows are reported exactly when some are left |
| Activity.PageInTime | src/adaptive_llm_gateway/persistence/repository.py:52-67 | in times and ids: a page descends by time and then id, lies strictly before its cursor, and leaves out only what is not before the cursor or is older than its last item |
| Activity.PageSpec | src/adaptive_llm_gateway/telemetry/query.py:74-98 | the next cursor is given exactly when rows are left and stands for the last row of the page |
| Activity.ZeroLimitStops | src/adaptive_llm_gateway/telemetry/query.py:94-98 | with a limit of zero paging ends at once whatever the table holds |
| Activity.Table.Insert | src/adaptive_llm_gateway/persistence/repository.py:39-44 | an insert appends its row unless the id or the request id is taken |
| Activity.Table.InsertAll | src/adaptive_llm_gateway/persistence/repository.py:39-44 | writers only append: earlier rows stay, in place and unchanged |
| Activity.ReadNext | src/adaptive_llm_gateway/persistence/repository.py:52-93 | one more page extends what has been read without gap or repetition and leaves strictly fewer rows |
| Activity.ReadPage | src/adaptive_llm_gateway/telemetry/query.py:74-98 | reading a page through its cursor text finishes the reading or advances it |
| Activity.ReadAll | src/adaptive_llm_gateway/telemetry/query.py:74-98 | following cursors while rows are inserted terminates and reads newest first, by time and then id, every row present at the start, once, and no row that is not there; a static table is read as its sorted whole |
| Oracle.WalkIsPath | src/adaptive_llm_gateway/benchmarks/routing_benchmark_v1.py:1185-1195 | the walks that distances speak of are the paths of that many edges |
| Oracle.NextLayer | src/adaptive_llm_gateway/benchmarks/routing_benchmark_v1.py:1188-1194 | once all earlier entries are expanded, everything within the next entry's distance has been seen |
| Oracle.ClosedSeen | src/adaptive_llm_gateway/benchmarks/routing_benchmark_v1.py:1188-1195 | when the queue runs out, everything reachable has been seen |
| Oracle.Expand | src/adaptive_llm_gateway/benchmarks/routing_benchmark_v1.py:1191-1194 | following all edges of an entry appends exactly the new neighbours at the right distance |
| Oracle.Shortest | src/adaptive_llm_gateway/benchmarks/routing_benchmark_v1.py:1185-1195 | the search over the growing queue terminates with the minimum number of edges, or -1 exactly when there is no path |
| Oracle.ChainEndUnique | src/adaptive_llm_gateway/benchmarks/routing_benchmark_v1.py:1174-1181 | there is one node at which a chain first comes to a dead end or a cycle |
| Oracle.CycleHasNoEnd | src/adaptive_llm_gateway/benchmarks/routing_benchmark_v1.py:1178-1180 | from a node on a cycle no dead end is reached |
| Oracle.Chain | src/adaptive_llm_gateway/benchmarks/routing_benchmark_v1.py:1174-1181 | the chain walk with its seen-set terminates at that node; it ran along a path over the edges, taking the last edge out of every node, through different nodes, to one that no edge leaves or that it had passed |
| Oracle.ChainUnique | src/adaptive_llm_gateway/benchmarks/routing_benchmark_v1.py:1174-1181 | from a node there is only one such path |
| Oracle.MappingSpec | src/adaptive_llm_gateway/benchmarks/routing_benchmark_v1.py:1176 | the dictionary holds exactly the nodes that edges leave, each with the end of its last edge |
| Pricing.AdjustedExponent | src/adaptive_llm_gateway/pricing/calculator.py:28-32 | the exponent that decides overflow compares the decimal's value with a power of ten |
| Pricing.AddThenDivide | src/adaptive_llm_gateway/pricing/calculator.py:28-32 | unrounded products are added and divided by a million without rounding |
| Pricing.DivideExact | src/adaptive_llm_gateway/pricing/calculator.py:30-32 | the division by a million is exact; trailing zeros go until the dividend's exponent is reached |
| Pricing.CostIsExact | src/adaptive_llm_gateway/pricing/calculator.py:17-33 | for all rates and token counts the cost is the exact rational price; it fails exactly on negative counts or when a million times the price leaves the exponent range |
| Pricing.ReserveUnused | src/adaptive_llm_gateway/pricing/calculator.py:24-29 | products and sum fit in ten digits fewer than are reserved |
| Folds.LightestSpec | src/adaptive_llm_gateway/routing/ml_features.py:199-201 | the fold served next is the available one least in missing labels, then positive labels, then number |
| Folds.ChosenFold | src/adaptive_llm_gateway/routing/ml_features.py:199-200 | in counts: no fold is chosen exactly when none is available; a chosen one has the fewest missing labels, of these the fewest positive ones, of these the lowest number |
| Folds.DealCounted | src/adaptive_llm_gateway/routing/ml_features.py:197-204 | dealing keeps the running counters equal to the sums over the assigned tasks |
| Folds.DealReceived | src/adaptive_llm_gateway/routing/ml_features.py:197-204 | dealing four pairs gives every fold exactly one of them |
| Folds.DealBalanced | src/adaptive_llm_gateway/routing/ml_features.py:198-204 | dealing pairs of graded weight, heaviest first to the lightest fold, keeps any two folds within the larger of the old difference and the pairs' spread |
| Folds.PairUpMembers | src/adaptive_llm_gateway/routing/ml_features.py:191 | pairing from both ends puts every task in one pair |
| Folds.CategoryPairsSpec | src/adaptive_llm_gateway/routing/ml_features.py:184-196 | a category's four pairs hold its eight tasks, heaviest pair first |
| Folds.PairsFromBothEnds | src/adaptive_llm_gateway/routing/ml_features.py:184-191 | the eight tasks of a category by positive labels, missing labels and id are paired first with last, second with second to last, and so on |
| Folds.PairsInOrder | src/adaptive_llm_gateway/routing/ml_features.py:192-196 | pairs come with more missing labels first, then more positive ones, then by ids |
| Folds.AllocateCounted | src/adaptive_llm_gateway/routing/ml_features.py:179-204 | after any number of categories the counters are the sums over the assigned tasks |
| Folds.AllocateTwoEach | src/adaptive_llm_gateway/routing/ml_features.py:183-204 | every fold has two tasks of every category |
| Folds.AllocateBalanced | src/adaptive_llm_gateway/routing/ml_features.py:183-204 | for any number of categories no two folds differ in missing labels by more than the largest spread within a category |
| Folds.SpreadAtMostEight | src/adaptive_llm_gateway/routing/ml_features.py:168-177 | that spread is at most eight, since a task has four labels |
| Folds.FoldsSpec | src/adaptive_llm_gateway/routing/ml_features.py:164-225 | building succeeds exactly when every task has four rows of one category, every category eight tasks, and there are seven; then every task is in exactly one of four folds, each with two tasks of every category and the counts of exactly its rows' labels, and missing labels are balanced to within the largest spread of a category |
| Folds.DealPairs | src/adaptive_llm_gateway/routing/ml_features.py:197-204 | the in-place dealing over three arrays and the set of available folds computes the specified allocation |
| Folds.AllocateAll | src/adaptive_llm_gateway/routing/ml_features.py:179-204 | the loop over the categories computes the specified allocation or stops at a category without eight tasks |
| Folds.BuildFolds | src/adaptive_llm_gateway/routing/ml_features.py:164-225 | the imperative allocator returns these folds of the rows, with missing labels balanced to within eight |
| RunLog.Disk.Write | src/adaptive_llm_gateway/benchmarks/repository.py:27-37 | whatever fails, the visible files are the old ones or the old ones with the whole new content, and after success the latter |
| RunLog.Disk.Start | src/adaptive_llm_gateway/benchmarks/repository.py:39-44 | a start publishes nothing, the manifest, or the manifest and the status `running`, and an existing directory stops it |
| RunLog.LoadIgnoresTemporaries | src/adaptive_llm_gateway/evaluation/repository.py:53-56 | leftover temporary files make no difference to the loader |
| RunLog.RecordOne | src/adaptive_llm_gateway/benchmarks/runner.py:120-156 | one pair leaves the results as they were or with what its call returned appended |
| RunLog.RecordAll | src/adaptive_llm_gateway/benchmarks/runner.py:118-156 | the results are always those of the first calls, one for each pair, task by task and model by model; if the loops end normally they are complete |
| RunLog.Produce | src/adaptive_llm_gateway/benchmarks/runner.py:117-161 | for all faults and crashes the files are a snapshot of the run: the results of its first calls, and the status `completed` only if all pairs are recorded; without faults it completes |
| RunLog.AllPairsSpec | src/adaptive_llm_gateway/evaluation/repository.py:70-73 | the order of the loops visits every selected pair once |
| RunLog.AllPairsAt | src/adaptive_llm_gateway/benchmarks/runner.py:119-120 | the pairs come task by task, with the models in their order |
| RunLog.SnapshotFiles | src/adaptive_llm_gateway/benchmarks/repository.py:39-55 | a run's files are its manifest, its status, and one JSON file per result id under `results` |
| RunLog.OverwrittenPairLost | src/adaptive_llm_gateway/benchmarks/repository.py:49-51 | a result whose id comes up again is lost, and with it its pair |
| RunLog.CompleteIffDistinct | src/adaptive_llm_gateway/evaluation/repository.py:70-73 | the files of all pairs are complete exactly when no id came up twice |
| RunLog.SnapshotLoads | src/adaptive_llm_gateway/evaluation/repository.py:37-76 | the loader accepts a run's snapshot exactly when it is completed and no id came up twice, and reads back what was recorded |
| RunLog.RunBenchmark | src/adaptive_llm_gateway/benchmarks/runner.py:39-161 | from selection to loading, for every crash point: the first `limit` tasks are selected; result i carries what call i returned for pair i; the directory is accepted exactly when completed without a repeated id, with one result for every selected pair |
| Calibration.BinEncloses | src/adaptive_llm_gateway/routing/calibration_analysis.py:184-188 | every probability has one equal-width bin and lies between its edges, one itself in the last |
| Calibration.ChunkSizes | src/adaptive_llm_gateway/routing/calibration_analysis.py:190-191 | equal-frequency bins differ in size by at most one, the larger ones first |
| Calibration.BinsPartition | src/adaptive_llm_gateway/routing/calibration_analysis.py:184-191 | both strategies put every valid row into exactly one bin |
| Calibration.GapOfBin | src/adaptive_llm_gateway/routing/calibration_analysis.py:203-206 | a bin's gap times its size is its absolute excess of predictions over positives, and the gap is at most one |
| Calibration.RowInCounts | src/adaptive_llm_gateway/routing/calibration_analysis.py:203-206 | a row's observed mean times its count is the number of positive records, and its predicted mean times its count the sum of their probabilities |
| Calibration.TriangleOverBins | src/adaptive_llm_gateway/routing/calibration_analysis.py:202-209 | the excess of all rows is at most what the bins' excesses add up to |
| Calibration.Errors | src/adaptive_llm_gateway/routing/calibration_analysis.py:199-209 | the loop's weighted and maximum gaps: the expected error times the records is the weighted sum, which the maximum bounds |
| Calibration.ReliabilityTable | src/adaptive_llm_gateway/routing/calibration_analysis.py:179-227 | overall gap <= ECE <= MCE <= 1 for every input and both strategies; an error exactly for equal-frequency bins of nothing |
| Frontier.IsDominated | src/adaptive_llm_gateway/routing/calibration_analysis.py:477-487 | the scan decides dominance, and fails exactly when it comes to compare two missing rates |
| Frontier.NonDominated | src/adaptive_llm_gateway/routing/calibration_analysis.py:471-494 | exactly the undominated thresholds, in order; fails exactly when two thresholds have no valid label |
| Frontier.CoveredByFrontier | src/adaptive_llm_gateway/routing/calibration_analysis.py:471-489 | following dominators ends at an undominated one that dominates the start |
| Frontier.FrontierCovers | src/adaptive_llm_gateway/routing/calibration_analysis.py:471-489 | the frontier of a nonempty input is not empty, mutually undominated, and dominates everything it leaves out at equal coverage |
| Coverage.SlugInjective | src/adaptive_llm_gateway/benchmarks/summarization_spec.py:328-329 | no two requirement numbers and suffixes share a proposition id |
| Coverage.EveryPart | src/adaptive_llm_gateway/benchmarks/summarization_spec.py:411-434 | every child of every requirement has its proposition, with the written id, the requirement's number, an equal share of the weight and its own rules |
| Coverage.TaskSpec | src/adaptive_llm_gateway/benchmarks/summarization_spec.py:408-434 | the nested loops build a valid task exactly when there are requirements and none has more than 26 children |
| Coverage.BuiltValid | src/adaptive_llm_gateway/benchmarks/summarization_spec.py:154-162 | however requirements are split, ids are unique and the weights add up to the number of requirements |
| Coverage.BuiltWeight | src/adaptive_llm_gateway/benchmarks/summarization_spec.py:411-434 | when siblings share a verdict the entailed weight is the number of requirements met |
| Coverage.EarnedIsWeight | src/adaptive_llm_gateway/benchmarks/summarization_spec.py:215-218 | what verdicts earn is the weight of the entailed propositions, in whatever order they come |
| Coverage.CoverageOutcome | src/adaptive_llm_gateway/benchmarks/summarization_spec.py:206-214 | an error exactly for verdicts that are not those of the specification; incomplete, with the sorted ambiguous ids, exactly when one is ambiguous |
| Coverage.CoverageValue | src/adaptive_llm_gateway/benchmarks/summarization_spec.py:215-221 | without ambiguity coverage is the entailed weight divided by the number of legacy requirements |
| Coverage.CoverageBounds | src/adaptive_llm_gateway/benchmarks/summarization_spec.py:215-221 | complete coverage lies in [0, 1], is 1 exactly when all and 0 exactly when no propositions are entailed |
| Coverage.CoverageGrows | src/adaptive_llm_gateway/benchmarks/summarization_spec.py:215-221 | entailing more propositions strictly raises it |
| Coverage.CoverageIsLegacyFraction | src/adaptive_llm_gateway/benchmarks/summarization_spec.py:206-221 | when siblings share a verdict it is the unweighted fraction of legacy requirements met |
| Coverage.LookupLast | src/adaptive_llm_gateway/evaluation/hybrid_judge.py:131-146 | a dictionary built from a list answers with the last entry of an id |
| Coverage.IsPermitted | src/adaptive_llm_gateway/evaluation/hybrid_judge.py:146-152 | a derivation may be used exactly when it is allowed, or conditional with every dependency entailed |
| Coverage.ValidateRubric | src/adaptive_llm_gateway/evaluation/hybrid_judge.py:124-153 | accepts exactly the rubrics that judge every proposition and use offered rules on entailed propositions only |
| Coverage.AcceptedRubricScores | src/adaptive_llm_gateway/evaluation/hybrid_judge.py:124-153 | an accepted rubric always meets the precondition of coverage, whose value is its entailed weight |

## Left out

- Redis, PostgreSQL, HTTP and file transport: only as outcomes of a step (a call not delivered, a reply lost, a write failed). HMAC digests and IP normalisation: a client is an uninterpreted digest.
- Pricing: the type checks on token counts, signed zeros, the exponent clamp of zero results, and the decimal library's own limits on precision and memory.
- Binary floating point: probabilities, latencies and seconds are reals, times of the store are whole milliseconds.
- Escalation.Gateway.GenerateValidated: a cancelled await ends at its timeout; a provider that ignores cancellation is not modelled, and cancellation of the whole request is not either. A record write cut off at its timeout leaves no row; a store that commits it all the same is not modelled.
- The validator is an arbitrary verdict per attempt; requests without validation, chat orchestration, provider adapters and all metrics but the one per request are left out.
- Parsing of timestamps and UUIDs in other spellings than the ones written, calendar rules, zones other than UTC, and UTF-8: library functions, with what is relied on of them in `Activity.Faithful`; ids that the system draws are arbitrary values.
- Activity.ReadAll: rows are inserted between pages, not deleted or changed; the summary queries of the repository are left out.
- The oracle's other branches: closed expressions, easier than the two searches.
- Folds: the category counts of a fold, which repeat that it holds two tasks of each category; the dataset's fixed counts of rows and tasks.
- RunLog: JSON syntax (a torn file is `Partial`), the directory entry's own durability, the manifest's configuration and the checks that compare configured models; a process killed in the middle of `os.replace` sees it done or not done; a cancelled run whose worker thread goes on writing, so that its late write overlaps the final status (`asyncio.to_thread` at `src/adaptive_llm_gateway/benchmarks/repository.py:49-55`).
- The reliability table's bin bounds and counts of empty bins; slope, intercept, bootstrap and per-fold calibration.
- Coverage: descriptions, anchors, reviews and evidence of a proposition; the lookup of dependencies in the fixed template table; material-error findings and the check that they are not repeated.
- `reject_duplicate_entries` appears as the precondition `Coverage.ValidRubric` that every rubric object satisfies.
