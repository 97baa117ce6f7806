# Verified models of the sglang-jax tooling

This project models, in Dafny, the logic around the sglang-jax serving engine that is hardest to
get right by reading it: the publishers that race on one branch of the CI data repository, the
workload and tuning code of the MoE benchmarks, the nightly trend monitor, the closed-loop load
generator, and several layout and measurement routines.

To check every file, use `dafny verify dfyconfig.toml`.

## What is modelled

**Publishing** (`Publishing`, `PublishingInvariant`, `PublishingTheorems`, `PublishingRetries`,
`PublishClient`, `PublishingScenarios`, `PublishingProgress`, `PublishingOutcome`,
`PublishingStarvation`). The
server is a log of commits and a head; it accepts a ref update only when it is a fast forward. Any
number of publishers run as step machines, one step per request. A schedule decides who moves next
and what happens to each request: it is answered, it fails without effect, or it takes effect while
its reply is an error. A read of the head may even return an older head of the branch, and a
repeated commit may return the existing one. The theorems hold for every schedule. Five attempts are
enough for five publishers and no more: without faults no call can raise if and only if at most five
have files (`SafeIffAtMostFive`), and of more than five at least five succeed, possibly no more
(`FiveOrAllSucceed`, `OnlyFiveMaySucceed`). `publish` and `publish_traces` differ only in how they
collect files, so both are instances of one machine. `PublishingRetries` says, in the status codes
themselves, which errors end an attempt and which the call. The nested retry loops are also written as the
imperative code they are, with every other publisher free to move between any two requests, and are
proved to follow the machine.

**MoE workload** (`MoeAssignment`, `MoeParallelism`). The greedy fill works in place on the
token-by-slot matrix. `np.argsort` is known only by its contract, so any order of ties is covered.

**Block config selection** (`RoundRobin`, `ConfigSelection`, `ConfigMeaning`, `ConfigTruncation`,
`ConfigOrder`). The truncation half of `select_block_configs`: ranking, grouping, two levels of round
robin, the fallback pass. `ConfigMeaning` reads the keys back into comparisons of single fields.

**Trend monitor** (`Statistics`, `TrendDrift`, `TrendStep`, `TrendSeries`, `TrendOrder`,
`TrendMonitor`, `TrendMeaning`). Series building and drift detection over exact reals.
`TrendMeaning` says what an alert means in the names of the metrics and in plain numbers.

**Load generator** (`LoadWindow`, `LoadGenerator`, `LoadInvariant`, `LoadTheorems`). The workers are
coroutines of one event loop, so the code between two awaits is one atomic step; a schedule of steps
fixes the interleaving, the clock readings, the stream contents, failures and cancellation.

**Layouts and measurements** (`KdaLayout`, `KdaDirect`, `IntervalMerge`, `StreamLatency`,
`ServingConcurrency`, `ServingTokens`).

`Common`, `Sums`, `RealSums` and `DivMod` hold what these modules share.

## Where the code and its documentation disagree

The model follows the code.

- `publish` promises "a single commit". One successful call can land any number from one to five
  (`EveryLandingCountIsReachable`), and a call that raises can have landed its commit
  (`RaisedCallCanHaveLanded`). `LandingIsBounded` gives the exact condition: a returned call landed
  one commit if and only if no other ref update of it took effect behind an error reply.
- `detect_drift` says that a step regression clears after about 15 nights. With the default windows
  and gate, a threshold that is not negative and a step that is not tiny, the alert lives exactly
  from the third to the eighth point after the step (`DefaultLifetime`): the points that have aged
  into the baseline widen its scatter before they become its majority. `StepVerdict` gives the
  verdict for every window size, threshold and gate.
- `create_logits_from_counts` cuts an expert short, without an error, when its count exceeds the
  number of tokens (`ExcessIsCutShort`, with `CutShortExample`); the slots that stay empty hold -1,
  which writes the last column (`Paint`). Its error message blames a large top_k, but with counts
  that are not negative the slots never run out (`SucceedsIfNoneNegative`); they can when the
  correction of the total makes a count negative (`FullExample`).
- `build_series` promises the largest run id per date. When records tie on it the first one read
  wins, so the result depends on the reading order exactly when tied records disagree
  (`OrderIndependentIffTiesAgree`, with `TieDependsOnOrder`).
- The `tokens_per_second` list of the load generator covers whole seconds only and omits the tokens
  of a last, partial second (`ReportedSecondsAddUp`, with `PartialSecondIsOmitted`).

## Model

| member | source | states |
|---|---|---|
| PublishingInvariant.FastForwardIsCompareAndSwap | scripts/ci/publish.py:183-192 | In every reachable state the server accepts a publisher's commit if and only if the head is still the commit's parent or already the commit itself |
| PublishingInvariant.BranchAfter | scripts/ci/publish.py:183-192 | Of all changes a request can make, only an accepted ref update changes the branch, and it adds exactly one commit of the sender |
| PublishingInvariant.UpdateRefKept | scripts/ci/publish.py:189-221 | Whatever happens to a ref update, it creates nothing, advances the branch by at most the sender's own commit, and keeps what the sender knows |
| PublishingInvariant.ErrorKept | scripts/ci/publish.py:172-221 | Whatever request fails, repeating it or giving up the attempt keeps what the publisher knows |
| PublishingInvariant.MakeCommitKept | scripts/ci/publish.py:149-180 | Creating a commit, also behind an error reply, never moves the branch, and the commit is the overlay of the files on a former head |
| PublishingInvariant.QuietStepKept | scripts/ci/publish.py:72-146 | Reads, blobs, trees and verification leave the repository untouched and keep what the publisher knows |
| PublishingInvariant.StepKept | scripts/ci/publish.py:324-382 | One step of any publisher, with any fate, keeps the invariant of the whole system, and the branch never loses a commit |
| PublishingInvariant.ExecKept | scripts/ci/publish.py:324-382 | The invariant holds after every schedule and the branch only grows |
| PublishingInvariant.LandedAfter | scripts/ci/publish.py:321-382 | After every schedule a publisher's commits on the branch are exactly the acknowledged one and those whose reply was lost; at most one is offered per attempt |
| PublishingTheorems.OverlayLookup | scripts/ci/publish.py:112-137 | A published tree holds the last content given for each uploaded path and keeps every other path of the base tree |
| PublishingTheorems.PathKept | scripts/ci/publish.py:132-137 | From a published commit to any descendant, a path keeps its content unless a publisher of a commit in between uploaded that path |
| PublishingTheorems.NoLostUpdate | scripts/ci/publish.py:324-355 | Once a publish has returned, its commit is on the branch for ever, and at every later head each uploaded path has the uploaded content unless a later commit of the branch wrote it |
| PublishingTheorems.LandingIsBounded | scripts/ci/publish.py:321-382 | At most five commits land per call, at least one when it returns; exactly one iff no other update took effect behind an error reply; none for a call that has not returned iff no reply was lost |
| PublishingTheorems.AllOrNothing | scripts/ci/publish.py:321-382 | If no ref update takes effect behind an error reply, returning means exactly one commit on the branch and raising means none |
| PublishingTheorems.RankDecreases | scripts/ci/publish_trend.py:284-342 | Every request of a running call spends some of a bounded budget, whatever its fate |
| PublishingTheorems.CallsTerminate | scripts/ci/publish_trend.py:281-342 | In every schedule a call makes at most 5 * (14 + 3 * files) requests, and once it has had that many turns it has returned or raised |
| PublishingRetries.AttemptEnds | scripts/ci/publish.py:357-382 | The error just heard ends a failed attempt: the next attempt begins with reading the head iff the error is HTTP, has code 422, 500, 502, 503 or 504 or one of the two phrases, and this was not the fifth; otherwise the call raises exactly that error |
| PublishingRetries.AttemptsAccountedFor | scripts/ci/publish.py:324-382 | In every schedule the errors that ended the failed attempts are as many as the attempts begun before this one, all transient, and a raised error comes on top of them: it is not transient or it ended the fifth attempt |
| PublishingRetries.ConflictsAreRetried | scripts/ci/publish.py:357-382 | In every schedule a call raises a conflict, a missing object or one of the codes 422, 500, 502, 503 and 504 only after its fifth attempt, having offered at most one commit per attempt |
| PublishingRetries.ThreeTries | scripts/ci/publish.py:88-180 | A blob, a tree or a commit that fails is requested again twice within the attempt, whatever the errors; the third error ends the attempt |
| PublishingRetries.UnverifiedIsMadeAgain | scripts/ci/publish.py:157-180 | A commit that was made but cannot be read back leaves the publisher as if making it had failed |
| PublishingRetries.ThreeUpdates | scripts/ci/publish.py:194-221 | The same ref update is sent three times when what it meets each time is no HTTP error or a missing object in the message; the third ends the attempt |
| PublishingRetries.NoSecondTry | scripts/ci/publish.py:72-85 | Any error of a head or tree read, and any other HTTP error of a ref update, ends the attempt at once |
| PublishingProgress.ConflictIsCharged | scripts/ci/publish.py:357-365 | When a call has met no fault of its own, the server refuses its commit only because another publisher's commit, now the head, has landed above the head the attempt had read |
| PublishingProgress.ConflictsArePaidFor | scripts/ci/publish.py:324-382 | A call without faults of its own has at most as many failed attempts as others have landed commits since the start, whatever happens to the others; if it raises they have landed at least five |
| PublishingProgress.OthersLandAtMostOneEach | scripts/ci/publish.py:321-382 | Without lost replies the other publishers together land at most one commit for each that has files |
| PublishingProgress.FewNeverRaise | scripts/ci/publish.py:321-382 | Such a call needs no more attempts than there are publishers with files, and with at most five of them it never raises |
| PublishingOutcome.RequestsInAttempts | scripts/ci/publish.py:324-355 | Without faults of its own a call makes at most 6 + files requests in each attempt it has begun |
| PublishingOutcome.ServedCallsTerminate | scripts/ci/publish.py:321-382 | Such a call has returned or raised once it has had 5 * (6 + files) turns |
| PublishingOutcome.FewSucceed | scripts/ci/publish.py:321-382 | With n <= 5 publishers that have files, a call without faults of its own has succeeded once it has had n * (6 + files) turns, if no reply of the others is lost |
| PublishingOutcome.FiveOrAllSucceed | scripts/ci/publish.py:321-382 | When nothing goes wrong and all have had their turns, everybody succeeds or at least five do |
| PublishingOutcome.AllCanHaveTurns | scripts/ci/publish.py:321-382 | From every start there is a run without faults in which all have had those turns |
| PublishingStarvation.SixthCanStarve | scripts/ci/publish.py:375-382 | With six or more, any of them can be made to raise a conflict by a schedule without a single fault |
| PublishingStarvation.OnlyFiveMaySucceed | scripts/ci/publish.py:375-382 | However many there are, a run without faults can end with five that succeeded and all the others raising a conflict |
| PublishingStarvation.SafeIffAtMostFive | scripts/ci/publish.py:321-382 | Without faults no call can raise if and only if at most five publishers have files |
| Publishing.OthersLeaveMeAlone | scripts/ci/publish_trend.py:284-330 | No schedule of the other publishers changes what a publisher holds locally |
| PublishClient.Remote.Send | scripts/ci/publish.py:29-43 | One request: the others run, the server answers, and the world is still the result of one schedule from the start |
| PublishClient.Remote.CreateBlob | scripts/ci/publish.py:88-109 | Three tries; an error comes back only as the machine's outer error handling |
| PublishClient.Remote.CreateTree | scripts/ci/publish.py:112-146 | All files are turned into blobs in order, then the tree is made, following the machine through every retry |
| PublishClient.Remote.CreateCommit | scripts/ci/publish.py:149-180 | Creates and reads back the commit with three tries, and offers exactly the commit it returns |
| PublishClient.Remote.UpdateBranchRef | scripts/ci/publish.py:183-221 | Success or error of the ref update exactly as the machine has it, with the retry only for transport errors and missing objects |
| PublishClient.Remote.Attempt | scripts/ci/publish.py:326-355 | One attempt ends in success with the returned commit or in the outer error handling of the error it raises |
| PublishClient.Remote.RetryLoop | scripts/ci/publish.py:321-382 | The outer loop ends with the machine at success or with exactly the raised error, so what `PublishingRetries` proves of the machine holds of the loop |
| PublishClient.Remote.Publish | scripts/ci/publish.py:310-382 | Returns nothing iff there is nothing to upload; a returned commit is on the branch; at most five commits landed; without a commit returned, only lost replies landed any; every failed attempt but a last one was ended by a transient error, and a raised error is not transient or ended the fifth attempt |
| PublishingScenarios.UndisturbedPublishSucceeds | scripts/ci/publish.py:324-355 | Without interference and faults one attempt succeeds with a commit on top of the old head that holds exactly the overlay |
| PublishingScenarios.EveryLandingCountIsReachable | scripts/ci/publish.py:260-261 | From every start, for each number from one to five there is a schedule in which a successful call lands that many commits |
| PublishingScenarios.RaisedCallCanHaveLanded | scripts/ci/publish.py:380-382 | From every start there is a schedule in which a call raises although its commit is the head |
| PublishingScenarios.HeadsMayBeOld | scripts/ci/publish.py:72-77 | The modelled server may answer a head read with exactly the commits of the branch |
| PublishingScenarios.CommitsMayRepeat | scripts/ci/publish.py:149-180 | It may answer a commit request with exactly a new commit or an equal one that exists |
| PublishingScenarios.RepliesMayBeLost | scripts/ci/publish.py:15-43 | Behind an error reply, which looks the same to the publisher, every request may have taken its full effect or none |
| MoeAssignment.Argsort | benchmark/moe/utils.py:462 | Some permutation of the indices that sorts the keys; nothing is said about ties |
| MoeAssignment.RepairedTotal | benchmark/moe/utils.py:444-449 | The repaired counts add up to the number of slots |
| MoeAssignment.RepairedOnLargest | benchmark/moe/utils.py:444-449 | The correction of a wrong total goes to the first of the largest counts and to no other |
| MoeAssignment.FreeSlotIffRoom | benchmark/moe/utils.py:462-466 | As fills differ by at most one, the n-th least filled token has a free slot iff n more assignments fit into the matrix |
| MoeAssignment.PlaceKept | benchmark/moe/utils.py:464-475 | Serving an expert on the least filled tokens keeps fills within one of each other and every token's experts distinct |
| MoeAssignment.PlaceUsers | benchmark/moe/utils.py:472-475 | It gives the expert exactly the wanted number of tokens and changes no other expert's tokens |
| MoeAssignment.PlaceExpert | benchmark/moe/utils.py:472-475 | The in-place loop leaves the matrix and the fill counts holding the placed rows |
| MoeAssignment.GiveTokens | benchmark/moe/utils.py:458-475 | One round reports a full matrix iff the expert's tokens do not fit, and otherwise places it on the least filled tokens |
| MoeAssignment.Assign | benchmark/moe/utils.py:455-475 | The greedy loop fails iff the experts together ask for more than the slots, for every tie order; otherwise every expert has as many distinct tokens as its count allows, and each token lists its experts from the largest count down |
| MoeAssignment.CreateLogits | benchmark/moe/utils.py:442-481 | The exact condition of each error; none for counts that are not negative and have columns; and if and only if the repaired counts are within [0, num_tokens] and have columns, the output has top_k distinct experts per token and every expert its count. Then every assigned expert of a token has a larger logit than every other, the top_k largest columns are exactly the assigned experts, and each expert is among them for exactly its count of tokens |
| MoeAssignment.RealisedIsRouted | benchmark/moe/utils.py:477-479 | A router that takes the top_k largest logits of each token sends every expert exactly the tokens its count asks for |
| MoeAssignment.ServedAsAsked | benchmark/moe/utils.py:455-475 | Whenever the routine returns, each expert is on no token, on as many as its count says, or on all of them if the count is larger |
| MoeAssignment.CountsRealised | benchmark/moe/utils.py:444-475 | Repaired counts in range ask for exactly the slots there are, and every finished assignment meets them with full tokens |
| MoeAssignment.SucceedsIfNoneNegative | benchmark/moe/utils.py:466-470 | For repaired counts that are not negative the slots never run out, and if all have columns there is no error |
| MoeAssignment.ExcessIsCutShort | benchmark/moe/utils.py:462-479 | For such counts the routine returns without an error, and some token has an empty slot iff some count exceeds the number of tokens |
| MoeAssignment.CutShortExample | benchmark/moe/utils.py:462-464 | Counts [3, 1] for two tokens of two slots are accepted with a slot left empty |
| MoeAssignment.FullExample | benchmark/moe/utils.py:447-449 | Counts [2, 2, 2] for one slot are corrected to [-3, 2, 2] and refused |
| MoeAssignment.UnknownIsOutside | benchmark/moe/utils.py:477-479 | Some index is outside the logit columns iff an expert without a column is asked for |
| MoeAssignment.Paint | benchmark/moe/utils.py:477-479 | A logit is 10 if its expert is in the row, or it is the last expert and a slot is empty, and -10 otherwise |
| MoeParallelism.ChooseParallelism | benchmark/moe/utils.py:315-335 | ep * tp is the device count and ep the largest common divisor of devices, tokens and experts that is above neither the devices, nor the experts, nor a given ep size; 1 when there is none; with no ep size set, the greatest common divisor |
| MoeParallelism.GcdDivisors | benchmark/moe/utils.py:327-334 | The common divisors of two numbers are exactly the divisors of their gcd |
| MoeParallelism.LargestIsGcd | benchmark/moe/utils.py:321-334 | A common divisor of the three that is largest up to the target of an unset ep size is their gcd |
| RoundRobin.LevelledIsFair | benchmark/moe/bench_fused_moe.py:656-665 | Serving queues round by round, an earlier queue is at most one ahead of a later one and a later one never ahead of an earlier, at every moment, unless the other is used up |
| RoundRobin.Interleave | benchmark/moe/bench_fused_moe.py:654-665 | The loop terminates, drains every queue in its own order, and is fair at every moment |
| RoundRobin.DrainIsPermutation | benchmark/moe/bench_fused_moe.py:654-666 | What a complete drain puts out is a permutation of what the queues held |
| ConfigSelection.Rank | benchmark/moe/bench_fused_moe.py:624 | A permutation of the configs in descending order of their scores, in which configs of equal score keep their order |
| ConfigSelection.SplitBag | benchmark/moe/bench_fused_moe.py:646-650 | Splitting configs by key into one queue per key loses and adds nothing |
| ConfigSelection.DrawnByLabel | benchmark/moe/bench_fused_moe.py:671-676 | What has been drawn with a bucket's key is exactly the front part of that bucket |
| ConfigMeaning.ScoreMeans | benchmark/moe/bench_fused_moe.py:608-622 | One score is less than another iff the second config is larger in the first field in which they differ, of bt, effective bts, bf, bd1, bd2, btc, bfc, bd1c, bd2c and bse |
| ConfigMeaning.DescendingMeans | benchmark/moe/bench_fused_moe.py:624 | A list in ranked order descends field by field |
| ConfigMeaning.BucketMeans | benchmark/moe/bench_fused_moe.py:648 | Bucket keys compare bt first and then the effective bts |
| ConfigMeaning.GroupMeans | benchmark/moe/bench_fused_moe.py:648-650 | Two configs share a group iff they agree in bt, effective bts, bf, bd1, bd2, bfc, bd1c, bd2c and bse |
| ConfigTruncation.GroupConfigs | benchmark/moe/bench_fused_moe.py:646-650 | The nested dictionary holds every config's bucket and shape, and each group is the ranked configs of that bucket and shape in order |
| ConfigTruncation.OrderBucket | benchmark/moe/bench_fused_moe.py:653-666 | An ordered bucket is a permutation of its configs that keeps each shape group in ranked order, and in every prefix a larger shape is at most one ahead of a smaller and a smaller never ahead of a larger, unless the other is used up |
| ConfigTruncation.SelectRounds | benchmark/moe/bench_fused_moe.py:668-680 | The bucket rounds end with the limit reached or every bucket drained, the selection being the first config of each score popped |
| ConfigTruncation.SelectionSize | benchmark/moe/bench_fused_moe.py:631-680 | The selection has the limit's size or one config per distinct score, whichever is smaller, all of them distinct input configs |
| ConfigTruncation.BucketsAreFair | benchmark/moe/bench_fused_moe.py:669-680 | Unless the other is exhausted, a larger bucket contributes at most one more than a smaller one and a smaller never more than a larger |
| ConfigTruncation.AllGroupsAreFair | benchmark/moe/bench_fused_moe.py:653-680 | The same for any two shape groups of a bucket, in the truncated selection |
| ConfigTruncation.GroupFrontTaken | benchmark/moe/bench_fused_moe.py:642-650 | What has been taken of a shape group is the front of what the ranking holds of it |
| ConfigTruncation.TakenLargestFirst | benchmark/moe/bench_fused_moe.py:642-645 | Within a shape group no config is taken while one of a larger score is passed over |
| ConfigTruncation.FirstIsLargest | benchmark/moe/bench_fused_moe.py:668-680 | Whatever repeats, the first config of a truncated list comes from the largest bucket of all, so its bt is the largest |
| ConfigTruncation.Fallback | benchmark/moe/bench_fused_moe.py:682-686 | When it is reached at all, the fallback pass adds nothing |
| ConfigTruncation.SelectConfigs | benchmark/moe/bench_fused_moe.py:605-692 | Fails iff the limit is not positive. When everything fits, the list descends field by field and configs alike keep their order. Otherwise its first config is of the largest bucket, no config is taken while one of larger btc and otherwise alike is passed over, and, with distinct scores, it is exactly the limit of distinct input configs, fair between buckets and between shapes after every single choice |
| ConfigOrder.SelectionIsDetermined | benchmark/moe/bench_fused_moe.py:624-680 | These promises fix the list and its order: two selections of one size that keep them are equal |
| Statistics.MedianInRange | scripts/ci/check_trend_threshold.py:173-174 | When fewer than half of the values lie outside an interval the median lies inside, whatever the outliers are |
| Statistics.MedianIsMiddle | scripts/ci/check_trend_threshold.py:173-174 | The median is the value at the middle position of the ordered values, or lies half way between the values at the two middle positions |
| TrendDrift.OutliersDoNotAlert | scripts/ci/check_trend_threshold.py:159-181 | If fewer than half of the points of each window leave a band no wider than the threshold, no drift is reported whatever the other values are |
| TrendDrift.OldHistoryIgnored | scripts/ci/check_trend_threshold.py:169-172 | Points older than the two windows never change the verdict |
| TrendStep.VarianceOfMix | scripts/ci/check_trend_threshold.py:186-187 | The sample variance of a two-level window in closed form |
| TrendStep.ScatterGate | scripts/ci/check_trend_threshold.py:184-190 | With j of w baseline points at the new level, the z gate hides a change whose square is r times the step's iff z^2 j (w - j) > r w (w - 1) and the scatter is not negligible |
| TrendStep.StepVerdict | scripts/ci/check_trend_threshold.py:165-191 | For a series that steps once, the exact verdict k points after the step, for every pair of levels, window size, threshold and gate, however long the history |
| TrendStep.StepIsReported | scripts/ci/check_trend_threshold.py:165-181 | An adverse step past the threshold is reported for every k with recent/2 < k <= recent |
| TrendStep.StepIsForgotten | scripts/ci/check_trend_threshold.py:165-167 | It is never reported for any k > recent + baseline/2 |
| TrendStep.DefaultLifetime | scripts/ci/check_trend_threshold.py:268-283 | With the default windows and gate, a threshold that is not negative and a step of at least 2e-9, the alert lives for exactly 3 <= k <= 8 |
| TrendSeries.ReadRecord | scripts/ci/check_trend_threshold.py:133-147 | One record replaces an entry iff it is valid, numbered, measures that metric and has a larger run id; all other entries stay |
| TrendSeries.NumberOfDecimal | scripts/ci/check_trend_threshold.py:136-146 | A run id is compared by the number whose decimal notation it is |
| TrendSeries.BuildSeries | scripts/ci/check_trend_threshold.py:129-153 | One strictly dated series per key that has data, holding for each date exactly the surviving entry |
| TrendOrder.LatestWins | scripts/ci/check_trend_threshold.py:144-147 | The surviving entry is that of the first record with the largest run id, and none survives iff no record offers one |
| TrendOrder.SeriesDetermined | scripts/ci/check_trend_threshold.py:148-153 | Two builds are equal iff every key and date has the same surviving entry |
| TrendOrder.OrderIndependentIffTiesAgree | scripts/ci/check_trend_threshold.py:144-147 | Every reading order gives the same entries iff any two records that offer a key and date their largest run id offer the same entry |
| TrendOrder.TieDependsOnOrder | scripts/ci/check_trend_threshold.py:144-147 | Two results of one night with run ids 7 and 07: swapping them changes the series |
| TrendOrder.DistinctRunsBuildOneSeries | scripts/ci/check_trend_threshold.py:129-153 | If no two records share key, date and run id, all permutations build the same series |
| TrendOrder.SeriesKeepsLargestRun | scripts/ci/check_trend_threshold.py:130-131 | Every point is the date, run id and value of a valid record with a numeric run id, of that key, whose run id is the largest for its key and date |
| TrendOrder.OthersAreSkipped | scripts/ci/check_trend_threshold.py:134-137 | A record that is not valid, or whose run id is no number, changes no series, wherever it stands |
| TrendOrder.EveryResultIsSeen | scripts/ci/check_trend_threshold.py:138-147 | Every value of every other record has a point at its key and date with as large a run id |
| TrendMonitor.FindDrifts | scripts/ci/check_trend_threshold.py:215-231 | Reports exactly the drifting series, each once with its detail, and fails iff some series meets an empty window |
| TrendMonitor.AlertsIgnoreReadingOrder | scripts/ci/check_trend_threshold.py:129-231 | From records to alerts: without clashing run ids the bag of alerts does not depend on the order of the records |
| TrendMonitor.RecordIgnoredIffSuperseded | scripts/ci/check_trend_threshold.py:133-147 | One more record leaves all series as they are iff each of its values is already there with as large a run id |
| TrendMonitor.BadNightsRaiseNoAlert | scripts/ci/check_trend_threshold.py:159-160 | A key whose windows mostly stay inside a narrow band never appears among the alerts |
| TrendMeaning.DriftMeans | scripts/ci/check_trend_threshold.py:169-191 | With full windows a drift is reported iff the baseline median is not within 1e-9 of zero, the recent median is worse by more than the threshold (lower for throughputs and scores, higher for latencies) and the gate does not hide it |
| TrendMeaning.MadGate | scripts/ci/check_trend_threshold.py:184-190 | A scaled MAD of at least 1e-9 hides exactly the changes below z times it |
| TrendMeaning.StdevGate | scripts/ci/check_trend_threshold.py:184-190 | Otherwise the sample standard deviation does, if it is at least 1e-9 and the baseline is not flat |
| TrendMeaning.DetailMeans | scripts/ci/check_trend_threshold.py:192-204 | The report holds the two medians, 1.4826 times the MAD, and the change in percent of the old level |
| TrendMeaning.StepReportedIff | scripts/ci/check_trend_threshold.py:169-191 | For a step from a >= 1e-9 to b that fills the larger part of the recent window, throughputs and the score are reported iff 100 (a - b) exceeds the threshold times a, latencies iff 100 (b - a) does |
| TrendMeaning.ZeroIsSilent | scripts/ci/check_trend_threshold.py:175-176 | From a level within 1e-9 of zero no fresh step is reported |
| TrendMeaning.HalfwayReportedIff | scripts/ci/check_trend_threshold.py:173-191 | When exactly half of the baseline has aged, the step is judged from the middle between its levels, and the gate lets it through iff 1.4826 z is at most 1 |
| TrendMeaning.AlertsAreRegressions | scripts/ci/check_trend_threshold.py:215-231 | Every alert is of a metric that has become worse by more than its own threshold, the accuracy percentage for scores and the performance percentage for all others |
| TrendMeaning.NoAlertUnlessWorse | scripts/ci/check_trend_threshold.py:20-26 | With thresholds that are not negative, a metric whose recent median is no worse than its baseline median never appears among the alerts |
| TrendMeaning.RegressionsAreReported | scripts/ci/check_trend_threshold.py:215-231 | A worsening past the threshold that the gate does not hide is always among the alerts |
| LoadWindow.Window.constructor | scripts/disaggregation/pd_overlap_benchmark.py:30-35 | A fresh window has seen nothing |
| LoadWindow.Window.Observe | scripts/disaggregation/pd_overlap_benchmark.py:37-43 | A negative delta is rejected and changes nothing; otherwise total and bin change together, only inside [start, end) |
| LoadWindow.TotalsAgree | scripts/disaggregation/pd_overlap_benchmark.py:37-43 | After any observations the total is the sum of the deltas inside the window and the sum of the bins, and every bin is the second of some observation |
| LoadWindow.BinIsSecond | scripts/disaggregation/pd_overlap_benchmark.py:37-43 | Every bin holds exactly the deltas observed in its second of the window |
| LoadWindow.ReportedSecondsAddUp | scripts/disaggregation/pd_overlap_benchmark.py:157 | The reported seconds fall short of the total by exactly what was observed in the last, partial second, so they add up iff that comes to nothing, and always for whole durations |
| LoadWindow.PartialSecondIsOmitted | scripts/disaggregation/pd_overlap_benchmark.py:157 | Of seven tokens in a window of a second and a half the report shows two |
| LoadInvariant.StepKept | scripts/disaggregation/pd_overlap_benchmark.py:83-138 | Every atomic step of every worker, failing ones included, keeps the generator's invariant |
| LoadTheorems.Conservation | scripts/disaggregation/pd_overlap_benchmark.py:79-146 | In every interleaving `active` is the number in flight and at most the concurrency; the window's total is the sum inside it and of its bins; every token belongs to a completed, running or failed request |
| LoadTheorems.DrainEndsAtZero | scripts/disaggregation/pd_overlap_benchmark.py:137-146 | When all workers are gone `active` is 0 and every observed token is accounted for |
| LoadTheorems.CompletedStreamsAreWhole | scripts/disaggregation/pd_overlap_benchmark.py:119-136 | A completed stream's deltas add up to its `max_new_tokens`, its payload is the one its slot and sequence prescribe, it is in the cohort iff it began inside the window, and its time to first token leads from its begin to the line with its first increment that is not zero |
| LoadTheorems.EventsAreRecorded | scripts/disaggregation/pd_overlap_benchmark.py:83-136 | A request begins only before the end of the window; each line adds its increment at its own time to the log and to the stream; a whole stream is recorded with the clock readings of its begin and its end |
| LoadTheorems.ExitsAreRecorded | scripts/disaggregation/pd_overlap_benchmark.py:83-138 | A falling count, an end that is short or without a token, or a break fails the stream and nothing else: the place is given back, the window and the results stay; a worker between requests stops exactly when the end of the window has come |
| LoadTheorems.PeakIsMaximum | scripts/disaggregation/pd_overlap_benchmark.py:88-89 | `peak_active` is reached at some moment of the run and exceeded at none |
| LoadTheorems.PayloadsCoveredEvenly | scripts/disaggregation/pd_overlap_benchmark.py:82-86 | When every worker has issued m requests, the request numbers are 0 .. concurrency * m - 1 once each, and any two payloads have been used within one of each other |
| KdaLayout.PlanLayout | benchmark/kernels/kda/bench_mega_kda.py:97-102 | A layout is planned iff segments have between 1 and 64 tokens; it packs as many per tile as fit and are allowed, in the fewest whole tiles; longer segments are refused |
| KdaLayout.SourceSegmentAt | benchmark/kernels/kda/bench_mega_kda.py:106-112 | The repeated segment numbers give each position the segment it lies in |
| KdaLayout.DestinationInTile | benchmark/kernels/kda/bench_mega_kda.py:113-115 | A token's tile is its segment's, and its place there its distance from the tile's first token |
| KdaLayout.DestinationInjective | benchmark/kernels/kda/bench_mega_kda.py:113-115 | Different tokens have different destinations |
| KdaLayout.DestinationInRange | benchmark/kernels/kda/bench_mega_kda.py:101-115 | Every destination lies inside the padded buffer |
| KdaLayout.SegmentsStayTogether | benchmark/kernels/kda/bench_mega_kda.py:113-115 | Two tokens share a tile iff their segments belong to the same group, so no segment is split |
| KdaLayout.TileCapacity | benchmark/kernels/kda/bench_mega_kda.py:91-102 | No tile holds more segments than planned |
| KdaLayout.ScatterAt | benchmark/kernels/kda/bench_mega_kda.py:122-125 | After scattering, each value is at its destination and zeros are everywhere else |
| KdaLayout.RepackRoundTrip | benchmark/kernels/kda/bench_mega_kda.py:97-146 | Whenever a layout is planned for equal segments, gathering after scattering returns the original tokens |
| KdaLayout.SegmentIdsMarkTokens | benchmark/kernels/kda/bench_mega_kda.py:116-120 | The segment ids mark each token with its segment, from 1, and all padding with 0 |
| KdaDirect.DirectMegaSupported | benchmark/kernels/kda/bench_mega_kda.py:151-161 | True iff no aligned tile meets more than two segments, and iff no inner segment lies strictly inside a tile |
| KdaDirect.Characterised | benchmark/kernels/kda/bench_mega_kda.py:151-161 | The two conditions are equivalent for all token and segment counts |
| KdaDirect.LongOrHalfSegmentsSupported | benchmark/kernels/kda/bench_mega_kda.py:151-161 | Always supported for segment length 32 or at least 63 |
| KdaDirect.ShortSegmentsUnsupported | benchmark/kernels/kda/bench_mega_kda.py:151-161 | Never supported for three or more segments shorter than 32 |
| IntervalMerge.Merge | benchmark/kernels/mhc/benchmark_mhc.py:345-354 | The merged list is sorted, strictly separated, covers exactly the same points of the time line, and its summed length is the measure of the union, on any grid of points that holds the ends, and at most the sum of the inputs |
| IntervalMerge.SeparatedUnique | benchmark/kernels/mhc/benchmark_mhc.py:345-350 | The covered points determine the merged list, so neither order nor overlaps of the input matter |
| IntervalMerge.SeparatedMeasure | benchmark/kernels/mhc/benchmark_mhc.py:354 | The summed length of separated intervals is the total length of the grid cells they cover |
| IntervalMerge.UnionAtMostSum | benchmark/kernels/mhc/benchmark_mhc.py:354 | For any intervals the union is no longer than the lengths together |
| IntervalMerge.GridExists | benchmark/kernels/mhc/benchmark_mhc.py:345-354 | Every list of intervals has such a grid, so its measure is defined |
| StreamLatency.ReadStream | python/sgl_jax/bench_serving.py:583-634 | For every stream the latencies are those of `Latencies`: one per token gained, lasting together as long as the gaps that gained tokens, never negative on a steady clock; if the count never falls, one per token after the first chunk's and together the time to the last chunk with new tokens |
| StreamLatency.EachLatency | python/sgl_jax/bench_serving.py:621-626 | Each latency that a chunk brings is the time since the last change of the count divided by the tokens gained, so a gap is shared evenly among its tokens |
| StreamLatency.TelescopesIffNeverFalls | python/sgl_jax/bench_serving.py:614-629 | The latencies number last minus first count iff the count never falls, and the time missing from their sum is exactly that of falling gaps |
| StreamLatency.ReadText | python/sgl_jax/bench_serving.py:608-629 | One text chunk extends what the loop has gathered, chunks without progress being folded into the next gap |
| StreamLatency.ArrivalIsLast | python/sgl_jax/bench_serving.py:594-599 | The latency is that of the last chunk that is not blank |
| StreamLatency.AllCounted | python/sgl_jax/bench_serving.py:615-617 | If the clock has moved before the first text, every text chunk counts |
| ServingConcurrency.SecondsInTable | python/sgl_jax/bench_serving.py:2029-2056 | Every second a successful request touches is inside the table, so the clip removes none |
| ServingConcurrency.Mark | python/sgl_jax/bench_serving.py:2051-2057 | Exactly the seconds from first to last are counted up by one |
| ServingConcurrency.InFlightOccupies | python/sgl_jax/bench_serving.py:2051-2057 | At every instant the requests in flight are at most those that touch its second |
| ServingConcurrency.MaxConcurrent | python/sgl_jax/bench_serving.py:2027-2061 | At every instant at most this many successful requests are in flight; it is 0 iff none succeeded, and the largest number that touch a common second |
| ServingTokens.TimeAt | python/sgl_jax/bench_serving.py:2040-2044 | Each rebuilt token time is the first token's time plus the latencies up to it |
| ServingTokens.AddTokens | python/sgl_jax/bench_serving.py:2046-2049 | Each second of the table gains exactly the token times that fall into it |
| ServingTokens.TokensPerSecond | python/sgl_jax/bench_serving.py:2033-2060 | The table holds for each second how many tokens of the successful outputs come in it, token k coming at start plus time to first token plus the first k latencies; with its peak; and it adds up to their number iff all of them fall into the table |
| ServingTokens.StreamInTable | python/sgl_jax/bench_serving.py:2040-2048 | The token times of a measured stream fall into the table when its count never falls, the clock never runs backwards and the client's own delays come to less than a second |

## Left out

- HTTP, JSON, base64, file collection, sleeps and token checks of the publishers: an API call is one server action with a fate. Of an error body only whether the searched phrases are found is kept.
- Writers of the branch other than publishers, and forced updates: the publishers' branch is written by them alone.
- The commit message and the author date: two equal commits of one publisher may or may not be the same commit, and the model allows both.
- `effective_for`, `validate_fused_moe_block_config`, the enumeration of candidates and `_estimate_vmem_bytes`: the selection starts from any list of configs.
- ConfigTruncation.SelectConfigs: does not state the order and the balance of the list when scores repeat; its size, its origin and the preference for larger configs it states always.
- TrendMonitor.FindDrifts: does not model the reported z score, a rounded quotient by a standard deviation, nor the order of the report, which is that of a dictionary.
- TrendSeries.BuildSeries: does not model digits outside ASCII, which Python's `isdigit` also accepts.
- Floating-point rounding and the rounded report fields: decisions are over exact reals, and the standard deviation is compared by its square.
- `load_records`, `aggregate_by_config` and the step summary: directory reading and formatting. Dates are ordinals, as the directory names order.
- The inter-token times, the largest delta and the percentiles of the load generator's report.
- Segments of unequal length: the repacking is proved for the equal segments the padding study uses.
- IntervalMerge.Merge: does not model the check that follows it, that the number of merged intervals is the number of timed calls.
- JAX, Pallas and profiler calls, random generators and tokenizers, plotting, command lines, and the issue, Slack, bisect and release scripts.
- The serving engine under python/sgl_jax/srt.
