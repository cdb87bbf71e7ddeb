# A Dafny model of Binary Search Gang

Binary Search Gang lets people practise interview problems together: rooms with timed
rounds, submissions that are judged, queued, scored and ranked, a chat, and a browser
extension that moves everybody to the right problem. This project models the parts whose
correctness depends on how steps interleave or fail, and proves what they promise.

| files | what they model |
|---|---|
| `ReliableQueue`, `Delivery`, `Pipeline`, `Consumers` | the submission queues: two Redis lists per queue, the worker that hands messages from one queue to the other, central-service that handles them; any command may fail with or without taking effect, and either consumer may crash between any two commands |
| `Scoring`, `AwardLimits`, `Conservation`, `LostPoints`, `PackedScore` | scoring: the score fixed when a submission is created, the check when its message is processed, the round leaderboard packed into one float, the lifetime leaderboard |
| `SubmissionSystem`, `SubmissionServices` | both as one system: a submission creates its rows and is published, and what comes back is processed |
| `TokenBucket`, `ConnectionPool`, `SlidingLog`, `FixedWindow` | four rate limiters |
| `ProblemSet`, `ProblemCount` | choosing the problems of a round, and the extension's cache of available-problem counts |
| `Rooms`, `Membership`, `RoomServices` | rooms, members, admin succession, rounds, expiry tasks and round timers; `Membership` tells them from the history of requests alone |
| `ChatRooms`, `ChatReplies`, `ChatServices` | the real-time service: room registry, bounded history, replay, announcements, chat filter, rounds |
| `Profanity` | the chat filter's whole-word search |
| `RoomEvents` | the extension's reaction to replayed events |
| `Text`, `Common` | strings and small shared vocabulary |

Each part has a functional model of one step, theorems about every run of steps, and, where
the program updates objects in place, classes whose methods are proved to take exactly those
steps.

What a step may do is part of the model: a Redis command ends in one of three ways (done;
not done and reported failed; done but reported failed), a database call may fail where the
code looks at its error, a random query returns any rows in any order. Times, generated
ids, the verdict a client sends and the character tables of the run-time libraries are
parameters.

## Where the code does less, or something else, than one would think

- An award is not exactly once. The query that guards it leaves the submission itself out, so
  delivering an awarded message again awards it again (`AwardLimits.RedeliveryAwardsAgain`,
  with a run in `AwardLimits.AwardedTwice`), and a second accepted submission made before the first is processed cancels both
  (`AwardLimits.SecondAcceptedCancels`, `AwardLimits.AwardCancelled`). `Scoring.AwardIff` is the exact condition.
- A delivery that fails to read the problem credits a lifetime total without counting the
  problem (`Conservation.BalanceStep`, `LostPoints.Unbalanced`); one that fails to save loses
  the points for good, since its message is acked (`LostPoints.SaveLosesPoints`); and one that
  fails to find the user credits whoever has the first row (`LostPoints.StrangerCredited`).
  `Conservation.BoardsStep` and `Conservation.TotalsStep` are the exact conditions.
- Deleting a room deletes the submissions that query looks at, so the same problem can be
  scored again (`AwardLimits.DeletionForgets`, `AwardLimits.AwardedAfterDeletion`).
- All limiters of central-service build the same Redis key, so they share one bucket. With a
  bucket that expires before it would be full the bound fails (`TokenBucket.BoundIff`); the
  deployed limiters meet it (`TokenBucket.DeployedBound`).
- When the choice of problems fails after the row of a later round is inserted, the row stays,
  and neither it nor any round created behind it ever starts (`Rooms.FailureLeavesEmpty`,
  `Rooms.StuckBehind`, `Rooms.SecondRoundFails`); `Rooms.StartableIff` is the exact condition.
- A round is marked started before its participants are inserted and its timer is scheduled.
  If either fails, it stays started without a timer (`Rooms.TasksRun`, `Rooms.UntimedStays`);
  a negative duration, which nothing refuses, is enough (`Rooms.NegativeDuration`). That the
  scheduler refuses an interval that is not positive is an assumption: its source is not part
  of this model.
- An expiry task that has run leaves its entry in `ttlTaskIDs` behind; the pending tasks are
  exact all the same (`Rooms.TasksRun`).
- The skipping word search misses some phrases (`Profanity.PhraseMissed`);
  `Profanity.SearchExactIff` says for which terms it is exact.
- `rtc-service/response/response-types.go:15-19` calls joins and leaves transient and not
  kept in history. The code stores and replays them; the model follows the code.
- The queued submission id is that of the round submission although the other side looks it
  up in the submissions table; the two tables grow in lockstep (`Scoring.LockstepStep`).
- The count shown in the extension may be smaller than the pool creation draws from, since
  recency and difficulty are dropped in the fallback (`ProblemSet.CountCanRefuse`).

## Model

| member | source | states |
|---|---|---|
| `ReliableQueue.PutBackConserves` | central-service/queue/redis_queue.go:65-73 | requeueing a message in processing keeps every message exactly once |
| `ReliableQueue.RemoveFirstExactly` | central-service/queue/redis_queue.go:59-63 | what an ack or requeue removes is the first of the equal messages, the others keeping their order |
| `ReliableQueue.RedisQueue.Publish` | central-service/queue/redis_queue.go:35-41 | the payload is appended unless the command did nothing; an error is reported for every outcome but a clean one |
| `ReliableQueue.RedisQueue.Consume` | central-service/queue/redis_queue.go:43-57 | the oldest message moves to processing and is returned; an empty list is no error; a failed reply may have moved it |
| `ReliableQueue.RedisQueue.Ack` | central-service/queue/redis_queue.go:59-63 | exactly the first occurrence in processing goes |
| `ReliableQueue.RedisQueue.Requeue` | central-service/queue/redis_queue.go:65-73 | the message moves from processing to the end of main in one step |
| `ReliableQueue.RedisQueue.Recover` | worker-service/redis_queue.go:73-85 | without an error everything in processing was moved back, in order, to the end of main and counted; an error stops the loop, the last move having happened or not |
| `Delivery.InvRun` | worker-service/main.go:75-155 | in every run the published messages are exactly those on main, in processing, and acked as good or as bad, as multisets; and the effects are the acked ones, the one in flight, and repeats, of which there are no more than faults |
| `Delivery.NoLoss` | worker-service/main.go:75-155 | at one consumer, after any run with crashes and failing commands, a good publication is on a list or its effect took place |
| `Delivery.BoundedRepeats` | worker-service/main.go:111-150 | effects of a message never exceed its publications plus the faults |
| `Delivery.BoundedTotal` | worker-service/main.go:111-150 | all effects together never exceed all publications plus the faults |
| `Delivery.Drained` | worker-service/main.go:58-155 | from any reachable state, a restart followed by commands that succeed acts on every good publication |
| `Delivery.FaultFreeOrder` | worker-service/main.go:75-155 | with no fault the effects are the good publications in order, apart from the one in hand and those waiting |
| `Delivery.OnlyValidActed` | worker-service/main.go:100-150 | in every run the worker acts on nothing but complete submissions with code of at most 1048576 characters and drops nothing but other messages; central-service acts on verdicts and drops what is none |
| `Delivery.BlankStays` | central-service/services/submission-queue.go:174-182 | an empty message is never acked and stays on the two lists in every run |
| `Pipeline.LinkedRun` | worker-service/main.go:100-150 | in every run both stages keep their invariants and the egress publications are exactly what the worker acted on |
| `Pipeline.NoLossEndToEnd` | central-service/services/submission-queue.go:167-200 | in every run every valid submission is on one of the four lists, as itself or as its egress message, or was handled, with multiplicity |
| `Pipeline.BoundedHandling` | central-service/services/submission-queue.go:167-200 | handlings of a message never exceed its valid submissions plus the repeats of the two consumers, each paid for by a fault |
| `Pipeline.FifoEndToEnd` | worker-service/main.go:75-155 | with no fault, what is handled, in hand and waiting is the valid submissions in first-in first-out order |
| `Consumers.WorkerService.Startup` | worker-service/main.go:58-64 | startup is a run of recovery steps; if none fails the main list is the old one followed by the old processing list |
| `Consumers.WorkerService.Iterate` | worker-service/main.go:82-155 | one turn of the loop takes exactly the steps of the model: poison dropped, publish before ack, requeue on failure |
| `Consumers.WorkerService.Loop` | worker-service/main.go:74-155 | the loop is the concatenation of its turns, so every theorem about runs applies to it |
| `PackedScore.RoundTrip` | central-service/services/round.go:397-425 | unpacking undoes packing, below 2^53, through a 64-bit float |
| `PackedScore.EntryOrder` | central-service/services/round.go:397-411 | entries are ordered by points, then by the earlier time, and equal only if both are |
| `PackedScore.UpdateAddsPoints` | central-service/services/round.go:427-454 | one update adds its points, below 1024, and stamps its time |
| `PackedScore.UpdatesAddUp` | central-service/services/round.go:427-454 | after any sequence of updates the decoded points are the sum added and the time is the last one |
| `Scoring.LockstepStep` | central-service/services/round.go:549-590 | every step keeps the two submission tables in lockstep, so the queued id names the right row |
| `Scoring.ProcessKeeps` | central-service/services/submission-queue.go:63-165 | processing a message changes nothing but the verdict, the user row and the leaderboards |
| `Scoring.AwardInvRun` | central-service/services/round.go:482-513 | in every run at most one accepted submission of a user for a problem carries a score, across all rounds |
| `Scoring.OneScoredSubmission` | central-service/services/round.go:558-576 | in every run all awards of a user for a problem that went to submissions still there went to the same one |
| `Scoring.AwardsWithinDeliveries` | central-service/services/submission-queue.go:82-163 | while no room is deleted, the awards of a user for a problem never exceed the deliveries of one message |
| `Scoring.AwardIff` | central-service/services/submission-queue.go:63-165 | whatever fails, exactly when a delivery earns an award, and which |
| `Scoring.TransientNeverAwards` | central-service/services/submission-queue.go:183-194 | a requeue for a transient failure never follows an award |
| `Scoring.ReplyIff` | central-service/services/submission-queue.go:69-76 | a message is to be delivered again exactly if its row could not be read or was there and its verdict update failed; it is refused for good exactly if there is no row or the points of an award could not be saved |
| `Scoring.VerdictWritten` | central-service/services/submission-queue.go:129-133 | the verdict is written exactly if the row was read and the update took effect; no other submission changes, and nothing at all without the row |
| `Scoring.AwardedUser` | central-service/services/submission-queue.go:82-123 | users keep their ids, and an award names the id its user has from then on |
| `Scoring.StartSeats` | central-service/services/round.go:230-245 | a new round seats exactly those present, with no points, and nothing starts for unknown problems, a known round or too short ids |
| `Scoring.EndedTakesNone` | central-service/services/round.go:525-531 | once a round is over no submission of it is created in any continuation |
| `AwardLimits.DeliveryKeepsEarnings` | central-service/services/submission-queue.go:63-165 | no delivery, whatever fails in it, changes what any later delivery earns |
| `AwardLimits.RedeliveryAwardsAgain` | central-service/services/submission-queue.go:111-123 | a message that earns an award earns another one when delivered again, at any later time |
| `AwardLimits.AwardedTwice` | central-service/services/submission-queue.go:111-123 | a concrete run in which one submission is awarded twice |
| `AwardLimits.SecondAcceptedCancels` | central-service/services/submission-queue.go:111-123 | once a second accepted submission exists, in every continuation that reads user and count neither is awarded any more |
| `AwardLimits.AwardCancelled` | central-service/services/submission-queue.go:111-123 | a concrete run in which a problem accepted twice earns nothing |
| `AwardLimits.DeletionForgets` | central-service/services/room.go:141-179 | after rooms are deleted a problem scores again exactly when none of its accepted submissions is left |
| `AwardLimits.AwardedAfterDeletion` | central-service/services/room.go:141-179 | a concrete run in which a problem is awarded twice without redelivery, its room deleted in between |
| `Conservation.TablesRun` | central-service/services/round.go:515-650 | in every run a submission's score is 0 or its problem's, and its problem is one of its round's |
| `Conservation.CreditedBalance` | central-service/services/submission-queue.go:135-163 | crediting keeps total and counters in balance exactly for a seeded difficulty, or when there is no row |
| `Conservation.BalanceStep` | central-service/services/submission-queue.go:63-165 | one delivery keeps every lifetime row balanced exactly unless it awards with a problem it could not read or that has no seeded difficulty |
| `Conservation.TotalsBalanced` | central-service/services/submission-queue.go:135-163 | in every run with seeded difficulties, redelivery included, each total is 3 per easy, 4 per medium and 5 per hard problem counted |
| `Conservation.BoardsStep` | central-service/services/submission-queue.go:126-134 | one delivery keeps the round leaderboards equal to the points awarded exactly when it writes the leaderboard of what it awards |
| `Conservation.TotalsStep` | central-service/services/submission-queue.go:136-163 | one delivery keeps the lifetime totals equal to the points awarded exactly when the award is saved and goes to its user's row, or to the first row when that is the user's |
| `Conservation.MatchedRun` | central-service/services/round.go:427-454 | in every run in which each award reached both leaderboards, each decoded entry and each lifetime total is the sum of the awards it stands for |
| `Conservation.PointsAgree` | central-service/services/submission-queue.go:125-163 | then a user's decoded points over all rounds equal the lifetime total, redelivery included, while no entry overflows |
| `Conservation.TenBitsSuffice` | central-service/services/round.go:427-454 | while no submission is awarded twice, whatever else fails, rounds of up to 204 problems never overflow the ten bits |
| `LostPoints.Unbalanced` | central-service/services/submission-queue.go:82-83 | a run after which a total has no solved problem to it: the problem could not be read |
| `LostPoints.SaveLosesPoints` | central-service/services/submission-queue.go:160-162 | a run after which points are on the round leaderboard and lost for the lifetime total, the message acked |
| `LostPoints.StrangerCredited` | central-service/services/submission-queue.go:147-148 | a run after which one user has the points of another, who could not be looked up |
| `SubmissionSystem.IsPipelineRun` | central-service/services/submission-queue.go:167-200 | the queues of every run of the joint system are those of a run of the pipeline |
| `SubmissionSystem.IsScoringRun` | central-service/services/submission-queue.go:63-165 | its database is that of a run of the scoring model, so every theorem about those holds of it |
| `SubmissionSystem.SoundRun` | worker-service/main.go:100-150 | in every run each message on the queues is that of a created submission with its stored verdict, no submission is published twice, and each award was made by a handling of its message |
| `SubmissionSystem.ProcessIsDeliver` | central-service/services/submission-queue.go:63-75 | the verdict message in hand names a created submission and its stored verdict, so processing it is the delivery of the scoring model |
| `SubmissionSystem.AwardsOfPair` | central-service/services/submission-queue.go:82-123 | while no room is deleted, a user is awarded a problem at most once plus the repeats of the two consumers, hence at most once with no fault |
| `SubmissionSystem.FinishedIsSettled` | central-service/services/submission-queue.go:183-199 | in every run what the handler has handled is exactly what it had in hand in processings that read the row and wrote the verdict, or found no row; a verdict message leaves the lists only after one |
| `SubmissionSystem.TenBitsSuffice` | central-service/services/round.go:427-454 | if neither consumer repeated a message, whatever else failed, rounds of up to 204 problems never overflow; and if each award was written, the leaderboards agree |
| `SubmissionSystem.NoSubmissionLost` | central-service/services/submission-queue.go:33-46 | every published valid submission is in flight or was in the hands of a processing that read its row and wrote the verdict, or found no row, with multiplicity; and each is one the database knows |
| `SubmissionServices.EgressService.ProcessSubmissionData` | central-service/services/submission-queue.go:63-165 | the method does what the model does, whatever fails; it asks for another delivery exactly if the row was not read, or was there and its update failed |
| `SubmissionServices.EgressService.UpdateLeaderboardScore` | central-service/services/round.go:427-454 | one entry is rewritten, with the points added and the new time |
| `SubmissionServices.EgressService.Handle` | central-service/services/submission-queue.go:176-199 | after a message: process, then ack on success and permanent failure or requeue on transient failure, as steps of the joint system |
| `SubmissionServices.EgressService.Startup` | central-service/services/submission-queue.go:167-173 | what a previous run left is recovered first, in order if nothing fails |
| `SubmissionServices.EgressService.Iterate` | central-service/services/submission-queue.go:174-199 | one iteration of the listener takes steps of the joint system |
| `SubmissionServices.EgressService.Listen` | central-service/services/submission-queue.go:174-200 | the listener takes steps of the joint system, so its theorems hold of the listener and its database |
| `SubmissionServices.RoundSubmissions.CreateRoundSubmission` | central-service/services/round.go:515-650 | accepted exactly for a started round that is not over, one of its problems and a participant; then both rows are inserted, the score is fixed and the id queued |
| `SubmissionServices.WorkerRun` | worker-service/main.go:74-155 | a run of the worker's loop is a run of the joint system that leaves the database alone |
| `TokenBucket.SharedBucketBound` | central-service/utils/rate_limiter.go:34-77 | limiters sharing a bucket admit at most the largest burst plus the largest rate times the length of any interval, however they interleave |
| `TokenBucket.BoundIff` | central-service/utils/rate_limiter.go:44-71 | with expiry the bound holds for every run exactly when the time to live refills a whole burst |
| `TokenBucket.DeployedBound` | central-service/main.go:162-167 | the limiters as deployed: at most 150 plus 100 a second |
| `TokenBucket.RefillsExactly` | central-service/utils/rate_limiter.go:51-67 | the other direction: an emptied bucket left alone short of its expiry admits exactly rate times seconds at once, or the burst |
| `TokenBucket.TokensInRange` | central-service/utils/rate_limiter.go:51-67 | in every run, whatever the time to live and the clock, the stored tokens stay between 0 and the largest burst less one |
| `TokenBucket.ExpiryUnobservableIff` | central-service/utils/rate_limiter.go:51-71 | expiry changes no decision of any run of one limiter exactly when the time to live refills a whole burst |
| `TokenBucket.RateLimiters.Allow` | central-service/utils/rate_limiter.go:34-77 | the decision and the new bucket of one client, other clients untouched; an empty identifier is an error |
| `TokenBucket.RateLimiters.AllowRequest` | central-service/utils/rate_limiter.go:183-199 | the global and the endpoint limiter draw on one bucket, and a request denied by the second has spent a token of the first |
| `ConnectionPool.UsedSound` | rtc-service/utils/rate_limiter.go:29-54 | one use takes one token or none, gains at most the configured rate times the time passed, and keeps the tokens between 0 and the configured burst, over the reals |
| `ConnectionPool.LimiterBound` | rtc-service/utils/rate_limiter.go:29-54 | in every run, every interval admits at most the configured burst plus the configured requests per second times its length |
| `ConnectionPool.RefillsExactly` | rtc-service/utils/rate_limiter.go:33-54 | the other direction: an emptied limiter left alone admits exactly rate times seconds at once, rounded down, or the burst if that is less |
| `ConnectionPool.AtOnceExactly` | rtc-service/utils/rate_limiter.go:33-54 | any number of messages at one instant: exactly as many are admitted as there are whole tokens then |
| `ConnectionPool.SameDecisions` | rtc-service/utils/rate_limiter.go:130-168 | a pool with idle cleanup decides every message of every run as one without, if the burst is at most the rate times the longest idle time |
| `ConnectionPool.CleanupUnobservableIff` | rtc-service/utils/rate_limiter.go:151-168 | the cleanup is unobservable exactly under that condition |
| `ConnectionPool.WebSocketRateLimiter.Allow` | rtc-service/utils/rate_limiter.go:29-54 | refill by elapsed time times the configured rate, cap at the configured burst, and take a token if there is one |
| `ConnectionPool.ConnectionLimiter.Allow` | rtc-service/utils/rate_limiter.go:79-86 | also notes the activity |
| `ConnectionPool.Connections.GetOrCreateLimiter` | rtc-service/utils/rate_limiter.go:130-142 | an existing limiter is kept, a new one starts full, the others are untouched |
| `ConnectionPool.Connections.HandleMessage` | rtc-service/utils/rate_limiter.go:79-86 | a caller that fetches the limiter anew takes a step of the model |
| `ConnectionPool.Connections.RemoveLimiter` | rtc-service/utils/rate_limiter.go:144-149 | exactly one connection goes |
| `ConnectionPool.Connections.CleanupIdleConnections` | rtc-service/utils/rate_limiter.go:151-168 | exactly the connections idle for longer than allowed go |
| `SlidingLog.CleanupUnobservable` | server/src/middleware/logging.js:110-119 | the periodic cleanup never changes a decision in any run |
| `SlidingLog.WindowBound` | server/src/middleware/logging.js:121-153 | from any log that remembers a client's admissions, every interval (a, a + W] keeps the limit |
| `SlidingLog.NeverMoreThanLimit` | server/src/middleware/logging.js:106-155 | in every run, cleanups anywhere, at most the limit is admitted per client in every interval (a, a + W] |
| `SlidingLog.DecisionIff` | server/src/middleware/logging.js:131-148 | after any run a request is admitted exactly when fewer than the limit were admitted in the window behind it |
| `SlidingLog.RateLimit.Handle` | server/src/middleware/logging.js:121-153 | the handler takes the model's step and decision |
| `SlidingLog.RateLimit.Sweep` | server/src/middleware/logging.js:111-118 | the timer's loop takes the model's cleanup step |
| `FixedWindow.NeverExpiresEarly` | server/src/middleware/rate-limit.js:34-43 | in every run the counter read is the number of calls its window counted: it never expires inside its own window, even if EXPIRE fails |
| `FixedWindow.WindowCount` | server/src/middleware/rate-limit.js:40-49 | a window allows at most the burst, and without faults every call up to it |
| `FixedWindow.DecisionIff` | server/src/middleware/rate-limit.js:34-62 | in every run a failure lets a call through, and any other is denied exactly if its window has counted the whole burst |
| `FixedWindow.TwiceTheBurst` | server/src/middleware/rate-limit.js:30-62 | in every run every interval as long as a window allows at most twice the burst |
| `FixedWindow.RateLimiter.CheckLimit` | server/src/middleware/rate-limit.js:30-62 | the decision and counters of one client, other clients untouched; failures let the request through |
| `ProblemSet.NormalizeTags` | central-service/services/problem.go:138-148 | the loop returns the trimmed non-empty entries in order |
| `ProblemSet.NormalizedExactly` | central-service/services/problem.go:138-148 | an entry is kept exactly if it is the non-empty trimming of one given |
| `ProblemSet.PoolExactly` | central-service/services/problem.go:430-491 | the pool of a request is exactly the catalogue rows that are not premium if those are excluded, carry a requested tag, were asked by a requested company and are on a selected list; blank entries request nothing, and case and surrounding white space do not matter |
| `ProblemSet.FreshExactly` | central-service/services/problem.go:493-522 | recency keeps exactly those asked by a named company in the last six months, and everything if no company is named |
| `ProblemSet.PickByDifficulty` | central-service/services/problem.go:155-205 | each query returns min(requested, available) distinct problems of its difficulty, and none is chosen twice |
| `ProblemSet.FillUp` | central-service/services/problem.go:222-246 | the fallback keeps what was chosen and fills up with distinct problems as far as the pool goes |
| `ProblemSet.GenerateByDifficulty` | central-service/services/problem.go:155-274 | succeeds exactly when the pool filtered by paid, tags, companies and lists holds the requested total; then distinct problems of that pool, by difficulty, of the right number; the flag exactly for a shortfall; the error reports the pool's size; every problem selected meets the request in its own fields |
| `ProblemSet.SelectionSizes` | central-service/services/problem.go:207-274 | for non-negative requests: exactly the requested total, at least min(requested, available) of each difficulty, and no fallback exactly when every difficulty was met |
| `ProblemSet.GenerateAnyDifficulty` | central-service/services/problem.go:281-336 | the same without difficulties, recent problems first; every problem selected meets the request in its own fields |
| `ProblemSet.CountAvailable` | central-service/services/problem.go:345-364 | the number of problems passing all filters, recency included |
| `ProblemSet.CountedExactly` | central-service/services/problem.go:345-364 | what is counted, row by row: the conditions of the pool, the difficulties, and for recency a recent row of a named company |
| `ProblemSet.CountedIsEnough` | central-service/services/problem.go:338-364 | a count that covers the request means creation is not refused for lack of problems |
| `ProblemSet.CountDecides` | central-service/services/problem.go:338-364 | the count predicts creation both ways, for every request, exactly when every problem of the base pool is counted |
| `ProblemSet.CountCanRefuse` | central-service/services/problem.go:498-522 | a catalogue in which nothing is counted and yet a request is served |
| `ProblemSet.FindProblemsByIDs` | central-service/services/problem.go:401-428 | the loop returns the known ids at their first occurrence |
| `ProblemSet.OrderKept` | central-service/services/problem.go:398-428 | no duplicates, exactly the known ids asked for, in the order they were first asked for |
| `ProblemSet.SelectProblems` | central-service/services/round.go:96-138 | exactly when a new round finds its problems, and which, for hand-picked, any-difficulty and by-difficulty rounds |
| `Rooms.PointerRun` | central-service/services/room.go:356-407 | in every run a user's active-room pointer names an existing room the user is a member of |
| `Rooms.AdminStays` | central-service/services/room.go:276-331 | once a room's admin is a member, its admin is a member for as long as the room exists |
| `Rooms.AdminChanges` | central-service/services/room.go:278-331 | in every run, when a room's admin changes the old one just left, and the new one is the remaining member with the least join time, then id |
| `Rooms.TasksRun` | central-service/services/round.go:214-296 | in every run the pending expiry tasks are exactly those of existing rooms with a time to live the scheduler takes; a started round has its timer to come exactly if its participants could be inserted and its interval is positive |
| `Rooms.UntimedStays` | central-service/services/round.go:214-296 | a started round without a timer stays started in every run until the admin ends it or its room is deleted |
| `Rooms.NegativeDuration` | central-service/controllers/room.go:148-153 | a run with such a round: created for minus one minute |
| `Rooms.RoundLifecycle` | central-service/services/round.go:182-340 | from any reachable state on: status only moves created, started, ended; duration fixed from the start; problems never change and are not empty once started; a round lasts exactly as long as its room |
| `Rooms.RoundLimit` | central-service/services/room.go:525-534 | in every run a room's rounds that have not ended stay within the limit, those of failed generations included |
| `Rooms.ValidRun` | central-service/services/room.go:220-331 | every run keeps all the room and round invariants, from any valid state |
| `Rooms.FailureLeavesEmpty` | central-service/services/room.go:504-520 | exactly when creating a round leaves one without problems behind |
| `Rooms.StuckBehind` | central-service/services/room.go:536-560 | behind a round without problems, in every run, neither it nor any later round of its room ever leaves the created state |
| `Rooms.StartableIff` | central-service/services/room.go:536-560 | a created round starts in some continuation exactly if neither it nor an earlier created round of its room is without problems |
| `Rooms.SecondRoundFails` | central-service/services/room.go:504-520 | a run from the start that ends with a room blocked so |
| `Membership.MembersExactly` | central-service/services/room.go:356-407 | in every run a room holds exactly the users who joined it and have not left since, each with the moment of the last join |
| `Membership.SuccessorJoinedFirst` | central-service/services/room.go:450-463 | in every run the new admin is the remaining member whose last join is earliest, ties broken by id |
| `Membership.PointersExactly` | central-service/services/room.go:356-448 | in every run a user points to the room last joined, until leaving any room or being in one that is deleted |
| `Membership.RoomsExactly` | central-service/services/room.go:55-179 | in every run a step makes a room exactly for a name of 4 to 31 characters, and deletes one exactly when the last member leaves, its time is up or its first round fails; nothing of it is left |
| `Membership.RoundsExactly` | central-service/services/room.go:536-744 | in every run a round changes only when the admin starts the oldest created one, sets its length to 5 to 120 minutes or ends the oldest started one, or when its timer fires |
| `Membership.RoundsAdded` | central-service/services/room.go:488-534 | in every run a round is added exactly below the limit and, unless it is the first, even if no problems were chosen; it is what was asked for |
| `Membership.AnswersExactly` | central-service/services/room.go:536-744 | which round requests are answered not found, unauthorized, bad request, failed or done |
| `Membership.OrdinaryIntervals` | central-service/services/round.go:246-296 | for all minutes whose nanoseconds fit 64 bits: a round has a timer exactly if not negative, a room expires exactly if positive |
| `RoomServices.RoomService.CreateRoom` | central-service/services/room.go:55-94 | name length checked, expiry scheduled for a positive time to live |
| `RoomServices.RoomService.AddJoinMember` | central-service/services/room.go:358-384 | the moment of joining and the pointer are stored, even for a member, who then gets an error |
| `RoomServices.RoomService.RemoveJoinMember` | central-service/services/room.go:386-407 | the pointer goes even if the user was no member |
| `RoomServices.RoomService.DeleteJoinMembers` | central-service/services/room.go:433-446 | the join times go, and the pointers of exactly the members |
| `RoomServices.RoomService.CancelRoomExpiry` | central-service/services/room.go:97-102 | the expiry task and its entry go together |
| `RoomServices.RoomService.DeleteRoom` | central-service/services/room.go:143-179 | members, pointers, the room and exactly its rounds go |
| `RoomServices.RoomService.JoinRoom` | central-service/services/room.go:220-274 | membership effects and answer of a join |
| `RoomServices.RoomService.FindRightfulRoomAdmin` | central-service/services/room.go:450-463 | the search returns the least member by join time, then id, and an error for an empty room |
| `RoomServices.RoomService.LeaveRoom` | central-service/services/room.go:278-331 | leave, delete the empty room, hand over the admin role |
| `RoomServices.RoomService.ExpireRoom` | central-service/services/room.go:105-138 | the expiry task deletes the room once |
| `RoomServices.RoomService.CreateRound` | central-service/services/room.go:488-523 | limit first, row second, problems third; within the limit it succeeds exactly when problems are found |
| `RoomServices.RoomService.FindRound` | central-service/services/room.go:546-552 | the loop finds the first of the room's rounds with a status |
| `RoomServices.RoomService.StartRound` | central-service/services/room.go:536-586 | only the admin, only the first created round, only with problems; it may fail after the round is marked started, and then no timer is set |
| `RoomServices.RoomService.SetRoundDuration` | central-service/services/room.go:589-608 | only the admin, only before the start, 5 to 120 minutes |
| `RoomServices.RoomService.EndRound` | central-service/services/room.go:715-744 | only the admin; ends the first started round, and is accepted without one |
| `RoomServices.RoomService.RoundTimer` | central-service/services/round.go:246-300 | the timer ends its round if it still exists |
| `ChatRooms.HistoryIsLast` | rtc-service/chatmanager/room.go:110-120 | in every run a room's history is exactly the last hundred, or all, of what was stored since the room was made |
| `ChatRooms.NoControlEvents` | rtc-service/servicesmanager/service.go:120-137 | in every run nothing stored is a round start or a next problem |
| `ChatRooms.JoinReplays` | rtc-service/servicesmanager/service.go:95-112 | in every run a join is sent exactly the replayable ones of those messages, in order, and not its own announcement |
| `ChatRooms.ReplayExactly` | rtc-service/servicesmanager/service.go:104-109 | a replay holds each chat message, announcement, round join, join and leave as often as the history, and nothing else |
| `ChatRooms.ReplayInOrder` | rtc-service/servicesmanager/service.go:113-120 | what was stored first is replayed first |
| `ChatRooms.AnnouncedJoins` | rtc-service/requests/join-room-request.go:72-112 | in every run, since the room was made, a user's entries are the leaves plus one if present, and announced joins are no more, so reconnects announce nothing |
| `ChatRooms.NobodyAlone` | rtc-service/requests/leave-room-request.go:58-73 | after every request the registered rooms are not empty |
| `ChatRooms.FilterIsCentral` | rtc-service/requests/join-room-request.go:85-87 | in every run a room's profanity filter is on exactly if the central service asked for it since the room was made and has not taken it back |
| `ChatReplies.AddedExactly` | rtc-service/servicesmanager/service.go:101-136 | what each request leaves in a room's history, text included, and when it leaves nothing |
| `ChatReplies.HeardExactly` | rtc-service/servicesmanager/service.go:125-159 | who hears a reply: everybody in the room for control events and replies that say something, nobody for silent or failed ones |
| `ChatReplies.AcceptedIff` | rtc-service/requests/chat-message-request.go:47-87 | a chat message is accepted exactly if its fields are filled in, the room exists, the sender is in it and the filter is off or the message clean |
| `ChatReplies.RecordedCleanly` | rtc-service/requests/chat-message-request.go:60-75 | in every run every chat message ever stored was sent by somebody then in the room, and is clean if the central service then wanted the filter |
| `ChatReplies.RoomsExactly` | rtc-service/requests/leave-room-request.go:58-73 | a room is made by a complete join, and goes exactly when its last user leaves or it is expired |
| `ChatReplies.UsersExactly` | rtc-service/requests/join-room-request.go:85-94 | in every run a room's users are exactly those who joined and have not left since |
| `ChatReplies.RoundExactly` | rtc-service/chatmanager/round.go:32-103 | in every run a room's round is the last one started, with those who joined since, over once ended |
| `ChatServices.ChatManager.DistinctIDs` | rtc-service/chatmanager/manager.go:23-36 | no two registered rooms have the same id |
| `ChatServices.ChatManager.GetRoom` | rtc-service/chatmanager/manager.go:38-49 | the loop finds the registered room with the id, or there is none |
| `ChatServices.ChatManager.CreateRoom` | rtc-service/chatmanager/manager.go:23-36 | exactly the new room is added, and ids stay distinct exactly if it brings a new one |
| `ChatServices.ChatManager.RemoveRoom` | rtc-service/chatmanager/manager.go:53-70 | exactly the room goes, unless it has users or is not registered |
| `ChatServices.ChatRoom.AddMessage` | rtc-service/chatmanager/room.go:110-120 | append and trim |
| `ChatServices.ChatRoom.ReplayMessages` | rtc-service/servicesmanager/service.go:98-109 | the loop sends the replayable messages in order |
| `ChatServices.ChatRoom.JoinRound` | rtc-service/chatmanager/round.go:67-89 | joining twice changes nothing, and the round's shape is returned |
| `ChatServices.Service.HandleJoinRoom` | rtc-service/requests/join-room-request.go:59-113 | makes the room, sets the filter, adds the user, and is silent for a rejoin |
| `ChatServices.Service.HandleLeaveRoom` | rtc-service/requests/leave-room-request.go:45-80 | removes the user and the empty room, or fails without effect |
| `ChatServices.Service.HandleChatMessage` | rtc-service/requests/chat-message-request.go:47-87 | the message is accepted exactly from a user of the room, unless the filter is on and it is profane |
| `ChatServices.Service.HandleRoundStart` | rtc-service/requests/round-start-request.go:53-87 | the round starts and its announcement is stored |
| `ChatServices.Service.HandleMessage` | rtc-service/requests/message.go:21-35 | every request type is handled as the model says, and an error changes nothing |
| `ChatServices.Service.PublishReply` | rtc-service/servicesmanager/service.go:114-171 | what is stored, who hears it, and the teardown on expiry |
| `ChatServices.Service.ReadMessage` | rtc-service/servicesmanager/service.go:64-179 | one turn of the read loop takes exactly the model's step, so the theorems about runs hold of it |
| `Profanity.Contains` | rtc-service/profanity/profanity.go:22-46 | the nested loops report exactly what the skipping search finds for some non-empty term |
| `Profanity.FindsOnlyMentions` | rtc-service/profanity/profanity.go:30-43 | the search never reports anything but a whole-word occurrence |
| `Profanity.WordMentionedIff` | rtc-service/profanity/profanity.go:47-64 | what a whole word is: for a term of letters and digits at both ends, an occurrence with none next to it |
| `Profanity.PhraseMentionedIff` | rtc-service/profanity/profanity.go:47-64 | for a term with neither at its ends, any occurrence |
| `Profanity.TermExactly` | rtc-service/profanity/profanity.go:22-28 | a term is its entry in lower case without the white space around it |
| `Profanity.SearchExactIff` | rtc-service/profanity/profanity.go:30-64 | it answers like testing every position, on every text, exactly for terms without a bad shift |
| `Profanity.WordsAreSkippable` | rtc-service/profanity/profanity.go:66-68 | terms of letters and digits have none |
| `Profanity.ReportsMentions` | rtc-service/profanity/profanity.go:19-46 | over any list a report names a whole word; with no bad shift in the list every mention is reported |
| `Profanity.FilterExactIff` | rtc-service/profanity/profanity.go:19-46 | a filter of one word reports exactly the messages that mention it, on every message, exactly when its term has no bad shift |
| `Profanity.PhraseMissed` | rtc-service/profanity/profanity.go:40-43 | a phrase standing in a text that the search steps over |
| `ProblemCount.SameKeyIff` | bsg-frontend/apps/extension/stores/useProblemCountStore.ts:17-29 | for non-empty names without comma and bar, keys are equal exactly when difficulties and flags are equal and the lists are permutations |
| `ProblemCount.SharedKeyIff` | bsg-frontend/apps/extension/stores/useProblemCountStore.ts:17-29 | for any names without a bar, keys are equal exactly when difficulties and flags are and the sorted lists fall into the same pieces at their commas |
| `ProblemCount.CommaCollides` | bsg-frontend/apps/extension/stores/useProblemCountStore.ts:18-19 | a name with a comma shares its key with its pieces |
| `ProblemCount.ParameterRoundTrip` | central-service/controllers/problem.go:110-131 | the server splits out of the query exactly the names that were joined into it |
| `ProblemCount.SortedIff` | bsg-frontend/apps/extension/stores/useProblemCountStore.ts:18-19 | sorting forgets the order and nothing else |
| `ProblemCount.SameKeySameAnswer` | central-service/services/problem.go:345-364 | the server counts the same for choices with the same key |
| `ProblemCount.ShownCountServes` | bsg-frontend/apps/extension/hooks/useRoomChoice.ts:152-157 | a shown count that covers the request means the round will find its problems |
| `ProblemCount.ProblemCountStore.AvailableCount` | bsg-frontend/apps/extension/hooks/useRoomChoice.ts:177-245 | over an unchanging catalogue the count shown, cached or not, is the one the server would answer |
| `RoomEvents.TouchedExactly` | bsg-frontend/extension/background.js:69-100 | whatever is reported and replayed, the stored list is the slugs reported since the last reset with a different key, each once, in order |
| `RoomEvents.DedupedExactly` | bsg-frontend/extension/background.js:74-78 | the list has no duplicates and exactly the reported slugs |
| `RoomEvents.Background.MarkProblemTouched` | bsg-frontend/extension/background.js:69-82 | once the chain has run the slug is in the list, which keeps its order, and nothing else is new |
| `RoomEvents.Background.ResetTouchedProblems` | bsg-frontend/extension/background.js:84-100 | once the chain has run the list is empty, or untouched if the key is the one stored |
| `RoomEvents.Background.RunNext` | bsg-frontend/extension/background.js:72-99 | one mutation runs to its end before the next, and is given up if storage fails |
| `RoomEvents.Background.Drain` | bsg-frontend/extension/background.js:67-100 | the whole chain runs in the order requested |
| `RoomEvents.ParseInvertsIff` | bsg-frontend/apps/extension/hooks/useRoomEvents.ts:10-15 | parsing inverts the problem's address exactly for non-empty slugs without `/`, `?` and `#` |
| `RoomEvents.ParseOfUrl` | bsg-frontend/apps/extension/hooks/useRoomEvents.ts:10-15 | it does so whatever the site appends to the address |
| `RoomEvents.ParseExactly` | bsg-frontend/apps/extension/hooks/useRoomEvents.ts:10-13 | on every text: the slug is that of the first address in it, up to a slash, question mark, hash or the end, and none is found exactly without an address |
| `RoomEvents.AtMostOnceIff` | bsg-frontend/apps/extension/hooks/useRoomEvents.ts:17-54 | from every page any number of repeats of one event navigates at most once exactly if its own address keeps it there |
| `RoomEvents.SettlesIff` | bsg-frontend/apps/extension/hooks/useRoomEvents.ts:17-30 | which events those are, in terms of their slugs |
| `RoomEvents.ResumeNavigatesIff` | bsg-frontend/apps/extension/hooks/useRoomEvents.ts:17-28 | a resumed round moves exactly a page of leetcode.com that is not of one of its problems, to the first of them |
| `RoomEvents.NextNavigatesIff` | bsg-frontend/apps/extension/hooks/useRoomEvents.ts:38-54 | a move to a problem moves exactly the pages that are not its own |
| `RoomEvents.ResumeKeepsStep` | bsg-frontend/apps/extension/hooks/useRoomEvents.ts:17-25 | a replayed start does not undo a step to another problem of the round |
| `RoomEvents.Browser.NavigateActiveTab` | bsg-frontend/apps/extension/hooks/useRoomEvents.ts:40-54 | the tab changes exactly when the model navigates, to the target's address |
| `RoomEvents.Browser.Replay` | bsg-frontend/apps/extension/hooks/useRoomEvents.ts:32-54 | replaying an event navigates as often as the model says |

## Left out

- Controllers, proxy routes, sign-in, JSON encoding, loggers and field validators other than the checks named above.
- Redis, Postgres, GORM and WebSocket themselves: a command or query is one step with the effect the code relies on; retries inside the client libraries are not modelled.
- True concurrency inside one handler, such as two joins between the lookup and the creation of a chat room: a request, timer or Redis command is one atomic step. Crashes between commands are modelled for the queues only; a room request either runs to its end or not at all, but for a round start, which may fail halfway.
- Short codes, room names in the database, and reading leaderboards back with user names.
- One joint state of rooms and scoring: a round of the scoring model is a round once started, and a deleted room is the deletion of its rounds.
- User records of chat rooms: a room's users are their handles, and the pointer back to the room is dropped. Error texts are dropped as well.
- The rows of round participants in the room model: whether they can be inserted when a round starts is a parameter, and what a late joiner's row does is in the scoring model.
- Participants' solved counts, and edits to problems after seeding.
- Rows of one submission table without their partner, which only a failed insert between the two could leave.
- Auth ids shorter than eight characters, which the code slices without a check: submitting requires longer ones.
- `CalculateScore`, which uses real exponentials and is not called by the pipeline.
- Float rounding beyond 2^53 other than in the packed score, where it is written out.
- Refunds of the fixed-window limiter (`skipSuccessfulRequests`, `skipFailedRequests`).
- `LIKE` wildcards inside tag names, and companies or tags compared by more than lower case.
- The order in which the database returns a room's rounds: by id, as the code assumes.
- Delivery of messages to sockets: the model says what is sent and who is addressed. Matching replies to requests in central-service is not modelled either.
- Which choices share a cache key when a name holds a bar: `ProblemCount.SharedKeyIff` covers all others.
- The contents of the profanity list and of the catalogue.
- Panel layout, React components, and hooks that only fetch.
- ConnectionPool.Connections.CleanupIdleConnections: the loop builds the map that stays and stores it once, where the code deletes from the map while it ranges over it.
