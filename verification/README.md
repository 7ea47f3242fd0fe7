# Verified model of the scraping platform's stateful core

Dafny proofs about the parts of the platform where several steps, calls or
processes have to fit together:

- **Comment mirror** (`CommentModel`, `CommentSync`, `CommentSafety`,
  `CommentRuns`, `CommentTheorems`, `CommentProgress`, `CommentRefinement`,
  `CommentThreads`, `CommentOutcome`):
  the nested, resumable, capped walks of `comment_sync.py` over a remote
  two-level comment tree. The remote is a sequence of pages, the network is an
  arbitrary set of failing request and commit positions, and every sync leaves
  a log of what it committed. The log determines every table that was ever
  visible, so safety is an invariant of one logged step.
- **Leases and jobs** (`LeaseModel`, `LeaseSafety`, `LeaseRecovery`,
  `LeaseTables`): account leases, job rows, heartbeats, reapers, retries,
  cancels and crashes as one state machine whose events interleave freely. Who
  holds an account is recorded in no table (`locked_by` names a worker
  process, and neither renewal nor release looks at it), so the runs of
  `process` in progress are part of the state.
- **Feed walk** (`FeedModel`, `FeedScrape`, `FeedTheorems`): the pagination
  loop of `JobProcessor._run_scrape` with its cutoff, pinned posts, durable
  cursor, cancels, failing fetches and deaths between commits, over a series
  of runs between which the feed gains posts.
- **Token bucket** (`TokenBucket`): the rate limiter in exact arithmetic.
- **Analytics series** (`Interpolation`, `ViewsSeries`, `Milestones`,
  `Median`, `Outliers`): gap filling, forward-filled totals, milestone
  scanning, and rolling-median scores on a short window.
- **Key pool and metric rows** (`KeyPool`, `KeyRotation`, `MetricRows`): quota
  bookkeeping and key rotation while other jobs use the same pool, and two
  writers of one row.

Code that changes state in place is a class or a method with loops, proved
equal to (or against) a function of the old state; the theorems are lemmas
about those functions. `dafny verify dfyconfig.toml` checks everything.

## What the proofs found

- **A reply walk that was cut short is not taken up again.** The new reply
  count is stored before the thread is walked, so while the count stays the
  same no later sync touches the thread (`UnmovedCountFreezesThread`,
  `ManySyncsFreezeThread`). The sync that first stores a comment decides: the
  thread is ever complete if and only if the reply pages that sync read hold
  all of it (`FirstSyncDecidesThread`), which for an undisturbed sync means
  that the first twenty pages do (`UndisturbedThreadIff`). One failing reply
  request (`FailedRequestLosesThread`) or a twenty-first page
  (`TwentyOnePagesAreCut`) is enough to lose replies. Where no walk that was
  due is cut, diffing loses nothing, whatever else fails
  (`DiffingRefinesRewalking`).
- **Posts over fifty top-level pages are never tombstoned.** On an undisturbed
  post the top-level deletion runs exactly when the sync started without a
  cursor and the post has at most fifty pages (`TombstonesIff`).
- **Reactivation is unguarded.** `reactivate` writes whatever the account is
  doing by then. It keeps exclusion exactly when nobody holds the account
  (`ReactivationIsSafeIff`); otherwise two jobs can come to hold it
  (`ReactivationSharesHeldAccount`). A guard on the row, "not in use", would
  do (`ReactivationIsSafeByRow`), and no weaker one (`RowGuardIsTight`).
  Likewise the lease reaper keeps exclusion exactly while no held lease has
  run out (`ReapIsSafeIff`, `ExpiredLeaseIsShared`). Both conditions are
  assumptions of the exclusion theorem, as the predicate `Timely`.
- **The reaper tests the retry count before it counts, the worker after.** A
  dead job is therefore handed out once with the limit already reached, and a
  count of `SCRAPER_MAX_RETRIES + 1` can be stored (`ReaperHandsOutOnceMore`,
  `FailureAtTheLimit`).
- **Rate limits count towards disabling.** Only an error disables an account,
  as the comment in `release` says, but the streak of five that it ends may
  consist of rate limits (`DisabledIff`, `RateLimitsCount`).
- **A backfill whose feed ends in an empty page never completes.** The loop
  leaves without setting the flag and every later run does the same
  (`BackfillCompletesIff`, `StuckOnEmptyPage`).
- **A completed backfill may miss posts published while it was under way.**
  A run that resumes from its cursor never looks above it, and sets
  `backfill_completed` all the same (`CompletedWithoutTheNewPost`). Completion
  covers the feed of that day exactly if nothing eligible was missing before
  the cursor (`CompletionIff`); it always covers the posts there were when the
  backfill began, and the first steady run that ends by its own rule stores
  the rest (`AnyRunsBackfill`).
- **A steady-state run cut short can leave a lasting gap**
  (`CutRunLeavesAGap`): posts at or beyond the first known, unpinned post
  outside the comment window are out of reach (`BeyondTheStop`). The exact
  condition is that a post it looked at, and that the window leaves out, lies
  above a missing one it did not get to (`CutRunKeepsSettledIff`).
- **The retry tick overwrites a cancel.** It writes "queued" to every job it
  read as pending, also if the job was cancelled since; the machine has that
  step, and the theorems hold with it.
- **`_strip_phantom_zero_lead` removes at most one zero**, although its comment
  speaks of "zero(s)": a lead of two or more zeros survives whole, and then
  every threshold up to the first real value fires on one day
  (`PhantomSurvivesIff`, `TwoZerosAreKept`, `PhantomFlood`).
- **Two promises hold more widely than stated.** Milestones fire correctly on
  any series, negative values included, and a Graph and an enrichment write
  commute even when neither finds a row.

## Model

| member | source | states |
|---|---|---|
| CommentSync.SyncCommentsForPost | app/workers/comment_sync.py:330-407 | the imperative walk computes exactly `Sync`: table, log, post columns, total and whether it raised, for every remote, failure pattern, cursor and cap |
| CommentSync.SyncRepliesOf | app/workers/comment_sync.py:280-327 | the imperative reply walk computes exactly `SyncReplies` |
| CommentSync.SyncChangedThreads | app/workers/comment_sync.py:386-391 | of one page's comments, exactly those with replies and a changed count are walked, in order, until one raises |
| CommentSync.CloseSync | app/workers/comment_sync.py:402-407 | cursor, tombstoning and stored count at the end of a sync are those of `Close` |
| CommentOutcome.SyncIsAccounted | app/workers/comment_sync.py:355-407 | main: for every failure pattern, cap and cursor: pages are read in order; a sync is cut only by fifty pages or a full post and then saves the first page not read, else clears the cursor; it returns the number of comments read; the synced count is what the table then holds; a failing sync leaves the columns alone, and it fails exactly where the network does |
| CommentOutcome.ThreadWalkShape | app/workers/comment_sync.py:300-327 | a reply walk reads pages from the first on, is cut only by twenty pages or a full post, sweeps if and only if it got to the end, and returns the number of replies read |
| CommentOutcome.SyncedIsHeldAtLastClose | app/workers/comment_sync.py:199-204 | over any series of syncs the synced column is the number of comments held at the last closing commit |
| CommentOutcome.SyncSigns | app/workers/comment_sync.py:56-73 | a comment stored for the first time has the remote's author, one stored before keeps the author it had |
| CommentSync.CommentTable.DeleteMissingComments | app/workers/comment_sync.py:130-163 | unseen rows under the parent go, together with their replies when the parent is the post |
| CommentSafety.UpsertEffect | app/workers/comment_sync.py:99-113 | an upsert of distinct comments adds exactly their ids, writes each one's content and leaves every other row as it was |
| CommentSafety.StepKeeps | app/workers/comment_sync.py:130-163 | no committed step deletes a row still on the remote or leaves a reply without its parent |
| CommentSafety.ReplayKeeps | app/workers/comment_sync.py:280-407 | the same for every sequence of enabled steps |
| CommentRuns.SyncRun | app/workers/comment_sync.py:330-407 | every sync, however it ends, is a sequence of enabled steps whose replay gives its table |
| CommentTheorems.SyncIsSafe | app/workers/comment_sync.py:130-163 | main: with a fixed remote, at every commit of any sync (fresh, resumed, cut, capped, failing) nothing on the remote is lost and no stored reply lacks its stored parent |
| CommentTheorems.FreshSyncMirrorsTop | app/workers/comment_sync.py:403-405 | main: a fresh sync that ends by itself leaves exactly the remote's top-level ids, each with the remote's content |
| CommentTheorems.WalkedThreadIsExact | app/workers/comment_sync.py:324-326 | main: every thread walked to its end in a sync is, after the sync, exactly the remote thread |
| CommentTheorems.CapHoldsAtEveryCommit | app/workers/comment_sync.py:305-307 | main: with cap M and pages of at most K comments the post's stored count never exceeds max(initial, M - 1 + K), at every commit of both nested walks |
| CommentTheorems.ManySyncsStaySafe | app/workers/comment_sync.py:369-372 | main: the same, with the cap bound, at every commit of every sync of any series, each failing or cut where it may |
| CommentTheorems.StepMirrors | app/workers/comment_sync.py:56-73 | content once mirrored stays mirrored under every later step |
| CommentProgress.CalmSync | app/workers/comment_sync.py:363-402 | an undisturbed sync reads the pages from its cursor on, at most fifty, once each and in order, and saves the first unread page exactly when one is left |
| CommentProgress.TombstonesIff | app/workers/comment_sync.py:403-404 | top-level tombstoning runs if and only if there was no cursor and there are at most fifty pages |
| CommentProgress.CallsResume | app/workers/comment_sync.py:359-361 | k successive syncs read the first 50k pages from the cursor and save where to go on |
| CommentProgress.RepeatedSyncsFinish | app/workers/comment_sync.py:334-343 | main: repeated syncs of a fixed post read each of its P pages exactly once in exactly ceil(P/50) calls, then every top-level comment is stored and the cursor is clear |
| CommentRefinement.SyncsAgree | app/workers/comment_sync.py:116-127 | two syncs from a mirror state, with whatever failures and caps, that cut no due reply walk and stop at the same point leave the same table, cursor and count, whichever threads they chose to walk |
| CommentRefinement.DiffingRefinesRewalking | app/workers/comment_sync.py:379-391 | main: over any series of growing remotes, with failing top-level requests, failing commits and caps, diffing syncs store exactly what syncs that walk every thread and stop at the same points store, and stored replies stay the first n of their thread |
| CommentRefinement.CalmIsUncut | app/workers/comment_sync.py:299-320 | without cap or failure, and with threads of at most twenty pages, no sync cuts a walk short |
| CommentThreads.UnmovedCountFreezesThread | app/workers/comment_sync.py:386-391 | whatever happens during a sync, a thread whose stored count equals the remote's is left as it is |
| CommentThreads.ManySyncsFreezeThread | app/workers/comment_sync.py:386-391 | the same over any number of syncs of any kind |
| CommentThreads.FirstSyncDecidesThread | app/workers/comment_sync.py:379-391 | main: after the sync that first stores a comment, and any syncs after it, exactly the replies on the pages that sync read are stored, and the thread is complete if and only if those are all |
| CommentThreads.UndisturbedThreadIff | app/workers/comment_sync.py:299-322 | main: if that sync was undisturbed, the thread is complete if and only if its first twenty pages hold all of it (nothing is read of a comment that claims no replies) |
| CommentThreads.LongThreadStaysIncomplete | app/workers/comment_sync.py:299-322 | a reply on the twenty-first page is never stored while the count stays |
| CommentThreads.TwentyOnePagesAreCut | app/workers/comment_sync.py:299-322 | a concrete remote on which this happens |
| CommentThreads.FailedRequestLosesThread | app/workers/comment_sync.py:379-391 | a concrete remote and one failing reply request after which the count is stored and the reply never is |
| LeaseSafety.OneHolderAlways | app/repositories/instagram_account_repo.py:247-375 | main: in every reachable state an account has at most one holding run, and is then in use with an unexpired lease, over all interleavings in which live holders beat within the timeout |
| LeaseSafety.OneWorkerAlways | app/workers/job_processor.py:52-72 | main: no job has two workers, a job being worked on has no message, and no job has two messages |
| LeaseSafety.StepInv | app/workers/job_processor.py:52-216 | every event keeps the joint invariant of holders, workers, messages, clocks and counts |
| LeaseSafety.HoldersSurviveReaper | app/repositories/instagram_account_repo.py:364-375 | the lease reaper frees no account whose holder beat in time |
| LeaseSafety.WorkersSurviveReaper | app/repositories/scrape_job_repo.py:99-127 | the job reaper takes no job whose worker beat in time |
| LeaseSafety.HoldersBeat | app/repositories/instagram_account_repo.py:284-299 | a renewal, even late and from a run that let go, breaks no exclusion |
| LeaseSafety.ReactivationIsSafeIff | app/repositories/instagram_account_repo.py:211-222 | reactivating keeps exclusion if and only if nobody holds the account |
| LeaseSafety.ReactivationIsSafeByRow | app/repositories/instagram_account_repo.py:211-222 | on a row that is not in use it always keeps exclusion |
| LeaseSafety.RowGuardIsTight | app/repositories/instagram_account_repo.py:211-222 | for every row in use on a lease some state has a holder whom it would cost the account |
| LeaseSafety.ReactivationSharesHeldAccount | app/workers/account_revalidator.py:27-58 | otherwise a waiting run can come to hold the same account |
| LeaseSafety.ReapIsSafeIff | app/repositories/instagram_account_repo.py:364-375 | a reaper run keeps exclusion if and only if no held lease has run out |
| LeaseSafety.ExpiredLeaseIsShared | app/workers/job_processor.py:249-267 | a holder whose lease ran out shares its account after the next reap |
| LeaseRecovery.LeaseFollowsBeats | app/repositories/instagram_account_repo.py:284-299 | in every run an account in use has a lease of exactly one timeout from its last acquisition or heartbeat, by whichever run |
| LeaseRecovery.OrphanIsFreed | app/repositories/instagram_account_repo.py:364-375 | main: in any run in which the holder of an account dies, once the timeout has passed since the account's last heartbeat a reaper has freed it or the next one leaves it active and unlocked, whatever happens in between |
| LeaseRecovery.SignFollowsBeats | app/repositories/scrape_job_repo.py:79-97 | in every run a running job's last sign of life is its last pickup or heartbeat |
| LeaseRecovery.StrandedIsReaped | app/repositories/scrape_job_repo.py:99-127 | main: in any run in which the worker of a job dies, once the timeout has passed since the job's last sign of life a reaper has taken it or the next one does, counting once, with the status the count calls for |
| LeaseRecovery.CountsAddUp | app/workers/job_processor.py:182-198 | a job's retry count is its old count plus the failures and reaps since; no-account cycles and retries add nothing |
| LeaseRecovery.AttemptsAreBounded | app/repositories/scrape_job_repo.py:113-124 | main: counted attempts never exceed `SCRAPER_MAX_RETRIES + 1` over any run, and a count above the limit means failed |
| LeaseRecovery.RetriesWithoutReaps | app/workers/job_processor.py:182-198 | without reaps a count never exceeds `SCRAPER_MAX_RETRIES`, and stays below it until the job fails |
| LeaseRecovery.ReaperHandsOutOnceMore | app/repositories/scrape_job_repo.py:113-124 | a job reaped one short of the limit is picked up again with the limit already counted |
| LeaseRecovery.FailureAtTheLimit | app/workers/job_processor.py:182-198 | its next failure stores the limit plus one, as failed |
| LeaseRecovery.FailuresAreTheStreak | app/repositories/instagram_account_repo.py:314-337 | over any series of leases the failure count is the number of uses since the last success |
| LeaseRecovery.FailuresFollowRuns | app/workers/job_processor.py:182-208 | main: over any run of the machine an account's failure count is the number of runs that released it after a failure since the last that released it after none, or since it was reactivated |
| LeaseRecovery.DisabledIff | app/repositories/instagram_account_repo.py:350-355 | an account ends up disabled if and only if its last use was an error that ended a streak of at least five failures of any kind |
| LeaseRecovery.RateLimitsCount | app/repositories/instagram_account_repo.py:339-349 | rate limits alone never disable, but an error after four of them does |
| LeaseTables.AccountTable.AcquireHealthyAccount | app/repositories/instagram_account_repo.py:247-282 | takes a least recently used eligible account (never used first) among those no other transaction has locked, and writes its lease; nothing is returned if and only if there is none |
| LeaseTables.AccountTable.RenewLease | app/repositories/instagram_account_repo.py:284-299 | from then on the row is stale, if in use, exactly after a full timeout, whatever its status or owner; nothing else changes |
| LeaseTables.AccountTable.Release | app/repositories/instagram_account_repo.py:301-362 | outcome by outcome: the lease is cleared, the failure count cleared or raised, the cooldown set only by a rate limit (sixty seconds by default), checkpoint and disabled exactly for a block and a fifth error |
| LeaseTables.AvailableAgain | app/repositories/instagram_account_repo.py:314-355 | after a release the account can be had again exactly if it was neither blocked nor disabled, from the end of its cooldown on |
| LeaseTables.AccountTable.ReleaseStaleLeases | app/repositories/instagram_account_repo.py:364-375 | afterwards no lease is stale; exactly the rows that had one changed, and are free with their history kept; the count is theirs |
| LeaseTables.AccountTable.Reactivate | app/repositories/instagram_account_repo.py:211-222 | from the end of its cooldown on the account can be acquired, whatever lease or holder it had; nothing else but the failure count changes |
| LeaseTables.JobTable.Heartbeat | app/repositories/scrape_job_repo.py:79-97 | from then on the job is dead, if running, exactly after a full timeout; reports a requested cancel; nothing else changes |
| LeaseTables.JobTable.ReapStaleRunning | app/repositories/scrape_job_repo.py:99-127 | afterwards no running job is dead; exactly the rows of dead jobs changed, with one more retry, failed if that is beyond the limit and else pending; the count is theirs |
| LeaseTables.JobTable.RequestCancel | app/repositories/scrape_job_repo.py:146-162 | cancels a waiting job, flags a running one, refuses a finished one |
| LeaseTables.JobTable.RetryFailedScrapes | app/scheduler/runner.py:85-128 | requeues exactly the listed jobs of active influencers, one message each, in order, whatever became of them since they were listed |
| LeaseTables.DispatchedAre | app/scheduler/runner.py:102-127 | what is enqueued is the list without the jobs of inactive influencers: nothing else, nothing twice, nothing out of order |
| LeaseTables.Process | app/workers/job_processor.py:52-216 | one run's whole effect on both tables, row by row: job missing, no account to be had, or the status and count the outcome calls for; a run that did not fail leaves its account active, unlocked, without failures and its cooldown as it was, one that failed adds one failure of its kind |
| LeaseTables.ProcessIsItsEvents | app/workers/job_processor.py:52-216 | that effect is the machine's Pickup, Acquire, Finish, Release in a row |
| FeedScrape.ScanPage | app/workers/job_processor.py:436-522 | stores the page's new posts up to the first stopping item, in order |
| FeedScrape.RunFeed | app/workers/job_processor.py:358-541 | the loop computes exactly `Scrape`: rows, backfill columns, how it ended and the count |
| FeedTheorems.RunCounts | app/workers/job_processor.py:395-417 | the posts a run reports are the rows it added; it fails only if it added none and passes over a failing fetch only if it added some |
| FeedTheorems.NothingTooOldIsStored | app/workers/job_processor.py:439-445 | every post a run adds is pinned or not older than scrape_posts_since |
| FeedTheorems.InterruptedBackfill | app/workers/job_processor.py:524-538 | a backfilling run cancelled or failing in round m has stored all of the m pages before and saved the page it did not get to |
| FeedTheorems.WindowIsRewalked | app/workers/job_processor.py:447-474 | a steady run that ends by its own rule has every eligible, unpinned post inside the comment window stored, whatever gaps there were |
| FeedTheorems.NothingPastAnEnd | app/workers/job_processor.py:456-474 | past a stored, unpinned post outside the window, or an unpinned one too old, no steady run stores anything |
| FeedTheorems.RunKeepsBackfill | app/workers/job_processor.py:524-538 | one backfilling run, however it ends, and one steady run that ends by its own rule keep the invariant: rows are unique, every post of the base before the saved cursor has one, nothing is missing below a stored post before the cursor, and completion covers the base |
| FeedTheorems.GrowthKeepsBackfill | app/workers/job_processor.py:370-371 | posts published between two runs, the cursor staying with its place, keep it too |
| FeedTheorems.AnyRunsBackfill | app/workers/job_processor.py:370-538 | main: over any series of runs on a growing feed, cut short where they may be while they backfill, the invariant holds, and every steady run leaves nothing eligible out, posts published during the backfill included |
| FeedTheorems.CompletionIff | app/workers/job_processor.py:528-533 | a completing run covers the feed it saw if and only if nothing eligible was missing before its cursor |
| FeedTheorems.CompletedWithoutTheNewPost | app/workers/job_processor.py:528-538 | a concrete feed, an interrupted run and a new post after which the backfill completes without it |
| FeedTheorems.BackfillCompletesIff | app/workers/job_processor.py:427-533 | an undisturbed backfill completes if and only if a too-old post comes up or the last page is not empty |
| FeedTheorems.StuckOnEmptyPage | app/workers/job_processor.py:427-428 | a backfill whose cursor points at an empty page changes nothing, ever |
| FeedTheorems.SteadyRunMissesNothing | app/workers/job_processor.py:436-484 | main: in a settled table a run that ends by its own rule (a stop, the end of the feed, or an empty last page) stores every eligible post, pinned posts on top included |
| FeedTheorems.SteadyRunCatchesUpIff | app/workers/job_processor.py:458-478 | after such a run everything eligible is stored if and only if nothing eligible was missing beyond its stop |
| FeedTheorems.BeyondTheStop | app/workers/job_processor.py:458-478 | no run stores anything at or beyond the first known, unpinned post outside the window |
| FeedTheorems.CutRunKeepsSettledIff | app/workers/job_processor.py:390-420 | a run cut short keeps the table settled if and only if no post it looked at, and that the window leaves out, lies above a missing one it did not get to |
| FeedTheorems.CutRunLeavesAGap | app/workers/job_processor.py:383-390 | a concrete feed and a cancel after which a post is never stored, whatever runs follow |
| TokenBucket.GrantsAreWithinRate | app/scraper/rate_limit.py:22-41 | main: over any history of looks, grants i to j number at most burst + rate * (t_j - t_i), and tokens stay in range |
| TokenBucket.NothingIsLost | app/scraper/rate_limit.py:33-40 | main: over a stretch of looks whose refills never go over the capacity, grants plus tokens left equal tokens at hand plus rate * elapsed |
| TokenBucket.BurstIsUsable | app/scraper/rate_limit.py:33-40 | of n looks at one moment at a full bucket exactly the first min(n, burst) are granted |
| TokenBucket.BurstAtTheStartAndAfterIdling | app/scraper/rate_limit.py:22-40 | so it is from the start, and after every idle of capacity / rate seconds |
| TokenBucket.WaitIsExact | app/scraper/rate_limit.py:36-41 | with a burst of at least one a refused look is followed by a grant if and only if the computed wait has passed; with less, never |
| TokenBucket.TokenBucketRateLimiter.Acquire | app/scraper/rate_limit.py:29-41 | a lone waiter is granted without a sleep if there is a token, and after one otherwise |
| TokenBucket.TokenBucketRateLimiter.Turn | app/scraper/rate_limit.py:30-40 | one turn of the loop moves the bucket as `Look` does and records a grant exactly when it takes a token |
| Interpolation.InterpolateDailyGaps | app/analytics/creator_stats.py:788-834 | one point per calendar day, first to last, with the value and delta of `ValueAt` and `DeltaAt` |
| Interpolation.DaysInARow | app/analytics/creator_stats.py:816-833 | dates run day by day; each delta is the difference of two neighbouring values, the first point has none |
| Interpolation.RoundsToNearest | app/analytics/creator_stats.py:817 | rounding gives a nearest integer, the even one on a tie |
| Interpolation.HitsAnchors | app/analytics/creator_stats.py:788-795 | every known value is met exactly |
| Interpolation.StaysBetween | app/analytics/creator_stats.py:816-826 | a filled value lies between its anchors, as near the straight line as an integer can, the even one on a tie |
| Interpolation.StaysMonotone | app/analytics/creator_stats.py:816-826 | totals that never fall are filled without a fall |
| Interpolation.DeltasSumExactly | app/analytics/creator_stats.py:796-803 | main: the daily deltas sum to last minus first, whatever was rounded |
| ViewsSeries.ReconstructDailyViewsSeries | app/analytics/creator_stats.py:837-886 | grouping, folding and summing yield the daily series over the carried totals |
| ViewsSeries.SeriesShowsLastKnownTotals | app/analytics/creator_stats.py:846-856 | main: on each day with data the series shows the sum over posts of the last usable value known by that day, else the baseline, with "last known" said without any fold |
| ViewsSeries.CarriesTheLastWord | app/analytics/creator_stats.py:878-883 | the value carried for a post is that of its last usable row up to the day |
| ViewsSeries.OneRowMovesTheTotal | app/analytics/creator_stats.py:853-856 | a row moves the total by that post's own change; a post never seen adds its whole value |
| ViewsSeries.DayOrderIsIrrelevant | app/analytics/creator_stats.py:869-877 | rows of different days may arrive in any order |
| ViewsSeries.ViewGainsAddUp | app/analytics/creator_stats.py:796-803 | the series' deltas sum to last total minus first total |
| Milestones.ThresholdsRise | app/analytics/creator_stats.py:294-301 | the six blocks of the table rise strictly, without overlap or repeat |
| Milestones.ThresholdsAre | app/analytics/creator_stats.py:294-301 | membership in the table, by divisibility and range |
| Milestones.DetectMilestones | app/analytics/creator_stats.py:309-338 | the events are exactly the first reachings of a threshold after the first point, each on its date, in strictly rising order |
| Milestones.FiresIffCrossed | app/analytics/creator_stats.py:313-316 | main: a threshold fires, and only once, if and only if it is above the first value and at most the highest, however the series dips |
| Milestones.StripPhantomZeroLead | app/analytics/creator_stats.py:341-370 | point for point: a blank first point before a positive one is dropped with the delta to it, every later point stays, and so does every other series |
| Milestones.StrippingSparesLaterEvents | app/analytics/creator_stats.py:341-351 | after stripping a lone zero lead the same events fire, on the same dates, but for those the first real value alone set off |
| Milestones.StrippedFires | app/analytics/creator_stats.py:341-351 | main: what fires then is exactly the thresholds above the first real value and up to the highest |
| Milestones.PhantomSurvivesIff | app/analytics/creator_stats.py:354-370 | a zero lead before a positive value survives stripping if and only if the second point is zero too |
| Milestones.TwoZerosAreKept | app/analytics/creator_stats.py:354-370 | a concrete series whose lead is kept |
| Milestones.PhantomFlood | app/analytics/creator_stats.py:342-351 | a lone leading zero no longer fires anything up to the first real value; a longer lead fires all of it on one day |
| Median.MedianSplits | app/analytics/creator_stats.py:167 | at least half the values lie on either side of the median |
| Median.MedianIsUnbiased | app/analytics/creator_stats.py:167 | turning every value around turns the median around |
| Median.MedianIsMiddle | app/analytics/creator_stats.py:167 | twice the median is the sum of the two middle values of the values in order |
| Median.MedianIgnoresOrder | app/analytics/creator_stats.py:167 | the median depends on the values, not on their order |
| Median.RoundCentsIsNear | app/analytics/creator_stats.py:170 | rounding to two places gives a nearest number of hundredths, the even one on a tie |
| Outliers.ComputeOutlierDetails | app/analytics/creator_stats.py:149-195 | the loop gives every post the detail that `DetailAt` defines from the thirty posts before it |
| Outliers.DetailMeans | app/analytics/creator_stats.py:149-195 | main: all four figures of a detail, said from the posts themselves: which of the thirty before count, by views or else likes, at least five of them, the ratio to their median, the velocity per hour inside the window, the engagement ratio, each in hundredths |
| Outliers.DetailIsLocal | app/analytics/creator_stats.py:159-163 | a detail depends on the post and the thirty before it only |
| Outliers.WindowRefinesHistory | app/analytics/creator_stats.py:1549-1561 | main: scoring the newest k + 30 posts gives each of the newest k exactly what scoring the whole history gives, for every k |
| Outliers.NewPostsChangeNothing | app/analytics/creator_stats.py:1538-1541 | newer posts leave the figures of older ones as they were |
| Outliers.ScoreRanksThePost | app/analytics/creator_stats.py:166-170 | a score above one puts the post above the median, with at most half the prior posts at or over it, and below one the reverse; the first five posts have none |
| Outliers.VelocityIsCapped | app/analytics/creator_stats.py:172-177 | a post has a velocity if and only if it is inside its platform's window, never over sixty times its figure |
| Outliers.OutlierTable.RecomputeOutlierMetrics | app/analytics/creator_stats.py:1528-1588 | writes exactly the newest fifty rows, each with the whole history's figures |
| KeyPool.LostIffUnarmed | app/repositories/youtube_api_key_repo.py:112-122 | a key is never handed out again if and only if it is over the limit or exhausted without a deadline |
| KeyPool.UsableIff | app/repositories/youtube_api_key_repo.py:96-103 | a key can be handed out if and only if it is active and under the soft limit, or due for its reset and active or exhausted |
| KeyPool.UsageIsCharged | app/repositories/youtube_api_key_repo.py:124-133 | main: between two resets a key's usage is what it was plus the units charged to it, whatever any job does to the pool |
| KeyPool.NoKeyIsLost | app/repositories/youtube_api_key_repo.py:107-142 | main: after any sequence of pool operations every active or exhausted key is handed out at some later moment |
| KeyPool.FetchIsInvisible | app/repositories/youtube_api_key_repo.py:88-95 | committing the resets or dropping them changes no later decision |
| KeyPool.SpentStaysSpent | app/repositories/youtube_api_key_repo.py:64-69 | nothing any job writes brings a spent key back before its deadline |
| KeyPool.YouTubeApiKeyRepo.GetUsableKey | app/repositories/youtube_api_key_repo.py:71-105 | returns a usable key with the least usage, none if and only if there is none; keys whose deadline passed are as new if one of them counted any usage or was exhausted, every other key is as it was |
| KeyPool.YouTubeApiKeyRepo.AddUsage | app/repositories/youtube_api_key_repo.py:107-133 | raises the key's usage, and the pool's, by exactly the units, stamps a deadline only where there is none, and leaves every other row |
| KeyPool.YouTubeApiKeyRepo.MarkExhausted | app/repositories/youtube_api_key_repo.py:135-142 | exhausted until the next reset, others untouched |
| KeyPool.YouTubeApiKeyRepo.MarkInvalid | app/repositories/youtube_api_key_repo.py:144-153 | invalid, one more failure, others untouched |
| KeyPool.YouTubeApiKeyRepo.Create | app/repositories/youtube_api_key_repo.py:43-59 | a fresh active row without usage or deadline |
| KeyRotation.YouTubeClient.RequestWithKey | app/scraper/youtube_client.py:148-221 | at most four exchanges, all but the last retryable; answer by answer the outcome and the one row written; units are spent exactly on success |
| KeyRotation.YouTubeClient.EnsureKey | app/scraper/youtube_client.py:128-131 | keeps the current key or takes one not yet tried, and fails only when no key is usable |
| KeyRotation.YouTubeClient.TryOneKey | app/scraper/youtube_client.py:226-236 | one turn of the rotation loop keeps the tried keys out of use and the books balanced |
| KeyRotation.YouTubeClient.Get | app/scraper/youtube_client.py:223-238 | main: units spent are the units by which this client raised the pool's usage and, with no other job and no reset meanwhile, by which the whole pool's usage rose; within one quota day, other jobs or not, the keys tried are pairwise distinct and all but the last out of use; ten rotations need ten keys; an empty pool is reported only when no key is usable |
| MetricRows.SnapshotTable.RecordMetricsSnapshot | app/workers/instagram_graph_job_processor.py:277-306 | touches likes and comments only, and keeps one row a day |
| MetricRows.SnapshotTable.MergeMetricsSnapshot | app/workers/instagram_enrich_processor.py:237-280 | touches views (only with a number) and reposts only, and keeps one row a day |
| MetricRows.RowHoldsTheLatest | app/workers/instagram_enrich_processor.py:237-280 | main: after any interleaving there is one row with the last API likes and comments (the first enrichment's without an API write), the last number of views an enrichment of a video brought and the last enriched reposts |
| MetricRows.WritersCommute | app/workers/instagram_graph_job_processor.py:277-306 | main: neighbouring writes can be swapped unless the same writer makes both to the same row |
| MetricRows.SwapNeverShows | app/workers/instagram_enrich_processor.py:237-280 | a swap leaves no trace under any further writes |

## Left out

- Network, parsing of vendor JSON, TLS, login, proxies, encryption, logging, backoff delays and jitter: responses appear as pages, comments, items or outcomes.
- Session mechanics (expiry, flush, rollback): each committed block is one atomic step.
- Comment text, author and sentiment columns: collapsed into two content fields that an upsert overwrites; engagement timing features are not modelled.
- A remote that changes during one sync: between syncs it may change (`DiffingRefinesRewalking`), within one it is fixed.
- Which posts the feed loop hands to the comment sync, and in what order: the loop's candidate selection has no effect on posts, cursor or stop rule.
- Operator actions on accounts and keys (`create` and `update_status` on a leased account, `set_proxy`, `delete`, setting a key to exhausted by hand): they overwrite state by design.
- LeaseTables.JobTable.RetryFailedScrapes: nothing else runs between two commits of one tick; the machine in `LeaseModel` has one step per job, cancels in between included, but no second scheduler reading the same list, since a job may have only one message.
- Posts that vanish, change place, or are pinned or unpinned between two runs, and posts another processor stored first: between runs the feed only gains posts that are not stored.
- Queue redelivery: a message is delivered once; a message lost between commit and enqueue is the event `LoseRetry`.
- `run_daily_scrapes`, `has_active_job`, and the outcome part of the Graph, enrich, YouTube and badge processors: the same state changes as `process`, or none of these rows; the badge processor has no heartbeat.
- LeaseTables.Process: one run without concurrent steps, clock movement or crash; the machine in `LeaseModel` has all of these.
- The moment of midnight in Pacific time: a function of the time, constrained only where a theorem needs it (`OneDay`), so daylight saving is covered but not computed.
- The cookie scrape's own snapshot writer (app/workers/job_processor.py:606-651): it overwrites all four columns, so the split of columns between writers does not apply to it.
- Outliers.OutlierTable.RecomputeOutlierMetrics: does not write the blended score or the current velocity, because the blend needs a logarithm and the velocity comes from other rows.
- The blended outlier score, current velocity and the live profile endpoint: the blend needs a logarithm and the rest are per-row expressions.
- Floating point: quotients are exact rationals or reals, and rounding is half to even on the exact value.
- Event labels and types of milestones: a label is a function of the threshold.
- Simple aggregations, rankings, earnings, alerts, dashboards, bulk import and the query console: members that each say what one expression computes.
