// The account-lease and job protocol: instagram_account_repo.py,
// scrape_job_repo.py, JobProcessor.process and the scheduler's reapers, as
// one state machine whose events interleave freely.
//
// `locked_by` names a worker process, not a job, and neither the renewal nor
// the release looks at it. Who holds an account is therefore a matter of the
// runs of `process` in progress, which no table records: `runs` below.
module LeaseModel {
  import opened Common

  type AccountId = nat
  type JobId = nat
  type RunId = nat

  const ACCOUNT_LEASE_TIMEOUT_S: nat := 180
  const ACCOUNT_MAX_CONSECUTIVE_FAILURES: nat := 5

  // ---------- account rows ----------

  datatype AccountStatus = Active | InUse | CheckpointRequired | Disabled

  datatype Account = Account(status: AccountStatus, lockedBy: Option<string>, leaseExpiresAt: Option<int>,
                             lastUsedAt: Option<int>, cooldownUntil: Option<int>, failureCount: nat)

  datatype AccountOutcome = Success | RateLimited(retryAfter: Option<int>) | Blocked | Error

  predicate Eligible(a: Account, now: int) {
    a.status == Active && (a.cooldownUntil.None? || a.cooldownUntil.value <= now)
  }

  function Acquired(a: Account, worker: string, now: int): Account {
    a.(status := InUse, lockedBy := Some(worker), lastUsedAt := Some(now),
       leaseExpiresAt := Some(now + ACCOUNT_LEASE_TIMEOUT_S))
  }

  // The renewal writes the expiry whatever the row's status or owner.
  function Renewed(a: Account, now: int): Account {
    a.(leaseExpiresAt := Some(now + ACCOUNT_LEASE_TIMEOUT_S))
  }

  function Freed(a: Account): Account {
    a.(status := Active, lockedBy := None, leaseExpiresAt := None)
  }

  function Released(a: Account, outcome: AccountOutcome, now: int): Account {
    var b := a.(lockedBy := None, leaseExpiresAt := None);
    var c := match outcome
      case Success => b.(status := Active, failureCount := 0)
      case RateLimited(after) =>
        var cooldown := if after.None? || after.value == 0 then 60 else after.value;
        b.(status := Active, failureCount := b.failureCount + 1, cooldownUntil := Some(now + cooldown))
      case Blocked => b.(status := CheckpointRequired, failureCount := b.failureCount + 1)
      case Error => b.(status := Active, failureCount := b.failureCount + 1);
    if !outcome.RateLimited? && c.status == Active && c.failureCount >= ACCOUNT_MAX_CONSECUTIVE_FAILURES
    then c.(status := Disabled) else c
  }

  predicate Stale(a: Account, now: int) {
    a.status == InUse && a.leaseExpiresAt.Some? && a.leaseExpiresAt.value < now
  }

  function FreeStale(accounts: map<AccountId, Account>, now: int): map<AccountId, Account> {
    map id | id in accounts :: if Stale(accounts[id], now) then Freed(accounts[id]) else accounts[id]
  }

  function Reactivated(a: Account): Account {
    a.(status := Active, failureCount := 0)
  }

  // ---------- job rows ----------

  datatype JobStatus = Queued | Running | RetryPending | Completed | Failed | Cancelled

  datatype Job = Job(status: JobStatus, retryCount: nat, startedAt: Option<int>,
                     lastHeartbeatAt: Option<int>, cancelRequestedAt: Option<int>)

  // A failure is never released as a success.
  type FailureKind = o: AccountOutcome | o != Success witness Error

  datatype Outcome = Done | WasCancelled | TargetNotFound | Failure(kind: FailureKind)

  function NewJob(): Job {
    Job(Queued, 0, None, None, None)
  }

  function Started(j: Job, now: int): Job {
    j.(status := Running, startedAt := Some(now), lastHeartbeatAt := Some(now))
  }

  function Finished(j: Job, outcome: Outcome): Job {
    match outcome
    case Done => j.(status := Completed)
    case WasCancelled => j.(status := Cancelled)
    case TargetNotFound => j.(status := Failed)
    case Failure(_) =>
      j.(retryCount := j.retryCount + 1,
         status := if j.retryCount + 1 < SCRAPER_MAX_RETRIES then RetryPending else Failed)
  }

  // What the account is released with: a cancel or a missing target is not
  // held against it.
  function ReleaseOutcome(outcome: Outcome): AccountOutcome {
    if outcome.Failure? then outcome.kind else Success
  }

  // coalesce(last_heartbeat_at, started_at); a row with neither never matches.
  function LastSign(j: Job): Option<int> {
    if j.lastHeartbeatAt.Some? then j.lastHeartbeatAt else j.startedAt
  }

  predicate Dead(j: Job, now: int) {
    j.status == Running && LastSign(j).Some? && LastSign(j).value < now - ACCOUNT_LEASE_TIMEOUT_S
  }

  // The reaper tests the retry count before it counts; process tests after.
  function Reaped(j: Job): Job {
    j.(status := if j.retryCount < SCRAPER_MAX_RETRIES then RetryPending else Failed,
       retryCount := j.retryCount + 1)
  }

  function ReapDead(jobs: map<JobId, Job>, now: int): map<JobId, Job> {
    map id | id in jobs :: if Dead(jobs[id], now) then Reaped(jobs[id]) else jobs[id]
  }

  // ---------- the machine ----------

  // Where a run of `process` is: its job started; an account held; the job's
  // outcome committed, the account not yet released; only its heartbeat left.
  datatype Phase = Starting | Holding | Settled(outcome: Outcome) | Ending

  datatype Run = Run(job: JobId, account: Option<AccountId>, phase: Phase, jobBeat: int, leaseBeat: int) {
    predicate Working() { phase == Starting || phase == Holding }
    predicate Leasing() { (phase == Holding || phase.Settled?) && account.Some? }
  }

  datatype State = State(now: int, accounts: map<AccountId, Account>, jobs: map<JobId, Job>,
                         queue: multiset<JobId>, runs: map<RunId, Run>)

  datatype Event =
    | Tick(to: int)
    | Dispatch(job: JobId)
    | Pickup(run: RunId, job: JobId)
    | Acquire(run: RunId, account: AccountId, worker: string)
    | NoAccount(run: RunId)
    | BeatJob(run: RunId)
    | BeatLease(run: RunId)
    | Finish(run: RunId, outcome: Outcome)
    | Release(run: RunId)
    | End(run: RunId)
    | Crash(run: RunId)
    | ReapLeases
    | ReapJobs
    | Retry(job: JobId)
    | LoseRetry(job: JobId)      // requeued in the table, died before the enqueue
    | RequestCancel(job: JobId)
    | Reactivate(account: AccountId)

  // The one job row an event writes, if any.
  function JobWrite(s: State, e: Event): Option<(JobId, Job)>
    requires Possible(s, e)
  {
    match e
    case Dispatch(j) => Some((j, NewJob()))
    case Pickup(_, j) => Some((j, Started(s.jobs[j], s.now)))
    case NoAccount(r) => var j := s.runs[r].job; Some((j, s.jobs[j].(status := RetryPending)))
    case BeatJob(r) => var j := s.runs[r].job; Some((j, s.jobs[j].(lastHeartbeatAt := Some(s.now))))
    case Finish(r, o) => var j := s.runs[r].job; Some((j, Finished(s.jobs[j], o)))
    case Retry(j) => Some((j, s.jobs[j].(status := Queued)))
    case LoseRetry(j) => Some((j, s.jobs[j].(status := Queued)))
    case RequestCancel(j) => Some((j, CancelRequested(s.jobs[j], s.now)))
    case _ => None
  }

  // The one account row an event writes, if any.
  function AccountWrite(s: State, e: Event): Option<(AccountId, Account)>
    requires Possible(s, e)
  {
    match e
    case Acquire(_, a, w) => Some((a, Acquired(s.accounts[a], w, s.now)))
    case BeatLease(r) => var a := s.runs[r].account.value; Some((a, Renewed(s.accounts[a], s.now)))
    case Release(r) =>
      var a := s.runs[r].account.value;
      Some((a, Released(s.accounts[a], ReleaseOutcome(s.runs[r].phase.outcome), s.now)))
    case Reactivate(a) => Some((a, Reactivated(s.accounts[a])))
    case _ => None
  }

  // The one run an event moves on, if any.
  function RunWrite(s: State, e: Event): Option<(RunId, Run)>
    requires Possible(s, e)
  {
    match e
    case Pickup(r, j) => Some((r, Run(j, None, Starting, s.now, s.now)))
    case Acquire(r, a, _) => Some((r, s.runs[r].(account := Some(a), phase := Holding, leaseBeat := s.now)))
    case NoAccount(r) => Some((r, s.runs[r].(phase := Ending)))
    case BeatJob(r) => Some((r, s.runs[r].(jobBeat := s.now)))
    case BeatLease(r) => Some((r, s.runs[r].(leaseBeat := s.now)))
    case Finish(r, o) => Some((r, s.runs[r].(phase := Settled(o))))
    case Release(r) => Some((r, s.runs[r].(phase := Ending)))
    case _ => None
  }

  function Put<K, V>(m: map<K, V>, w: Option<(K, V)>): map<K, V> {
    match w case None => m case Some(p) => m[p.0 := p.1]
  }

  function JobsAfter(s: State, e: Event): map<JobId, Job>
    requires Possible(s, e)
  {
    if e == ReapJobs then ReapDead(s.jobs, s.now) else Put(s.jobs, JobWrite(s, e))
  }

  function AccountsAfter(s: State, e: Event): map<AccountId, Account>
    requires Possible(s, e)
  {
    if e == ReapLeases then FreeStale(s.accounts, s.now) else Put(s.accounts, AccountWrite(s, e))
  }

  function RunsAfter(s: State, e: Event): map<RunId, Run>
    requires Possible(s, e)
  {
    if e.End? || e.Crash? then s.runs - {e.run} else Put(s.runs, RunWrite(s, e))
  }

  function QueueAfter(s: State, e: Event): multiset<JobId> {
    match e
    case Dispatch(j) => s.queue + multiset{j}
    case Retry(j) => s.queue + multiset{j}
    case Pickup(_, j) => s.queue - multiset{j}
    case _ => s.queue
  }

  function Apply(s: State, e: Event): State
    requires Possible(s, e)
  {
    State(if e.Tick? then e.to else s.now, AccountsAfter(s, e), JobsAfter(s, e), QueueAfter(s, e), RunsAfter(s, e))
  }

  function CancelRequested(j: Job, now: int): Job {
    if j.status == Queued || j.status == RetryPending then j.(status := Cancelled)
    else if j.status == Running then j.(cancelRequestedAt := Some(now))
    else j
  }

  // The retry tick writes "queued" to every job it once read as pending: a
  // cancel that landed in between is overwritten.
  predicate CanRetry(status: JobStatus, j: JobId, queue: multiset<JobId>) {
    status == RetryPending || (status == Cancelled && j !in queue)
  }

  // What the code's own control flow and the tables allow.
  predicate Possible(s: State, e: Event) {
    match e
    case Tick(t) => s.now <= t
    case Dispatch(j) => j !in s.jobs
    case Pickup(r, j) => r !in s.runs && j in s.queue && j in s.jobs
    case Acquire(r, a, _) => r in s.runs && s.runs[r].phase == Starting && a in s.accounts && Eligible(s.accounts[a], s.now)
    case NoAccount(r) => r in s.runs && s.runs[r].phase == Starting && s.runs[r].job in s.jobs
    case BeatJob(r) => r in s.runs && s.runs[r].job in s.jobs
    case BeatLease(r) => r in s.runs && s.runs[r].account.Some? && s.runs[r].account.value in s.accounts
    case Finish(r, _) => r in s.runs && s.runs[r].phase == Holding && s.runs[r].job in s.jobs
    case Release(r) => r in s.runs && s.runs[r].phase.Settled? && s.runs[r].account.Some? && s.runs[r].account.value in s.accounts
    case End(r) => r in s.runs && s.runs[r].phase == Ending
    case Crash(r) => r in s.runs
    case ReapLeases => true
    case ReapJobs => true
    case Retry(j) => j in s.jobs && CanRetry(s.jobs[j].status, j, s.queue)
    case LoseRetry(j) => j in s.jobs && CanRetry(s.jobs[j].status, j, s.queue)
    case RequestCancel(j) => j in s.jobs && (s.jobs[j].status == Queued || s.jobs[j].status == RetryPending || s.jobs[j].status == Running)
    case Reactivate(a) => a in s.accounts
  }

  // Every live run has beaten within `gap` seconds of t: its job while it
  // works on it, its lease while it holds one.
  ghost predicate BeatsBy(s: State, t: int, gap: int) {
    forall r :: r in s.runs ==> InTime(s.runs[r], t, gap)
  }

  predicate InTime(run: Run, t: int, gap: int) {
    (run.Working() ==> t <= run.jobBeat + gap) && (run.Leasing() ==> t <= run.leaseBeat + gap)
  }

  // The two things the protocol relies on but does not enforce: heartbeats
  // land in time, and the revalidator's write finds the account still
  // checkpointed.
  ghost predicate Timely(s: State, e: Event, gap: int) {
    match e
    case Tick(t) => BeatsBy(s, t, gap)
    case Reactivate(a) => a in s.accounts && s.accounts[a].status == CheckpointRequired
    case _ => true
  }

  ghost predicate Enabled(s: State, e: Event, gap: int) {
    Possible(s, e) && Timely(s, e, gap)
  }

  ghost predicate Legal(s: State, es: seq<Event>, gap: int)
    decreases |es|
  {
    es == [] || (Enabled(s, es[0], gap) && Legal(Apply(s, es[0]), es[1..], gap))
  }

  ghost function Exec(s: State, es: seq<Event>, gap: int): State
    requires Legal(s, es, gap)
    decreases |es|
  {
    if es == [] then s else Exec(Apply(s, es[0]), es[1..], gap)
  }

  // Accounts as registered, nothing running.
  ghost predicate Initial(s: State) {
    && s.jobs == map[] && s.runs == map[] && s.queue == multiset{}
    && forall a :: a in s.accounts ==> s.accounts[a].status != InUse
  }
}
