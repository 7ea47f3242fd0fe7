// What every interleaving keeps: one holder per account, one worker per job,
// one message per job, bounded retry counts.
module LeaseSafety {
  import opened Common
  import opened LeaseModel

  // A held account is in use, and its lease outlasts the holder's last beat
  // by the full timeout.
  predicate Held(accounts: map<AccountId, Account>, run: Run) {
    && (run.phase == Holding || run.phase.Settled? ==> run.account.Some?)
    && (run.account.Some? ==> run.account.value in accounts)
    && (run.Leasing() ==>
          var a := accounts[run.account.value];
          a.status == InUse && a.leaseExpiresAt.Some?
          && run.leaseBeat + ACCOUNT_LEASE_TIMEOUT_S <= a.leaseExpiresAt.value)
  }

  // No account has two holders.
  ghost predicate Exclusive(runs: map<RunId, Run>) {
    forall q, r :: q in runs && r in runs && q != r && runs[q].Leasing() && runs[r].Leasing() ==>
      runs[q].account != runs[r].account
  }

  ghost predicate HoldersInv(s: State) {
    (forall r :: r in s.runs ==> Held(s.accounts, s.runs[r])) && Exclusive(s.runs)
  }

  // A job worked on is running and carries at least the worker's last beat.
  predicate Worked(jobs: map<JobId, Job>, run: Run) {
    && run.job in jobs
    && (run.Working() ==>
          var j := jobs[run.job];
          j.status == Running && j.lastHeartbeatAt.Some? && run.jobBeat <= j.lastHeartbeatAt.value)
  }

  // No job has two workers.
  ghost predicate OneWorker(runs: map<RunId, Run>) {
    forall q, r :: q in runs && r in runs && q != r && runs[q].Working() && runs[r].Working() ==>
      runs[q].job != runs[r].job
  }

  ghost predicate WorkersInv(s: State) {
    (forall r :: r in s.runs ==> Worked(s.jobs, s.runs[r])) && OneWorker(s.runs)
  }

  // At most one message per job, and only for jobs nobody works on.
  ghost predicate QueueInv(s: State) {
    forall j :: j in s.queue ==>
      s.queue[j] == 1 && j in s.jobs && (s.jobs[j].status == Queued || s.jobs[j].status == Cancelled)
  }

  predicate JobClock(j: Job, now: int) {
    && (j.status == Running ==> LastSign(j).Some?)
    && (j.lastHeartbeatAt.Some? ==> j.lastHeartbeatAt.value <= now)
    && (LastSign(j).Some? ==> LastSign(j).value <= now)
  }

  predicate RetryBound(j: Job) {
    j.retryCount <= SCRAPER_MAX_RETRIES + (if j.status == Failed then 1 else 0)
  }

  // Nothing in the tables lies in the future, beyond one lease.
  ghost predicate ClockInv(s: State) {
    && (forall a :: a in s.accounts && s.accounts[a].status == InUse ==>
          s.accounts[a].leaseExpiresAt.Some? && s.accounts[a].leaseExpiresAt.value <= s.now + ACCOUNT_LEASE_TIMEOUT_S)
    && (forall j :: j in s.jobs ==> JobClock(s.jobs[j], s.now))
    && (forall r :: r in s.runs ==> BeatenBefore(s.runs[r], s.now))
  }

  predicate BeatenBefore(run: Run, now: int) {
    run.jobBeat <= now && run.leaseBeat <= now
  }

  ghost predicate RetryInv(s: State) {
    forall j :: j in s.jobs ==> RetryBound(s.jobs[j])
  }

  ghost predicate Inv(s: State, gap: int) {
    HoldersInv(s) && WorkersInv(s) && QueueInv(s) && ClockInv(s) && RetryInv(s) && BeatsBy(s, s.now, gap)
  }

  lemma InitialInv(s: State, gap: int)
    requires Initial(s)
    ensures Inv(s, gap)
  {
  }

  // The expiry of an account that is not in use may also have been written
  // by a late heartbeat: it too is at most one lease ahead, but nothing
  // depends on it.

  // ---------- one step, one part of the invariant at a time ----------

  // Facts the events' guards draw from the invariant.
  lemma LeasingFacts(s: State)
    requires HoldersInv(s)
    ensures forall r :: r in s.runs && (s.runs[r].phase == Holding || s.runs[r].phase.Settled?) ==> s.runs[r].Leasing()
    ensures forall r :: r in s.runs && s.runs[r].Leasing() ==> s.accounts[s.runs[r].account.value].status == InUse
  {
  }

  // A write to a row nobody holds.
  lemma HoldersAccount(s: State, a: AccountId, row: Account)
    requires HoldersInv(s) && a in s.accounts && s.accounts[a].status != InUse
    ensures HoldersInv(s.(accounts := s.accounts[a := row]))
  {
  }

  lemma HoldersAcquire(s: State, r: RunId, a: AccountId, row: Account, run: Run)
    requires HoldersInv(s) && a in s.accounts && s.accounts[a].status != InUse && r in s.runs
    requires row.status == InUse && row.leaseExpiresAt == Some(run.leaseBeat + ACCOUNT_LEASE_TIMEOUT_S)
    requires run.account == Some(a)
    ensures HoldersInv(s.(accounts := s.accounts[a := row], runs := s.runs[r := run]))
  {
    // a is not in use, so no run holds it
    assert forall q :: q in s.runs && s.runs[q].Leasing() ==> s.runs[q].account != Some(a);
  }

  // A renewal may come from the holder, or late from a run that let go.
  lemma HoldersBeat(s: State, r: RunId)
    requires HoldersInv(s) && ClockInv(s) && Possible(s, BeatLease(r))
    ensures HoldersInv(Apply(s, BeatLease(r)))
  {
    hide JobsAfter, QueueAfter, JobClock;
  }

  lemma HoldersRelease(s: State, r: RunId, row: Account)
    requires HoldersInv(s) && r in s.runs && s.runs[r].Leasing()
    ensures HoldersInv(s.(accounts := s.accounts[s.runs[r].account.value := row],
                          runs := s.runs[r := s.runs[r].(phase := Ending)]))
  {
    assert forall q :: q in s.runs && q != r && s.runs[q].Leasing() ==> s.runs[q].account != s.runs[r].account;
  }

  // A run that holds no more than it did: the same account, no newer beat.
  predicate NoMore(was: Option<Run>, run: Run) {
    && run.account == (if was.Some? then was.value.account else None)
    && (run.phase == Holding || run.phase.Settled? ==>
          was.Some? && was.value.Leasing() && run.leaseBeat == was.value.leaseBeat)
  }

  function RunOf(s: State, r: RunId): Option<Run> {
    if r in s.runs then Some(s.runs[r]) else None
  }

  lemma HoldersKept(s: State, r: RunId, run: Run)
    requires HoldersInv(s) && NoMore(RunOf(s, r), run)
    ensures HoldersInv(s.(runs := s.runs[r := run]))
    ensures HoldersInv(s.(runs := s.runs - {r}))
  {
  }

  lemma HoldersOf(s: State, t: State)
    requires HoldersInv(s) && t.runs == s.runs && t.accounts == s.accounts
    ensures HoldersInv(t)
  {
  }

  // The lease reaper never frees an account somebody holds.
  lemma HoldersSurviveReaper(s: State, gap: int)
    requires 0 <= gap <= ACCOUNT_LEASE_TIMEOUT_S && HoldersInv(s) && BeatsBy(s, s.now, gap)
    ensures HoldersInv(s.(accounts := FreeStale(s.accounts, s.now)))
    ensures forall r :: r in s.runs && s.runs[r].Leasing() ==>
              FreeStale(s.accounts, s.now)[s.runs[r].account.value] == s.accounts[s.runs[r].account.value]
  {
    forall r | r in s.runs && s.runs[r].Leasing()
      ensures FreeStale(s.accounts, s.now)[s.runs[r].account.value] == s.accounts[s.runs[r].account.value]
    {
      assert !Stale(s.accounts[s.runs[r].account.value], s.now);
    }
  }

  // The events that write an account row.
  lemma HoldersWrite(s: State, e: Event, gap: int)
    requires 0 <= gap <= ACCOUNT_LEASE_TIMEOUT_S && Inv(s, gap) && Enabled(s, e, gap)
    requires e.Acquire? || e.BeatLease? || e.Release? || e.Reactivate? || e == ReapLeases
    ensures HoldersInv(Apply(s, e))
  {
    hide HoldersInv, WorkersInv, QueueInv, RetryInv, ClockInv, BeatsBy, Released, JobsAfter, QueueAfter;
    LeasingFacts(s);
    var t := Apply(s, e);
    match e
    case Acquire(r, a, w) =>
      HoldersAcquire(s, r, a, t.accounts[a], t.runs[r]);
      HoldersOf(s.(accounts := t.accounts, runs := t.runs), t);
    case BeatLease(r) => HoldersBeat(s, r);
    case Release(r) =>
      HoldersRelease(s, r, t.accounts[s.runs[r].account.value]);
      HoldersOf(s.(accounts := t.accounts, runs := t.runs), t);
    case Reactivate(a) =>
      HoldersAccount(s, a, t.accounts[a]);
      HoldersOf(s.(accounts := t.accounts), t);
    case ReapLeases =>
      HoldersSurviveReaper(s, gap);
      HoldersOf(s.(accounts := t.accounts), t);
  }

  lemma HoldersStep(s: State, e: Event, gap: int)
    requires 0 <= gap <= ACCOUNT_LEASE_TIMEOUT_S && Inv(s, gap) && Enabled(s, e, gap)
    ensures HoldersInv(Apply(s, e))
  {
    hide HoldersInv, WorkersInv, QueueInv, RetryInv, ClockInv, BeatsBy, Timely, JobsAfter, QueueAfter;
    LeasingFacts(s);
    var t := Apply(s, e);
    match e
    case Acquire(_, _, _) => HoldersWrite(s, e, gap);
    case BeatLease(_) => HoldersWrite(s, e, gap);
    case Release(_) => HoldersWrite(s, e, gap);
    case Reactivate(_) => HoldersWrite(s, e, gap);
    case ReapLeases => HoldersWrite(s, e, gap);
    case Pickup(r, _) => HoldersKept(s, r, t.runs[r]); HoldersOf(s.(runs := t.runs), t);
    case NoAccount(r) => HoldersKept(s, r, t.runs[r]); HoldersOf(s.(runs := t.runs), t);
    case BeatJob(r) => HoldersKept(s, r, t.runs[r]); HoldersOf(s.(runs := t.runs), t);
    case Finish(r, _) => HoldersKept(s, r, t.runs[r]); HoldersOf(s.(runs := t.runs), t);
    case End(r) => HoldersKept(s, r, s.runs[r].(phase := Ending)); HoldersOf(s.(runs := t.runs), t);
    case Crash(r) => HoldersKept(s, r, s.runs[r].(phase := Ending)); HoldersOf(s.(runs := t.runs), t);
    case _ => HoldersOf(s, t);
  }

  // ---------- jobs ----------

  lemma WorkersPickup(s: State, r: RunId, j: JobId, row: Job, run: Run)
    requires WorkersInv(s) && QueueInv(s) && r !in s.runs && j in s.queue && run.job == j
    requires row.status == Running && row.lastHeartbeatAt == Some(run.jobBeat)
    ensures WorkersInv(s.(jobs := s.jobs[j := row], runs := s.runs[r := run]))
  {
    // j is queued or cancelled, so nobody works on it
    assert forall q :: q in s.runs && s.runs[q].Working() ==> s.runs[q].job != j;
  }

  // A run that stops working on its job may write the row as it likes.
  lemma WorkersStop(s: State, r: RunId, row: Job, run: Run)
    requires WorkersInv(s) && r in s.runs && s.runs[r].Working()
    requires run.job == s.runs[r].job && !run.Working()
    ensures WorkersInv(s.(jobs := s.jobs[s.runs[r].job := row], runs := s.runs[r := run]))
  {
  }

  lemma WorkersBeat(s: State, r: RunId, row: Job, run: Run)
    requires WorkersInv(s) && r in s.runs && run.job == s.runs[r].job && run.phase == s.runs[r].phase
    requires var j := s.runs[r].job;
             && j in s.jobs && row.status == s.jobs[j].status && row.lastHeartbeatAt == Some(run.jobBeat)
             && (s.jobs[j].lastHeartbeatAt.Some? ==> s.jobs[j].lastHeartbeatAt.value <= run.jobBeat)
    ensures WorkersInv(s.(jobs := s.jobs[s.runs[r].job := row], runs := s.runs[r := run]))
  {
  }

  lemma NoLaterBeat(s: State, j: JobId)
    requires ClockInv(s) && j in s.jobs
    ensures s.jobs[j].lastHeartbeatAt.Some? ==> s.jobs[j].lastHeartbeatAt.value <= s.now
  {
    assert JobClock(s.jobs[j], s.now);
  }

  // The same runs, and jobs only added or their status kept while running.
  lemma WorkersKept(s: State, t: State)
    requires WorkersInv(s) && t.runs == s.runs && s.jobs.Keys <= t.jobs.Keys
    requires forall j :: j in s.jobs && s.jobs[j].status == Running ==>
               t.jobs[j].status == Running && t.jobs[j].lastHeartbeatAt == s.jobs[j].lastHeartbeatAt
    ensures WorkersInv(t)
  {
  }

  // A run that works no more than it did.
  lemma WorkersRun(s: State, r: RunId, run: Run)
    requires WorkersInv(s) && r in s.runs && run.job == s.runs[r].job && run.jobBeat == s.runs[r].jobBeat
    requires run.Working() ==> s.runs[r].Working()
    ensures WorkersInv(s.(runs := s.runs[r := run]))
    ensures WorkersInv(s.(runs := s.runs - {r}))
  {
  }

  lemma WorkersOf(s: State, t: State)
    requires WorkersInv(s) && t.runs == s.runs && t.jobs == s.jobs
    ensures WorkersInv(t)
  {
  }

  // A job whose worker keeps beating is never reaped.
  lemma WorkersSurviveReaper(s: State, gap: int)
    requires 0 <= gap <= ACCOUNT_LEASE_TIMEOUT_S && WorkersInv(s) && BeatsBy(s, s.now, gap)
    ensures WorkersInv(s.(jobs := ReapDead(s.jobs, s.now)))
    ensures forall r :: r in s.runs && s.runs[r].Working() ==>
              ReapDead(s.jobs, s.now)[s.runs[r].job] == s.jobs[s.runs[r].job]
  {
    forall r | r in s.runs && s.runs[r].Working()
      ensures ReapDead(s.jobs, s.now)[s.runs[r].job] == s.jobs[s.runs[r].job]
    {
      assert !Dead(s.jobs[s.runs[r].job], s.now);
    }
  }

  // The events that write a job row.
  lemma WorkersWrite(s: State, e: Event, gap: int)
    requires 0 <= gap <= ACCOUNT_LEASE_TIMEOUT_S && Inv(s, gap) && Enabled(s, e, gap)
    requires e.Pickup? || e.BeatJob? || e.NoAccount? || e.Finish? || e == ReapJobs
    ensures WorkersInv(Apply(s, e))
  {
    hide HoldersInv, WorkersInv, QueueInv, RetryInv, ClockInv, BeatsBy, Timely, AccountsAfter, QueueAfter;
    var t := Apply(s, e);
    match e
    case Pickup(r, j) =>
      WorkersPickup(s, r, j, t.jobs[j], t.runs[r]);
      WorkersOf(s.(jobs := t.jobs, runs := t.runs), t);
    case BeatJob(r) =>
      NoLaterBeat(s, s.runs[r].job);
      WorkersBeat(s, r, t.jobs[s.runs[r].job], t.runs[r]);
      WorkersOf(s.(jobs := t.jobs, runs := t.runs), t);
    case NoAccount(r) =>
      WorkersStop(s, r, t.jobs[s.runs[r].job], t.runs[r]);
      WorkersOf(s.(jobs := t.jobs, runs := t.runs), t);
    case Finish(r, _) =>
      WorkersStop(s, r, t.jobs[s.runs[r].job], t.runs[r]);
      WorkersOf(s.(jobs := t.jobs, runs := t.runs), t);
    case ReapJobs =>
      WorkersSurviveReaper(s, gap);
      WorkersOf(s.(jobs := t.jobs), t);
  }

  lemma WorkersStep(s: State, e: Event, gap: int)
    requires 0 <= gap <= ACCOUNT_LEASE_TIMEOUT_S && Inv(s, gap) && Enabled(s, e, gap)
    ensures WorkersInv(Apply(s, e))
  {
    hide HoldersInv, WorkersInv, QueueInv, RetryInv, ClockInv, BeatsBy, Timely, AccountsAfter, QueueAfter;
    var t := Apply(s, e);
    match e
    case Pickup(_, _) => WorkersWrite(s, e, gap);
    case BeatJob(_) => WorkersWrite(s, e, gap);
    case NoAccount(_) => WorkersWrite(s, e, gap);
    case Finish(_, _) => WorkersWrite(s, e, gap);
    case ReapJobs => WorkersWrite(s, e, gap);
    case Acquire(r, _, _) => WorkersRun(s, r, t.runs[r]); WorkersOf(s.(runs := t.runs), t);
    case BeatLease(r) => WorkersRun(s, r, t.runs[r]); WorkersOf(s.(runs := t.runs), t);
    case Release(r) => WorkersRun(s, r, t.runs[r]); WorkersOf(s.(runs := t.runs), t);
    case End(r) => WorkersRun(s, r, s.runs[r]); WorkersOf(s.(runs := t.runs), t);
    case Crash(r) => WorkersRun(s, r, s.runs[r]); WorkersOf(s.(runs := t.runs), t);
    case _ => WorkersKept(s, t);
  }

  // ---------- messages ----------

  lemma QueueAdd(s: State, j: JobId, row: Job)
    requires QueueInv(s) && j !in s.queue && row.status == Queued
    ensures QueueInv(s.(queue := s.queue + multiset{j}, jobs := s.jobs[j := row]))
  {
  }

  lemma QueueTake(s: State, j: JobId, row: Job)
    requires QueueInv(s) && j in s.queue
    ensures QueueInv(s.(queue := s.queue - multiset{j}, jobs := s.jobs[j := row]))
  {
    assert s.queue[j] == 1;
  }

  // A write to a job without a message.
  lemma QueueRow(s: State, j: JobId, row: Job)
    requires QueueInv(s) && (j !in s.queue || row.status == Queued || row.status == Cancelled)
    ensures QueueInv(s.(jobs := s.jobs[j := row]))
  {
  }

  lemma WorkedJobsHaveNoMessage(s: State, r: RunId)
    requires QueueInv(s) && WorkersInv(s) && r in s.runs && s.runs[r].Working()
    ensures s.runs[r].job !in s.queue
  {
  }

  lemma QueueReaped(s: State)
    requires QueueInv(s)
    ensures QueueInv(s.(jobs := ReapDead(s.jobs, s.now)))
  {
  }

  lemma QueueOf(s: State, t: State)
    requires QueueInv(s) && t.queue == s.queue && t.jobs == s.jobs
    ensures QueueInv(t)
  {
  }

  predicate MovesMessage(e: Event) {
    e.Dispatch? || e.Retry? || e.Pickup?
  }

  lemma MessageMoved(s: State, e: Event)
    requires QueueInv(s) && Possible(s, e) && MovesMessage(e)
    ensures QueueInv(s.(jobs := JobsAfter(s, e), queue := QueueAfter(s, e)))
  {
    hide QueueInv;
    NoMessageFor(s);
    var (j, row) := JobWrite(s, e).value;
    if e.Pickup? {
      QueueTake(s, j, row);
    } else {
      QueueAdd(s, j, row);
    }
  }

  // Every other write leaves a job with a message queued or cancelled.
  lemma MessageKept(s: State, e: Event)
    requires QueueInv(s) && WorkersInv(s) && Possible(s, e) && !MovesMessage(e) && JobWrite(s, e).Some?
    ensures var w := JobWrite(s, e).value; w.0 !in s.queue || w.1.status == Queued || w.1.status == Cancelled
  {
    hide WorkersInv, QueueInv;
    NoMessageFor(s);
    match e
    case Finish(r, _) => WorkedJobsHaveNoMessage(s, r);
    case NoAccount(r) => WorkedJobsHaveNoMessage(s, r);
    case _ =>
  }

  lemma QueueStep(s: State, e: Event, gap: int)
    requires Inv(s, gap) && Enabled(s, e, gap)
    ensures QueueInv(Apply(s, e))
  {
    hide HoldersInv, RetryInv, ClockInv, BeatsBy, WorkersInv, QueueInv, AccountsAfter, RunsAfter, JobsAfter, JobWrite,
         QueueAfter, MovesMessage, Possible, Timely;
    var u := s.(jobs := JobsAfter(s, e), queue := QueueAfter(s, e));
    if MovesMessage(e) {
      MessageMoved(s, e);
    } else {
      JobsKept(s, e);
      if e == ReapJobs {
        QueueReaped(s);
      } else if JobWrite(s, e).Some? {
        MessageKept(s, e);
        QueueRow(s, JobWrite(s, e).value.0, JobWrite(s, e).value.1);
      } else {
        QueueOf(s, u);
      }
    }
    QueueOf(u, Apply(s, e));
  }

  lemma JobsKept(s: State, e: Event)
    requires Possible(s, e)
    ensures !MovesMessage(e) ==> QueueAfter(s, e) == s.queue
    ensures JobsAfter(s, e)
         == if e == ReapJobs then ReapDead(s.jobs, s.now)
            else if JobWrite(s, e).Some? then s.jobs[JobWrite(s, e).value.0 := JobWrite(s, e).value.1]
            else s.jobs
  {
    hide JobWrite, ReapDead;
  }

  // Jobs that are neither queued nor cancelled have no message.
  lemma NoMessageFor(s: State)
    requires QueueInv(s)
    ensures forall j :: j in s.queue ==> j in s.jobs && (s.jobs[j].status == Queued || s.jobs[j].status == Cancelled)
  {
  }

  // ---------- times and counts ----------

  lemma ClockAccounts(s: State, e: Event)
    requires ClockInv(s) && Possible(s, e)
    ensures var t := Apply(s, e);
            forall a :: a in t.accounts && t.accounts[a].status == InUse ==>
              t.accounts[a].leaseExpiresAt.Some? && t.accounts[a].leaseExpiresAt.value <= t.now + ACCOUNT_LEASE_TIMEOUT_S
  {
    hide RunsAfter, JobsAfter, QueueAfter, JobClock;
  }

  ghost predicate AllClocked(jobs: map<JobId, Job>, now: int) {
    forall j :: j in jobs ==> JobClock(jobs[j], now)
  }

  lemma WrittenRow(s: State, e: Event)
    requires ClockInv(s) && RetryInv(s) && WorkersInv(s) && QueueInv(s) && Possible(s, e) && JobWrite(s, e).Some?
    ensures var w := JobWrite(s, e).value;
            JobClock(w.1, s.now) && (RetryBound(w.1) || (w.0 in s.jobs && SameCount(s.jobs[w.0], w.1)))
  {
    hide ClockInv, RetryInv, WorkersInv, QueueInv;
    var j := JobWrite(s, e).value.0;
    if j in s.jobs {
      RowClock(s, j);
    }
    match e
    case Finish(r, _) => WorkedRow(s, r);
    case NoAccount(r) => WorkedRow(s, r);
    case Pickup(_, _) => NoMessageFor(s);
    case _ =>
  }

  lemma RowClock(s: State, j: JobId)
    requires ClockInv(s) && RetryInv(s) && j in s.jobs
    ensures JobClock(s.jobs[j], s.now) && RetryBound(s.jobs[j])
  {
  }

  lemma WorkedRow(s: State, r: RunId)
    requires WorkersInv(s) && r in s.runs && s.runs[r].Working()
    ensures Worked(s.jobs, s.runs[r])
  {
  }

  predicate SameCount(a: Job, b: Job) {
    a.retryCount == b.retryCount && (a.status == Failed ==> b.status == Failed)
  }

  lemma ClockJobs(s: State, e: Event)
    requires ClockInv(s) && RetryInv(s) && WorkersInv(s) && QueueInv(s) && Possible(s, e)
    ensures AllClocked(JobsAfter(s, e), s.now)
  {
    hide RetryInv, WorkersInv, QueueInv, RetryBound, SameCount, JobWrite;
    if JobWrite(s, e).Some? {
      WrittenRow(s, e);
    }
  }

  ghost predicate AllBounded(jobs: map<JobId, Job>) {
    forall j :: j in jobs ==> RetryBound(jobs[j])
  }

  lemma RetryJobs(s: State, e: Event)
    requires ClockInv(s) && RetryInv(s) && WorkersInv(s) && QueueInv(s) && Possible(s, e)
    ensures AllBounded(JobsAfter(s, e))
  {
    hide ClockInv, WorkersInv, QueueInv, JobWrite, JobsAfter, ReapDead, QueueAfter, Possible;
    JobsKept(s, e);
    if e == ReapJobs {
      ReapBounded(s.jobs, s.now);
    } else if JobWrite(s, e).Some? {
      WrittenRow(s, e);
    }
  }

  lemma ReapBounded(jobs: map<JobId, Job>, now: int)
    requires AllBounded(jobs)
    ensures AllBounded(ReapDead(jobs, now))
  {
  }

  lemma RetryStep(s: State, e: Event)
    requires ClockInv(s) && RetryInv(s) && WorkersInv(s) && QueueInv(s) && Possible(s, e)
    ensures RetryInv(Apply(s, e))
  {
    hide ClockInv, WorkersInv, QueueInv, JobsAfter, AccountsAfter, RunsAfter, QueueAfter, Possible, RetryBound;
    RetryJobs(s, e);
  }

  lemma ClockRuns(s: State, e: Event, gap: int)
    requires 0 <= gap && ClockInv(s) && BeatsBy(s, s.now, gap) && Enabled(s, e, gap)
    ensures var t := Apply(s, e);
            && (forall r :: r in t.runs ==> BeatenBefore(t.runs[r], t.now))
            && BeatsBy(t, t.now, gap)
  {
    hide AccountsAfter, JobsAfter, QueueAfter, Possible, RunWrite, BeatenBefore, InTime;
    RunsMoved(s, e);
    if RunWrite(s, e).Some? {
      MovedRun(s, e, gap);
    }
    LaterRuns(s, Apply(s, e).now);
  }

  lemma LaterRuns(s: State, now: int)
    requires s.now <= now && ClockInv(s)
    ensures forall r :: r in s.runs ==> BeatenBefore(s.runs[r], now)
  {
  }

  lemma RunsMoved(s: State, e: Event)
    requires Possible(s, e)
    ensures RunsAfter(s, e)
         == if e.End? || e.Crash? then s.runs - {e.run}
            else if RunWrite(s, e).Some? then s.runs[RunWrite(s, e).value.0 := RunWrite(s, e).value.1]
            else s.runs
    ensures s.now <= Apply(s, e).now && (RunWrite(s, e).Some? ==> !e.Tick?)
  {
    hide AccountsAfter, JobsAfter, QueueAfter;
  }

  lemma MovedRun(s: State, e: Event, gap: int)
    requires 0 <= gap && ClockInv(s) && BeatsBy(s, s.now, gap) && Possible(s, e) && RunWrite(s, e).Some?
    ensures BeatenBefore(RunWrite(s, e).value.1, s.now) && InTime(RunWrite(s, e).value.1, s.now, gap)
  {
    assert !e.Pickup? ==> InTime(s.runs[e.run], s.now, gap) && BeatenBefore(s.runs[e.run], s.now);
  }

  lemma ClockStep(s: State, e: Event, gap: int)
    requires 0 <= gap && Inv(s, gap) && Enabled(s, e, gap)
    ensures ClockInv(Apply(s, e)) && BeatsBy(Apply(s, e), Apply(s, e).now, gap)
  {
    hide AccountsAfter, JobsAfter, RunsAfter, HoldersInv, WorkersInv, QueueInv, RetryInv, BeatsBy;
    ClockAccounts(s, e);
    ClockJobs(s, e);
    LaterClock(JobsAfter(s, e), s.now, Apply(s, e).now);
    ClockRuns(s, e, gap);
  }

  lemma LaterClock(jobs: map<JobId, Job>, a: int, b: int)
    requires a <= b && AllClocked(jobs, a)
    ensures AllClocked(jobs, b)
  {
  }

  lemma StepInv(s: State, e: Event, gap: int)
    requires 0 <= gap <= ACCOUNT_LEASE_TIMEOUT_S && Inv(s, gap) && Enabled(s, e, gap)
    ensures Inv(Apply(s, e), gap)
  {
    hide Apply, HoldersInv, WorkersInv, QueueInv, ClockInv, RetryInv;
    HoldersStep(s, e, gap);
    WorkersStep(s, e, gap);
    QueueStep(s, e, gap);
    ClockStep(s, e, gap);
    RetryStep(s, e);
  }

  lemma {:induction false} RunInv(s: State, es: seq<Event>, gap: int)
    requires 0 <= gap <= ACCOUNT_LEASE_TIMEOUT_S && Inv(s, gap) && Legal(s, es, gap)
    ensures Inv(Exec(s, es, gap), gap)
    decreases |es|
  {
    hide Apply, Inv, Possible, Timely;
    if es != [] {
      StepInv(s, es[0], gap);
      RunInv(Apply(s, es[0]), es[1..], gap);
    }
  }

  // ---------- the theorems ----------

  // Who holds account a now.
  predicate Holds(s: State, r: RunId, a: AccountId) {
    r in s.runs && s.runs[r].Leasing() && s.runs[r].account == Some(a)
  }

  // After any interleaving of events from a fresh system, provided heartbeats
  // land within `gap` seconds, no longer than the lease: an account has at
  // most one holder, and what is held is in use on a lease not yet expired.
  lemma OneHolderAlways(s: State, es: seq<Event>, gap: int)
    requires 0 <= gap <= ACCOUNT_LEASE_TIMEOUT_S && Initial(s) && Legal(s, es, gap)
    ensures var t := Exec(s, es, gap);
            forall r, a :: Holds(t, r, a) ==>
              && a in t.accounts && t.accounts[a].status == InUse
              && t.accounts[a].leaseExpiresAt.Some? && t.now <= t.accounts[a].leaseExpiresAt.value
              && forall q :: Holds(t, q, a) ==> q == r
  {
    hide Initial, Legal, Exec;
    InitialInv(s, gap);
    RunInv(s, es, gap);
    var t := Exec(s, es, gap);
    assert forall r :: r in t.runs ==> Held(t.accounts, t.runs[r]) && InTime(t.runs[r], t.now, gap);
  }

  predicate WorksOn(s: State, r: RunId, j: JobId) {
    r in s.runs && s.runs[r].Working() && s.runs[r].job == j
  }

  // A job is worked on by at most one run, and waits in at most one message.
  lemma OneWorkerAlways(s: State, es: seq<Event>, gap: int)
    requires 0 <= gap <= ACCOUNT_LEASE_TIMEOUT_S && Initial(s) && Legal(s, es, gap)
    ensures var t := Exec(s, es, gap);
            && (forall q, r, j :: WorksOn(t, q, j) && WorksOn(t, r, j) ==> q == r)
            && (forall r :: r in t.runs && t.runs[r].Working() ==> t.runs[r].job !in t.queue)
            && (forall j :: t.queue[j] <= 1)
  {
    hide Initial, Legal, Exec;
    InitialInv(s, gap);
    RunInv(s, es, gap);
    var t := Exec(s, es, gap);
    forall r | r in t.runs && t.runs[r].Working()
      ensures t.runs[r].job !in t.queue
    {
      WorkedJobsHaveNoMessage(t, r);
    }
  }

  // The revalidator reads its candidates, probes each, and then writes
  // "active" without looking again. The write keeps the protocol exactly
  // when nobody holds the account at that moment.
  lemma ReactivationIsSafeIff(s: State, a: AccountId)
    requires HoldersInv(s) && a in s.accounts
    ensures HoldersInv(Apply(s, Reactivate(a))) <==> !exists r :: Holds(s, r, a)
  {
    var t := Apply(s, Reactivate(a));
    assert t == s.(accounts := s.accounts[a := Reactivated(s.accounts[a])]);
    if r :| Holds(s, r, a) {
      assert !Held(t.accounts, t.runs[r]);
    } else {
      forall r | r in s.runs
        ensures Held(t.accounts, t.runs[r])
      {
        assert Held(s.accounts, s.runs[r]) && !Holds(s, r, a);
      }
    }
  }

  // What the write could check: a row that is not in use has no holder. The
  // row alone allows no weaker guard: of every row in use on a lease, some
  // state has a holder that the write would cost its account.
  lemma ReactivationIsSafeByRow(s: State, a: AccountId)
    requires HoldersInv(s) && a in s.accounts && s.accounts[a].status != InUse
    ensures HoldersInv(Apply(s, Reactivate(a)))
  {
    hide HoldersInv, Apply;
    LeasingFacts(s);
    ReactivationIsSafeIff(s, a);
  }

  lemma RowGuardIsTight(a: AccountId, row: Account) returns (s: State)
    requires row.status == InUse && row.leaseExpiresAt.Some?
    ensures HoldersInv(s) && a in s.accounts && s.accounts[a] == row
    ensures !HoldersInv(Apply(s, Reactivate(a)))
  {
    var beat := row.leaseExpiresAt.value - ACCOUNT_LEASE_TIMEOUT_S;
    s := State(beat, map[a := row], map[], multiset{}, map[0 := Run(0, Some(a), Holding, beat, beat)]);
    assert Holds(s, 0, a);
    ReactivationIsSafeIff(s, a);
  }

  // When somebody does hold it, the next run in line gets the same account.
  lemma ReactivationSharesHeldAccount(s: State, a: AccountId, r: RunId, q: RunId, w: string)
    requires HoldersInv(s) && Holds(s, r, a) && q in s.runs && s.runs[q].phase == Starting
    requires s.accounts[a].cooldownUntil.None? || s.accounts[a].cooldownUntil.value <= s.now
    ensures var t := Apply(s, Reactivate(a));
            Possible(t, Acquire(q, a, w)) && Holds(Apply(t, Acquire(q, a, w)), r, a) && Holds(Apply(t, Acquire(q, a, w)), q, a)
  {
  }

  // The reaper keeps the protocol exactly when no held lease has run out.
  lemma ReapIsSafeIff(s: State)
    requires HoldersInv(s)
    ensures HoldersInv(Apply(s, ReapLeases))
            <==> forall r, a :: Holds(s, r, a) ==> s.now <= s.accounts[a].leaseExpiresAt.value
  {
    var t := Apply(s, ReapLeases);
    assert t == s.(accounts := FreeStale(s.accounts, s.now));
    forall r, a | Holds(s, r, a)
      ensures Held(t.accounts, t.runs[r]) <==> s.now <= s.accounts[a].leaseExpiresAt.value
    {
      assert Held(s.accounts, s.runs[r]);
    }
    forall r | r in s.runs && !s.runs[r].Leasing()
      ensures Held(t.accounts, t.runs[r])
    {
      assert Held(s.accounts, s.runs[r]);
    }
    if forall r, a :: Holds(s, r, a) ==> s.now <= s.accounts[a].leaseExpiresAt.value {
      forall r | r in s.runs && s.runs[r].Leasing()
        ensures Held(t.accounts, t.runs[r])
      {
        assert Holds(s, r, s.runs[r].account.value);
      }
    } else {
      var r, a :| Holds(s, r, a) && !(s.now <= s.accounts[a].leaseExpiresAt.value);
      assert !Held(t.accounts, t.runs[r]);
    }
  }

  // The timeout is the whole margin: one second past an unrenewed lease the
  // reaper frees a held account, and the next run in line gets it too.
  lemma ExpiredLeaseIsShared(s: State, a: AccountId, r: RunId, q: RunId, w: string)
    requires HoldersInv(s) && Holds(s, r, a) && q in s.runs && s.runs[q].phase == Starting
    requires s.accounts[a].cooldownUntil.None? || s.accounts[a].cooldownUntil.value <= s.now
    requires s.accounts[a].leaseExpiresAt.value < s.now
    ensures var t := Apply(s, ReapLeases);
            Possible(t, Acquire(q, a, w)) && Holds(Apply(t, Acquire(q, a, w)), r, a) && Holds(Apply(t, Acquire(q, a, w)), q, a)
  {
  }
}
