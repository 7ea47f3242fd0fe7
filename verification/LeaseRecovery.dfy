// Crash recovery and retry counts, over every continuation of a run.
module LeaseRecovery {
  import opened Common
  import opened LeaseModel
  import opened LeaseSafety

  // ---------- runs in two parts ----------

  lemma {:induction false} ExecConcat(s: State, es: seq<Event>, more: seq<Event>, gap: int)
    requires Legal(s, es + more, gap)
    ensures Legal(s, es, gap) && Legal(Exec(s, es, gap), more, gap)
    ensures Exec(s, es + more, gap) == Exec(Exec(s, es, gap), more, gap)
    decreases |es|
  {
    hide Apply, Possible, Timely;
    if es == [] {
      assert es + more == more;
    } else {
      assert (es + more)[1..] == es[1..] + more;
      ExecConcat(Apply(s, es[0]), es[1..], more, gap);
    }
  }

  // ---------- the last heartbeat ----------

  // e writes a lease for account a: taken, or renewed by any run's heartbeat.
  predicate Leases(s: State, e: Event, a: AccountId) {
    (e.Acquire? && e.account == a) || (e.BeatLease? && e.run in s.runs && s.runs[e.run].account == Some(a))
  }

  // When that last happened; `last` if it never did.
  ghost function LastLease(s: State, es: seq<Event>, a: AccountId, gap: int, last: int): int
    requires Legal(s, es, gap)
    decreases |es|
  {
    if es == [] then last
    else LastLease(Apply(s, es[0]), es[1..], a, gap, if Leases(s, es[0], a) then s.now else last)
  }

  // A lease in use expires one timeout after its last heartbeat.
  ghost predicate LeasedAt(s: State, a: AccountId, last: int) {
    a in s.accounts ==>
      s.accounts[a].status == InUse ==> s.accounts[a].leaseExpiresAt == Some(last + ACCOUNT_LEASE_TIMEOUT_S)
  }

  lemma LeaseStep(s: State, e: Event, a: AccountId, last: int)
    requires LeasedAt(s, a, last) && Possible(s, e)
    ensures LeasedAt(Apply(s, e), a, if Leases(s, e, a) then s.now else last)
  {
    hide JobsAfter, RunsAfter, QueueAfter;
  }

  lemma {:induction false} LeaseFollowsBeats(s: State, es: seq<Event>, a: AccountId, gap: int, last: int)
    requires LeasedAt(s, a, last) && Legal(s, es, gap)
    ensures LeasedAt(Exec(s, es, gap), a, LastLease(s, es, a, gap, last))
    decreases |es|
  {
    hide LeasedAt, Apply, Leases, Possible, Timely;
    if es != [] {
      LeaseStep(s, es[0], a, last);
      LeaseFollowsBeats(Apply(s, es[0]), es[1..], a, gap, if Leases(s, es[0], a) then s.now else last);
    }
  }

  // ---------- an account whose holder died ----------

  // In use, and no live run holds it. A run that held it before and is about
  // to end may still renew it.
  ghost predicate LeftBehind(s: State, a: AccountId) {
    a in s.accounts && s.accounts[a].status == InUse && forall r :: !Holds(s, r, a)
  }

  lemma CrashLeavesAccount(s: State, r: RunId, a: AccountId)
    requires HoldersInv(s) && Holds(s, r, a) && Possible(s, Crash(r))
    ensures LeftBehind(Apply(s, Crash(r)), a)
  {
    hide JobsAfter, QueueAfter;
    assert Held(s.accounts, s.runs[r]);
  }

  lemma LeftRow(s: State, e: Event, a: AccountId, gap: int)
    requires LeftBehind(s, a) && Enabled(s, e, gap)
    ensures a in AccountsAfter(s, e)
    ensures if e == ReapLeases && Stale(s.accounts[a], s.now) then AccountsAfter(s, e)[a] == Freed(s.accounts[a])
            else AccountsAfter(s, e)[a].status == InUse
  {
    hide JobsAfter, QueueAfter;
    assert e.Release? ==> !Holds(s, e.run, a);
  }

  lemma LeftUnheld(s: State, e: Event, a: AccountId, r: RunId)
    requires LeftBehind(s, a) && Possible(s, e)
    ensures !Holds(Apply(s, e), r, a)
  {
    hide JobsAfter, AccountsAfter, QueueAfter;
    assert !Holds(s, r, a);
  }

  lemma LeftStep(s: State, e: Event, a: AccountId, gap: int)
    requires LeftBehind(s, a) && Enabled(s, e, gap)
    ensures var t := Apply(s, e);
            if e == ReapLeases && Stale(s.accounts[a], s.now) then a in t.accounts && t.accounts[a] == Freed(s.accounts[a])
            else LeftBehind(t, a)
  {
    hide AccountsAfter, JobsAfter, RunsAfter, QueueAfter, Possible, Timely, Holds, Stale, Freed;
    LeftRow(s, e, a, gap);
    forall r
      ensures !Holds(Apply(s, e), r, a)
    {
      LeftUnheld(s, e, a, r);
    }
  }

  // At some point of the continuation a reaper has freed the account.
  ghost predicate FreedDuring(s: State, es: seq<Event>, a: AccountId, gap: int)
    requires Legal(s, es, gap)
    decreases |es|
  {
    es != [] && ((es[0] == ReapLeases && a in s.accounts && Stale(s.accounts[a], s.now))
                 || FreedDuring(Apply(s, es[0]), es[1..], a, gap))
  }

  lemma {:induction false} LeftWaits(s: State, es: seq<Event>, a: AccountId, gap: int)
    requires LeftBehind(s, a) && Legal(s, es, gap)
    ensures FreedDuring(s, es, a, gap) || LeftBehind(Exec(s, es, gap), a)
    decreases |es|
  {
    hide Holds, Possible, Timely, Apply, Stale;
    if es != [] {
      LeftStep(s, es[0], a, gap);
      if !(es[0] == ReapLeases && Stale(s.accounts[a], s.now)) {
        LeftWaits(Apply(s, es[0]), es[1..], a, gap);
      }
    }
  }

  lemma ReapFrees(s: State, a: AccountId, last: int)
    requires LeftBehind(s, a) && LeasedAt(s, a, last) && s.now > last + ACCOUNT_LEASE_TIMEOUT_S
    ensures var t := Apply(s, ReapLeases);
            a in t.accounts && t.accounts[a].status == Active
            && t.accounts[a].lockedBy == None && t.accounts[a].leaseExpiresAt == None
  {
    hide JobsAfter, RunsAfter, QueueAfter;
  }

  // In any run of the system in which r dies holding a: once the timeout has
  // passed since the account's last heartbeat, a reaper has freed it, or the
  // next reaper run leaves it active and unlocked.
  lemma OrphanIsFreed(s: State, before: seq<Event>, r: RunId, a: AccountId, after: seq<Event>, gap: int)
    requires 0 <= gap <= ACCOUNT_LEASE_TIMEOUT_S && Initial(s)
    requires Legal(s, before + ([Crash(r)] + after), gap) && Legal(s, before, gap) && Holds(Exec(s, before, gap), r, a)
    requires var all := before + ([Crash(r)] + after);
             Exec(s, all, gap).now > LastLease(s, all, a, gap, 0) + ACCOUNT_LEASE_TIMEOUT_S
    ensures Legal(Exec(s, before, gap), [Crash(r)] + after, gap)
    ensures FreedDuring(Exec(s, before, gap), [Crash(r)] + after, a, gap) ||
            (var t := Apply(Exec(s, before + ([Crash(r)] + after), gap), ReapLeases);
             a in t.accounts && t.accounts[a].status == Active
             && t.accounts[a].lockedBy == None && t.accounts[a].leaseExpiresAt == None)
  {
    hide Exec, FreedDuring, Legal, LastLease, Initial, Inv, HoldersInv, LeftBehind, LeasedAt, Apply, Holds, Possible, Timely;
    var run := [Crash(r)] + after;
    var m := Exec(s, before, gap);
    ExecConcat(s, before, run, gap);
    NothingInUse(s, a, gap);
    RunInv(s, before, gap);
    InvHolds(m, gap);
    FirstStep(m, Crash(r), after, a, gap);
    CrashLeavesAccount(m, r, a);
    LeftWaits(Apply(m, Crash(r)), after, a, gap);
    LeaseFollowsBeats(s, before + run, a, gap, 0);
    if !FreedDuring(m, run, a, gap) {
      ReapFrees(Exec(m, run, gap), a, LastLease(s, before + run, a, gap, 0));
    }
  }

  lemma NothingInUse(s: State, a: AccountId, gap: int)
    requires Initial(s)
    ensures Inv(s, gap) && LeasedAt(s, a, 0)
  {
    InitialInv(s, gap);
  }

  lemma InvHolds(s: State, gap: int)
    requires Inv(s, gap)
    ensures HoldersInv(s) && WorkersInv(s) && QueueInv(s)
  {
  }

  lemma FirstStep(s: State, e: Event, es: seq<Event>, a: AccountId, gap: int)
    requires Legal(s, [e] + es, gap)
    ensures Possible(s, e) && Legal(Apply(s, e), es, gap) && Exec(s, [e] + es, gap) == Exec(Apply(s, e), es, gap)
    ensures FreedDuring(Apply(s, e), es, a, gap) ==> FreedDuring(s, [e] + es, a, gap)
  {
    hide Apply, Possible, Timely;
    assert ([e] + es)[1..] == es;
  }

  // ---------- a job whose worker died ----------

  // e shows job j alive: picked up, or a heartbeat of any run of it.
  predicate Signs(s: State, e: Event, j: JobId) {
    (e.Pickup? && e.job == j) || (e.BeatJob? && e.run in s.runs && s.runs[e.run].job == j)
  }

  ghost function LastSignOf(s: State, es: seq<Event>, j: JobId, gap: int, last: int): int
    requires Legal(s, es, gap)
    decreases |es|
  {
    if es == [] then last
    else LastSignOf(Apply(s, es[0]), es[1..], j, gap, if Signs(s, es[0], j) then s.now else last)
  }

  ghost predicate SignedAt(s: State, j: JobId, last: int) {
    j in s.jobs ==> s.jobs[j].status == Running ==> LastSign(s.jobs[j]) == Some(last)
  }

  lemma SignStep(s: State, e: Event, j: JobId, last: int)
    requires SignedAt(s, j, last) && Possible(s, e)
    ensures SignedAt(Apply(s, e), j, if Signs(s, e, j) then s.now else last)
  {
    hide AccountsAfter, RunsAfter, QueueAfter;
  }

  lemma {:induction false} SignFollowsBeats(s: State, es: seq<Event>, j: JobId, gap: int, last: int)
    requires SignedAt(s, j, last) && Legal(s, es, gap)
    ensures SignedAt(Exec(s, es, gap), j, LastSignOf(s, es, j, gap, last))
    decreases |es|
  {
    hide SignedAt, Apply, Signs, Possible, Timely;
    if es != [] {
      SignStep(s, es[0], j, last);
      SignFollowsBeats(Apply(s, es[0]), es[1..], j, gap, if Signs(s, es[0], j) then s.now else last);
    }
  }

  // Running, without a message, and no live run will ever finish it. A run
  // that finished an earlier attempt may still beat for it.
  ghost predicate Stranded(s: State, j: JobId) {
    j in s.jobs && s.jobs[j].status == Running && j !in s.queue && forall r :: !WorksOn(s, r, j)
  }

  lemma CrashStrandsJob(s: State, r: RunId, j: JobId)
    requires WorkersInv(s) && QueueInv(s) && WorksOn(s, r, j) && Possible(s, Crash(r))
    ensures Stranded(Apply(s, Crash(r)), j) && Apply(s, Crash(r)).jobs == s.jobs
  {
    hide AccountsAfter;
    assert Worked(s.jobs, s.runs[r]);
  }

  // No event but the reaper takes the job out of "running": every other writer
  // has a working run, a message, or another status in hand.
  lemma StrandedUnwritten(s: State, e: Event, j: JobId)
    requires Stranded(s, j) && Possible(s, e) && JobWrite(s, e).Some?
    ensures var w := JobWrite(s, e).value;
            w.0 == j ==> w.1.status == Running && w.1.retryCount == s.jobs[j].retryCount
  {
    assert e.NoAccount? || e.Finish? ==> !WorksOn(s, e.run, j);
  }

  lemma StrandedJob(s: State, e: Event, j: JobId)
    requires Stranded(s, j) && Possible(s, e)
    ensures j in JobsAfter(s, e)
    ensures e == ReapJobs ==> JobsAfter(s, e)[j] == if Dead(s.jobs[j], s.now) then Reaped(s.jobs[j]) else s.jobs[j]
    ensures e != ReapJobs ==>
              JobsAfter(s, e)[j].status == Running && JobsAfter(s, e)[j].retryCount == s.jobs[j].retryCount
  {
    hide JobWrite, JobsAfter, QueueAfter, Dead, Reaped, Possible;
    JobsKept(s, e);
    if e != ReapJobs && JobWrite(s, e).Some? {
      StrandedUnwritten(s, e, j);
    }
  }

  lemma StrandedQueue(s: State, e: Event, j: JobId)
    requires Stranded(s, j) && Possible(s, e)
    ensures j !in QueueAfter(s, e)
  {
    hide WorksOn;
  }

  lemma StrandedRuns(s: State, e: Event, j: JobId, r: RunId)
    requires Stranded(s, j) && Possible(s, e)
    ensures !WorksOn(Apply(s, e), r, j)
  {
    hide AccountsAfter, JobsAfter, QueueAfter;
    assert !WorksOn(s, r, j);
  }

  lemma StrandedStep(s: State, e: Event, j: JobId, gap: int)
    requires Stranded(s, j) && Enabled(s, e, gap)
    ensures var t := Apply(s, e);
            if e == ReapJobs && Dead(s.jobs[j], s.now) then j in t.jobs && t.jobs[j] == Reaped(s.jobs[j])
            else Stranded(t, j) && t.jobs[j].retryCount == s.jobs[j].retryCount
  {
    hide AccountsAfter, JobsAfter, RunsAfter, QueueAfter, Possible, Timely, Dead, Reaped, WorksOn;
    StrandedJob(s, e, j);
    StrandedQueue(s, e, j);
    forall r
      ensures !WorksOn(Apply(s, e), r, j)
    {
      StrandedRuns(s, e, j, r);
    }
  }

  ghost predicate ReapedDuring(s: State, es: seq<Event>, j: JobId, gap: int)
    requires Legal(s, es, gap)
    decreases |es|
  {
    es != [] && ((es[0] == ReapJobs && j in s.jobs && Dead(s.jobs[j], s.now))
                 || ReapedDuring(Apply(s, es[0]), es[1..], j, gap))
  }

  lemma {:induction false} StrandedWaits(s: State, es: seq<Event>, j: JobId, gap: int)
    requires Stranded(s, j) && Legal(s, es, gap)
    ensures ReapedDuring(s, es, j, gap)
         || (Stranded(Exec(s, es, gap), j) && Exec(s, es, gap).jobs[j].retryCount == s.jobs[j].retryCount)
    decreases |es|
  {
    hide Possible, Timely, Apply, Dead, WorksOn;
    if es != [] {
      StrandedStep(s, es[0], j, gap);
      if !(es[0] == ReapJobs && Dead(s.jobs[j], s.now)) {
        StrandedWaits(Apply(s, es[0]), es[1..], j, gap);
      }
    }
  }

  lemma ReapTakes(s: State, j: JobId, last: int)
    requires Stranded(s, j) && SignedAt(s, j, last) && s.now > last + ACCOUNT_LEASE_TIMEOUT_S
    ensures var t := Apply(s, ReapJobs); j in t.jobs && t.jobs[j] == Reaped(s.jobs[j])
  {
    hide AccountsAfter, RunsAfter, QueueAfter, Reaped;
  }

  // In any run of the system in which r dies working on j: once the timeout
  // has passed since the job's last sign of life, a reaper has taken it, or
  // the next reaper run does, with the status its count calls for.
  lemma StrandedIsReaped(s: State, before: seq<Event>, r: RunId, j: JobId, after: seq<Event>, gap: int)
    requires 0 <= gap <= ACCOUNT_LEASE_TIMEOUT_S && Initial(s)
    requires Legal(s, before + ([Crash(r)] + after), gap) && Legal(s, before, gap) && WorksOn(Exec(s, before, gap), r, j)
    requires var all := before + ([Crash(r)] + after);
             Exec(s, all, gap).now > LastSignOf(s, all, j, gap, 0) + ACCOUNT_LEASE_TIMEOUT_S
    ensures Legal(Exec(s, before, gap), [Crash(r)] + after, gap) && j in Exec(s, before, gap).jobs
    ensures ReapedDuring(Exec(s, before, gap), [Crash(r)] + after, j, gap) ||
            (var t := Apply(Exec(s, before + ([Crash(r)] + after), gap), ReapJobs);
             var count := Exec(s, before, gap).jobs[j].retryCount;
             j in t.jobs && t.jobs[j].retryCount == count + 1
             && t.jobs[j].status == if count < SCRAPER_MAX_RETRIES then RetryPending else Failed)
  {
    hide Exec, ReapedDuring, Legal, LastSignOf, Initial, Inv, WorkersInv, QueueInv, SignedAt, Apply, WorksOn, Possible, Timely;
    var run := [Crash(r)] + after;
    var m := Exec(s, before, gap);
    ExecConcat(s, before, run, gap);
    NothingRuns(s, j, gap);
    RunInv(s, before, gap);
    InvHolds(m, gap);
    FirstJobStep(m, Crash(r), after, j, gap);
    CrashStrandsJob(m, r, j);
    StrandedWaits(Apply(m, Crash(r)), after, j, gap);
    SignFollowsBeats(s, before + run, j, gap, 0);
    if !ReapedDuring(m, run, j, gap) {
      ReapTakes(Exec(m, run, gap), j, LastSignOf(s, before + run, j, gap, 0));
    }
  }

  lemma NothingRuns(s: State, j: JobId, gap: int)
    requires Initial(s)
    ensures Inv(s, gap) && SignedAt(s, j, 0)
  {
    InitialInv(s, gap);
  }

  lemma FirstJobStep(s: State, e: Event, es: seq<Event>, j: JobId, gap: int)
    requires Legal(s, [e] + es, gap)
    ensures Possible(s, e) && Legal(Apply(s, e), es, gap) && Exec(s, [e] + es, gap) == Exec(Apply(s, e), es, gap)
    ensures ReapedDuring(Apply(s, e), es, j, gap) ==> ReapedDuring(s, [e] + es, j, gap)
  {
    hide Apply, Possible, Timely;
    assert ([e] + es)[1..] == es;
  }

  // ---------- retry counts ----------

  // Whether e counts an attempt against job j: a failure of a run of j, or a
  // reaper that finds j dead. A run that found no account counts nothing.
  predicate CountsAgainst(s: State, e: Event, j: JobId) {
    match e
    case Finish(r, o) => o.Failure? && r in s.runs && s.runs[r].job == j
    case ReapJobs => j in s.jobs && Dead(s.jobs[j], s.now)
    case _ => false
  }

  ghost function Attempts(s: State, es: seq<Event>, j: JobId, gap: int): nat
    requires Legal(s, es, gap)
    decreases |es|
  {
    if es == [] then 0
    else (if CountsAgainst(s, es[0], j) then 1 else 0) + Attempts(Apply(s, es[0]), es[1..], j, gap)
  }

  // A written row counts one more exactly for a failure of its own job.
  lemma CountWritten(s: State, e: Event, j: JobId)
    requires j in s.jobs && Possible(s, e) && e != ReapJobs
    ensures JobWrite(s, e).Some? && JobWrite(s, e).value.0 == j ==>
              JobWrite(s, e).value.1.retryCount == s.jobs[j].retryCount + if CountsAgainst(s, e, j) then 1 else 0
    ensures CountsAgainst(s, e, j) ==> JobWrite(s, e).Some? && JobWrite(s, e).value.0 == j
  {
  }

  lemma CountStep(s: State, e: Event, j: JobId, gap: int)
    requires j in s.jobs && Enabled(s, e, gap)
    ensures var t := Apply(s, e);
            j in t.jobs && t.jobs[j].retryCount == s.jobs[j].retryCount + if CountsAgainst(s, e, j) then 1 else 0
  {
    hide AccountsAfter, RunsAfter, JobsAfter, QueueAfter, JobWrite, Possible, Timely, Dead;
    JobsKept(s, e);
    if e != ReapJobs {
      CountWritten(s, e, j);
    }
  }

  lemma {:induction false} CountsAddUp(s: State, es: seq<Event>, j: JobId, gap: int)
    requires j in s.jobs && Legal(s, es, gap)
    ensures var t := Exec(s, es, gap);
            j in t.jobs && t.jobs[j].retryCount == s.jobs[j].retryCount + Attempts(s, es, j, gap)
    decreases |es|
  {
    hide AccountsAfter, JobsAfter, RunsAfter, Possible, Timely, QueueAfter, CountsAgainst;
    if es != [] {
      CountStep(s, es[0], j, gap);
      CountsAddUp(Apply(s, es[0]), es[1..], j, gap);
    }
  }

  // From any reachable state a job sees at most SCRAPER_MAX_RETRIES + 1
  // counted attempts in all, however often it finds no account in between;
  // a count beyond SCRAPER_MAX_RETRIES means the job has failed for good.
  lemma AttemptsAreBounded(s: State, es: seq<Event>, j: JobId, gap: int)
    requires 0 <= gap <= ACCOUNT_LEASE_TIMEOUT_S && Inv(s, gap) && j in s.jobs && Legal(s, es, gap)
    ensures s.jobs[j].retryCount + Attempts(s, es, j, gap) <= SCRAPER_MAX_RETRIES + 1
    ensures var t := Exec(s, es, gap);
            j in t.jobs && (t.jobs[j].retryCount > SCRAPER_MAX_RETRIES ==> t.jobs[j].status == Failed)
  {
    hide Exec, Legal, Attempts;
    RunInv(s, es, gap);
    CountsAddUp(s, es, j, gap);
    assert RetryBound(Exec(s, es, gap).jobs[j]);
  }

  // Without reaps the bound is one lower: process tests after it counts.
  ghost predicate Unreaped(s: State) {
    forall j :: j in s.jobs ==> NeverReaped(s.jobs[j])
  }

  predicate NeverReaped(j: Job) {
    j.retryCount <= SCRAPER_MAX_RETRIES - (if j.status == Failed then 0 else 1)
  }

  lemma UnreapedStep(s: State, e: Event, gap: int)
    requires Inv(s, gap) && Unreaped(s) && Enabled(s, e, gap) && e != ReapJobs
    ensures Unreaped(Apply(s, e))
  {
    hide Inv, BeatsBy, AccountsAfter, RunsAfter, JobsAfter, JobWrite, QueueAfter, Possible, Timely, NeverReaped;
    JobsKept(s, e);
    if JobWrite(s, e).Some? {
      UnreapedRow(s, e, gap);
    }
  }

  lemma UnreapedRow(s: State, e: Event, gap: int)
    requires Inv(s, gap) && Unreaped(s) && Enabled(s, e, gap) && JobWrite(s, e).Some?
    ensures NeverReaped(JobWrite(s, e).value.1)
  {
    hide HoldersInv, ClockInv, RetryInv, BeatsBy;
    var j := JobWrite(s, e).value.0;
    assert j in s.jobs ==> NeverReaped(s.jobs[j]);
    match e
    case Finish(r, _) => assert Worked(s.jobs, s.runs[r]);
    case NoAccount(r) => assert Worked(s.jobs, s.runs[r]);
    case Pickup(_, _) => NoMessageFor(s);
    case _ =>
  }

  lemma {:induction false} RetriesWithoutReaps(s: State, es: seq<Event>, gap: int)
    requires 0 <= gap <= ACCOUNT_LEASE_TIMEOUT_S && Inv(s, gap) && Unreaped(s) && Legal(s, es, gap)
    requires ReapJobs !in es
    ensures Unreaped(Exec(s, es, gap))
    decreases |es|
  {
    hide AccountsAfter, JobsAfter, RunsAfter, Possible, Timely, QueueAfter, Inv, Unreaped, Apply;
    if es != [] {
      StepInv(s, es[0], gap);
      UnreapedStep(s, es[0], gap);
      RetriesWithoutReaps(Apply(s, es[0]), es[1..], gap);
    }
  }

  // With reaps the higher bound is reached. A dead job one short of the limit
  // is still handed out again, with the limit already counted ...
  lemma ReaperHandsOutOnceMore(s: State, j: JobId, r: RunId)
    requires j in s.jobs && Dead(s.jobs[j], s.now) && s.jobs[j].retryCount == SCRAPER_MAX_RETRIES - 1 && r !in s.runs
    ensures var s1 := Apply(s, ReapJobs);
            Possible(s1, Retry(j)) && var s2 := Apply(s1, Retry(j));
            Possible(s2, Pickup(r, j)) && var s3 := Apply(s2, Pickup(r, j));
            && WorksOn(s3, r, j) && s3.runs[r].phase == Starting && s3.accounts == s.accounts
            && j in s3.jobs && s3.jobs[j].retryCount == SCRAPER_MAX_RETRIES
  {
  }

  // ... so that its next failure is one count beyond the limit.
  lemma FailureAtTheLimit(s: State, j: JobId, r: RunId, a: AccountId, w: string, kind: FailureKind)
    requires WorksOn(s, r, j) && s.runs[r].phase == Starting && j in s.jobs && s.jobs[j].retryCount == SCRAPER_MAX_RETRIES
    requires a in s.accounts && Eligible(s.accounts[a], s.now)
    ensures Possible(s, Acquire(r, a, w)) && var s1 := Apply(s, Acquire(r, a, w));
            Possible(s1, Finish(r, Failure(kind))) && var s2 := Apply(s1, Finish(r, Failure(kind)));
            j in s2.jobs && s2.jobs[j].retryCount == SCRAPER_MAX_RETRIES + 1 && s2.jobs[j].status == LeaseModel.Failed
  {
  }

  // ---------- an account's failures ----------

  // The failures on record after event e, if there were `count` before: a run
  // that failed adds one when it releases the account, any other run that
  // releases it clears them, and so does reactivation.
  function RecordAfter(s: State, e: Event, a: AccountId, count: nat): nat
    requires Possible(s, e)
  {
    match e
    case Release(r) =>
      if s.runs[r].account != Some(a) then count
      else if s.runs[r].phase.outcome.Failure? then count + 1
      else 0
    case Reactivate(b) => if b == a then 0 else count
    case _ => count
  }

  ghost function Record(s: State, es: seq<Event>, a: AccountId, gap: int, count: nat): nat
    requires Legal(s, es, gap)
    decreases |es|
  {
    if es == [] then count else Record(Apply(s, es[0]), es[1..], a, gap, RecordAfter(s, es[0], a, count))
  }

  lemma RecordStep(s: State, e: Event, a: AccountId)
    requires a in s.accounts && Possible(s, e)
    ensures a in Apply(s, e).accounts
    ensures Apply(s, e).accounts[a].failureCount == RecordAfter(s, e, a, s.accounts[a].failureCount)
  {
    hide JobsAfter, RunsAfter, QueueAfter;
  }

  // Over any run an account's failure count is the number of runs that
  // released it after a failure since the last that released it after none,
  // or since it was reactivated.
  lemma {:induction false} FailuresFollowRuns(s: State, es: seq<Event>, a: AccountId, gap: int)
    requires a in s.accounts && Legal(s, es, gap)
    ensures var t := Exec(s, es, gap);
            a in t.accounts && t.accounts[a].failureCount == Record(s, es, a, gap, s.accounts[a].failureCount)
    decreases |es|
  {
    hide Apply, Possible, Timely, RecordAfter;
    if es != [] {
      RecordStep(s, es[0], a);
      FailuresFollowRuns(Apply(s, es[0]), es[1..], a, gap);
    }
  }

  datatype Use = Use(worker: string, outcome: AccountOutcome, at: int)

  // The row after a series of leases, each acquired and released once.
  function UsedFor(a: Account, uses: seq<Use>): Account {
    if uses == [] then a
    else
      var u := uses[|uses| - 1];
      Released(Acquired(UsedFor(a, uses[..|uses| - 1]), u.worker, u.at), u.outcome, u.at)
  }

  // How many uses have failed since the last success.
  function Streak(uses: seq<Use>): nat {
    if uses == [] || uses[|uses| - 1].outcome == Success then 0 else Streak(uses[..|uses| - 1]) + 1
  }

  lemma {:induction false} FailuresAreTheStreak(a: Account, uses: seq<Use>)
    requires a.failureCount == 0
    ensures UsedFor(a, uses).failureCount == Streak(uses)
  {
    if uses != [] {
      FailuresAreTheStreak(a, uses[..|uses| - 1]);
    }
  }

  // An account is disabled exactly by an error that ends a run of at least
  // five uses without a success, whatever the other failures were.
  lemma DisabledIff(a: Account, uses: seq<Use>)
    requires a.failureCount == 0 && uses != []
    ensures UsedFor(a, uses).status == Disabled <==>
            uses[|uses| - 1].outcome == Error && Streak(uses) >= ACCOUNT_MAX_CONSECUTIVE_FAILURES
  {
    FailuresAreTheStreak(a, uses);
  }

  // Rate limits alone never disable an account, but they count: one error
  // after four of them does.
  lemma RateLimitsCount(a: Account, uses: seq<Use>, last: Use)
    requires a.failureCount == 0 && a.status != Disabled
    requires forall u :: u in uses ==> u.outcome.RateLimited?
    ensures UsedFor(a, uses).status != Disabled
    ensures last.outcome == Error ==>
              (UsedFor(a, uses + [last]).status == Disabled <==> |uses| + 1 >= ACCOUNT_MAX_CONSECUTIVE_FAILURES)
  {
    hide UsedFor;
    if uses != [] {
      DisabledIff(a, uses);
    } else {
      NoUse(a);
    }
    DisabledIff(a, uses + [last]);
    assert (uses + [last])[..|uses|] == uses;
    LongStreak(uses);
  }

  lemma NoUse(a: Account)
    ensures UsedFor(a, []) == a
  {
  }

  lemma {:induction false} LongStreak(uses: seq<Use>)
    requires forall u :: u in uses ==> u.outcome.RateLimited?
    ensures Streak(uses) == |uses|
  {
    if uses != [] {
      LongStreak(uses[..|uses| - 1]);
    }
  }
}
