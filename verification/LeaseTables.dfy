// The repositories, one run of JobProcessor.process and the scheduler's retry
// tick as they change their tables in place. Each method is one or more
// events of LeaseModel.dfy.
module LeaseTables {
  import opened Common
  import opened LeaseModel
  import opened LeaseSafety

  // Never used comes first, then the longest unused.
  predicate UsedBefore(a: Account, b: Account) {
    b.lastUsedAt.Some? && (a.lastUsedAt.None? || a.lastUsedAt.value < b.lastUsedAt.value)
  }

  function EligibleIds(rows: map<AccountId, Account>, now: int): set<AccountId> {
    set id | id in rows && Eligible(rows[id], now)
  }

  predicate LeastRecent(rows: map<AccountId, Account>, ids: set<AccountId>, id: AccountId)
    requires ids <= rows.Keys
  {
    id in ids && forall b :: b in ids ==> !UsedBefore(rows[b], rows[id])
  }

  lemma {:induction false} SomeLeastRecent(rows: map<AccountId, Account>, ids: set<AccountId>) returns (id: AccountId)
    requires ids != {} && ids <= rows.Keys
    ensures LeastRecent(rows, ids, id)
    decreases ids
  {
    id :| id in ids;
    if ids != {id} {
      var other := SomeLeastRecent(rows, ids - {id});
      if !UsedBefore(rows[id], rows[other]) {
        id := other;
      }
    }
  }

  // No row but this one was written.
  ghost predicate OnlyRow<V(!new)>(was: map<nat, V>, rows: map<nat, V>, id: nat) {
    id in was && id in rows && rows == was[id := rows[id]]
  }

  // Account b can be had now.
  ghost predicate Free(rows: map<AccountId, Account>, now: int, locked: set<AccountId>, b: AccountId) {
    && b in rows && b !in locked && rows[b].status == Active
    && forall until :: rows[b].cooldownUntil == Some(until) ==> until <= now
  }

  // Account a is next: of those that can be had none was never used while a
  // was, and none was used longer ago.
  ghost predicate Next(rows: map<AccountId, Account>, now: int, locked: set<AccountId>, a: AccountId) {
    && Free(rows, now, locked, a)
    && forall b, at :: Free(rows, now, locked, b) && rows[a].lastUsedAt == Some(at) ==>
         rows[b].lastUsedAt.Some? && at <= rows[b].lastUsedAt.value
  }

  lemma LeastRecentIsNext(rows: map<AccountId, Account>, now: int, locked: set<AccountId>)
    ensures forall b :: b in EligibleIds(rows, now) - locked <==> Free(rows, now, locked, b)
    ensures forall a :: LeastRecent(rows, EligibleIds(rows, now) - locked, a) ==> Next(rows, now, locked, a)
  {
    forall b
      ensures b in EligibleIds(rows, now) - locked <==> Free(rows, now, locked, b)
    {
      if b in rows && rows[b].cooldownUntil.Some? {
        assert rows[b].cooldownUntil == Some(rows[b].cooldownUntil.value);
      }
    }
  }

  // The row of an account just leased: to whom, from when, until when.
  ghost predicate LeasedTo(was: Account, worker: string, now: int, row: Account) {
    && row.status == InUse && row.lockedBy == Some(worker) && row.lastUsedAt == Some(now)
    && row.leaseExpiresAt == Some(now + ACCOUNT_LEASE_TIMEOUT_S)
    && row.cooldownUntil == was.cooldownUntil && row.failureCount == was.failureCount
  }

  // The row of an account just released, outcome by outcome.
  ghost predicate ReleasedAs(was: Account, outcome: AccountOutcome, now: int, row: Account) {
    && row.lockedBy == None && row.leaseExpiresAt == None && row.lastUsedAt == was.lastUsedAt
    && row.failureCount == (if outcome == Success then 0 else was.failureCount + 1)
    && (outcome.RateLimited? ==>
          row.cooldownUntil == Some(now + if outcome.retryAfter in {None, Some(0)} then 60 else outcome.retryAfter.value))
    && (!outcome.RateLimited? ==> row.cooldownUntil == was.cooldownUntil)
    && (row.status == CheckpointRequired <==> outcome == Blocked)
    && (row.status == Disabled <==> outcome == Error && was.failureCount + 1 >= ACCOUNT_MAX_CONSECUTIVE_FAILURES)
    && row.status != InUse
  }

  // After a release the account can be had again exactly if it was neither
  // blocked nor disabled, from the end of its cooldown on.
  lemma AvailableAgain(was: Account, outcome: AccountOutcome, now: int, id: AccountId, t: int)
    requires now <= t && forall until :: was.cooldownUntil == Some(until) ==> until <= now
    ensures Free(map[id := Released(was, outcome, now)], t, {}, id) <==>
              match outcome
              case Success => true
              case RateLimited(after) => now + (if after == None || after == Some(0) then 60 else after.value) <= t
              case Blocked => false
              case Error => was.failureCount + 1 < ACCOUNT_MAX_CONSECUTIVE_FAILURES
  {
    var row := Released(was, outcome, now);
    assert row.cooldownUntil.Some? ==> row.cooldownUntil == Some(row.cooldownUntil.value);
  }

  // What neither a lease nor its end touches.
  predicate SameHistory(a: Account, b: Account) {
    a.lastUsedAt == b.lastUsedAt && a.cooldownUntil == b.cooldownUntil && a.failureCount == b.failureCount
  }

  function Changed<V(==)>(was: map<nat, V>, rows: map<nat, V>): set<nat> {
    set id | id in was && id in rows && was[id] != rows[id]
  }

  ghost predicate RanOut(a: Account, now: int) {
    a.status == InUse && exists expiry :: a.leaseExpiresAt == Some(expiry) && expiry < now
  }

  ghost predicate LeasesSwept(was: map<AccountId, Account>, rows: map<AccountId, Account>, now: int) {
    && rows.Keys == was.Keys
    && (forall id :: id in rows ==> !RanOut(rows[id], now))
    && (forall id :: id in rows ==> (rows[id] != was[id] <==> RanOut(was[id], now)))
    && (forall id :: id in rows && rows[id] != was[id] ==>
          && rows[id].status == Active && rows[id].lockedBy == None && rows[id].leaseExpiresAt == None
          && SameHistory(was[id], rows[id]))
  }

  function FreeThese(rows: map<AccountId, Account>, ids: set<AccountId>): map<AccountId, Account> {
    map id | id in rows :: if id in ids then Freed(rows[id]) else rows[id]
  }

  lemma SweepFrees(rows: map<AccountId, Account>, now: int, stale: set<AccountId>)
    requires stale == set id | id in rows && Stale(rows[id], now)
    ensures FreeThese(rows, stale) == FreeStale(rows, now)
    ensures LeasesSwept(rows, FreeStale(rows, now), now) && Changed(rows, FreeStale(rows, now)) == stale
  {
    var next := FreeStale(rows, now);
    assert forall id :: id in rows ==> (next[id] != rows[id] <==> id in stale);
  }

  // Running, and not heard of for longer than the timeout: since its last
  // heartbeat or, if it never sent one, since it started. A job that has
  // neither time is never silent.
  ghost predicate Silent(j: Job, now: int) {
    && j.status == Running
    && (exists t :: (j.lastHeartbeatAt == Some(t) || (j.lastHeartbeatAt == None && j.startedAt == Some(t)))
                    && t + ACCOUNT_LEASE_TIMEOUT_S < now)
  }

  ghost predicate JobsSwept(was: map<JobId, Job>, rows: map<JobId, Job>, now: int) {
    && rows.Keys == was.Keys
    && (forall id :: id in rows ==> !Silent(rows[id], now))
    && (forall id :: id in rows ==> (rows[id] != was[id] <==> Silent(was[id], now)))
    && (forall id :: id in rows && rows[id] != was[id] ==> Handed(was[id], rows[id]))
  }

  // One more attempt on the count; failed if the limit was reached before.
  predicate Handed(was: Job, job: Job) {
    && job.retryCount == was.retryCount + 1
    && job.status == (if job.retryCount > SCRAPER_MAX_RETRIES then LeaseModel.Failed else RetryPending)
    && job.startedAt == was.startedAt && job.lastHeartbeatAt == was.lastHeartbeatAt
    && job.cancelRequestedAt == was.cancelRequestedAt
  }

  function ReapThese(rows: map<JobId, Job>, ids: set<JobId>): map<JobId, Job> {
    map id | id in rows :: if id in ids then Reaped(rows[id]) else rows[id]
  }

  lemma SweepReaps(rows: map<JobId, Job>, now: int, dead: set<JobId>)
    requires dead == set id | id in rows && Dead(rows[id], now)
    ensures ReapThese(rows, dead) == ReapDead(rows, now)
    ensures JobsSwept(rows, ReapDead(rows, now), now) && Changed(rows, ReapDead(rows, now)) == dead
  {
    var next := ReapDead(rows, now);
    assert forall id :: id in rows ==> (next[id] != rows[id] <==> id in dead);
  }

  class AccountTable {
    var rows: map<AccountId, Account>

    constructor (rows: map<AccountId, Account>)
      ensures this.rows == rows
    {
      this.rows := rows;
    }

    // Claims the least recently used healthy account that is not cooling down
    // and whose row no other transaction has locked (skip_locked).
    method AcquireHealthyAccount(worker: string, now: int, locked: set<AccountId>) returns (r: Option<AccountId>)
      modifies this
      ensures r.None? <==> forall b :: !Free(old(rows), now, locked, b)
      ensures r.None? ==> rows == old(rows)
      ensures r.Some? ==> Next(old(rows), now, locked, r.value)
      ensures r.Some? ==> OnlyRow(old(rows), rows, r.value)
      ensures r.Some? ==> LeasedTo(old(rows)[r.value], worker, now, rows[r.value])
    {
      hide Free, Next;
      LeastRecentIsNext(rows, now, locked);
      var ids := EligibleIds(rows, now) - locked;
      if ids == {} {
        return None;
      }
      ghost var least := SomeLeastRecent(rows, ids);
      var id :| id in ids && LeastRecent(rows, ids, id);
      rows := rows[id := Acquired(rows[id], worker, now)];
      r := Some(id);
    }

    // Whatever the row's status or owner: its lease runs a full timeout from
    // now, and nothing else about it changes.
    method RenewLease(id: AccountId, now: int)
      modifies this
      ensures rows.Keys == old(rows).Keys
      ensures forall other :: other in rows && other != id ==> rows[other] == old(rows)[other]
      ensures id in rows ==>
                && rows[id] == old(rows)[id].(leaseExpiresAt := rows[id].leaseExpiresAt)
                && (forall t :: Stale(rows[id], t) <==> rows[id].status == InUse && t > now + ACCOUNT_LEASE_TIMEOUT_S)
    {
      if id in rows {
        rows := rows[id := Renewed(rows[id], now)];
      }
    }

    method Release(id: AccountId, outcome: AccountOutcome, now: int)
      modifies this
      ensures rows == if id in old(rows) then old(rows)[id := Released(old(rows)[id], outcome, now)] else old(rows)
      ensures id in rows ==> ReleasedAs(old(rows)[id], outcome, now, rows[id])
    {
      if id !in rows {
        return;
      }
      var a := rows[id].(lockedBy := None, leaseExpiresAt := None);
      match outcome {
        case Success => a := a.(status := Active, failureCount := 0);
        case RateLimited(after) =>
          var cooldown := if after.None? || after.value == 0 then 60 else after.value;
          a := a.(status := Active, failureCount := a.failureCount + 1, cooldownUntil := Some(now + cooldown));
        case Blocked => a := a.(status := CheckpointRequired, failureCount := a.failureCount + 1);
        case Error => a := a.(status := Active, failureCount := a.failureCount + 1);
      }
      if !outcome.RateLimited? && a.status == Active && a.failureCount >= ACCOUNT_MAX_CONSECUTIVE_FAILURES {
        a := a.(status := Disabled);
      }
      rows := rows[id := a];
    }

    // Afterwards no lease is stale. Exactly the rows that had one changed;
    // those are free, with their history as it was.
    method ReleaseStaleLeases(now: int) returns (count: nat)
      modifies this
      ensures LeasesSwept(old(rows), rows, now) && count == |Changed(old(rows), rows)|
      ensures rows == FreeStale(old(rows), now)
    {
      hide LeasesSwept, FreeStale, Changed, FreeThese;
      var stale := set id | id in rows && Stale(rows[id], now);
      count := |stale|;
      SweepFrees(rows, now, stale);
      rows := FreeThese(rows, stale);
    }

    // Makes the account available whatever it was doing: from the end of its
    // cooldown on it can be acquired, lease or no lease.
    method Reactivate(id: AccountId)
      modifies this
      ensures rows.Keys == old(rows).Keys
      ensures forall other :: other in rows && other != id ==> rows[other] == old(rows)[other]
      ensures id in rows ==>
                && (forall t :: Eligible(rows[id], t) <==> rows[id].cooldownUntil.None? || rows[id].cooldownUntil.value <= t)
                && rows[id] == old(rows)[id].(status := rows[id].status, failureCount := 0)
    {
      if id in rows {
        rows := rows[id := Reactivated(rows[id])];
      }
    }
  }

  datatype CancelResult = Accepted | NotFound | NotCancellable(status: JobStatus)

  class JobTable {
    var rows: map<JobId, Job>
    var queue: seq<JobId>

    constructor ()
      ensures rows == map[] && queue == []
    {
      rows, queue := map[], [];
    }

    // Keeps the reaper away for a full timeout, whatever the row said before;
    // tells the worker whether a cancel was requested.
    method Heartbeat(id: JobId, now: int) returns (cancel: bool)
      modifies this`rows
      ensures rows.Keys == old(rows).Keys
      ensures forall other :: other in rows && other != id ==> rows[other] == old(rows)[other]
      ensures id in rows ==>
                && rows[id] == old(rows)[id].(lastHeartbeatAt := rows[id].lastHeartbeatAt)
                && (forall t :: Dead(rows[id], t) <==> rows[id].status == Running && t > now + ACCOUNT_LEASE_TIMEOUT_S)
      ensures cancel <==> id in old(rows) && old(rows)[id].cancelRequestedAt.Some?
    {
      cancel := false;
      if id in rows {
        rows := rows[id := rows[id].(lastHeartbeatAt := Some(now))];
        cancel := rows[id].cancelRequestedAt.Some?;
      }
    }

    // Afterwards no running job is silent for longer than the timeout. Exactly
    // the rows of such jobs changed: one more retry, and out of "running".
    method ReapStaleRunning(now: int) returns (count: nat)
      modifies this`rows
      ensures JobsSwept(old(rows), rows, now) && count == |Changed(old(rows), rows)|
      ensures rows == ReapDead(old(rows), now)
    {
      hide JobsSwept, ReapDead, Changed, ReapThese;
      var dead := set id | id in rows && Dead(rows[id], now);
      count := |dead|;
      SweepReaps(rows, now, dead);
      rows := ReapThese(rows, dead);
    }

    method RequestCancel(id: JobId, now: int) returns (r: CancelResult)
      modifies this`rows
      ensures r == NotFound <==> id !in old(rows)
      ensures r == Accepted ==>
                && id in old(rows) && OnlyRow(old(rows), rows, id)
                && rows[id] == if old(rows)[id].status == Running then old(rows)[id].(cancelRequestedAt := Some(now))
                               else old(rows)[id].(status := Cancelled)
      ensures r == Accepted ==> rows[id] == CancelRequested(old(rows)[id], now)
      ensures r != Accepted ==> rows == old(rows)
      ensures r.NotCancellable? <==> id in old(rows) && old(rows)[id].status in {Completed, Failed, Cancelled}
    {
      if id !in rows {
        return NotFound;
      }
      var j := rows[id];
      if j.status == Queued || j.status == RetryPending {
        rows := rows[id := j.(status := Cancelled)];
      } else if j.status == Running {
        rows := rows[id := j.(cancelRequestedAt := Some(now))];
      } else {
        return NotCancellable(j.status);
      }
      r := Accepted;
    }

    // Requeues every listed job whose influencer is active, one message each,
    // whatever became of the job since the list was read.
    method RetryFailedScrapes(pending: seq<JobId>, active: set<JobId>) returns (count: nat)
      requires forall k :: 0 <= k < |pending| ==> pending[k] in rows
      requires forall i, k :: 0 <= i < k < |pending| ==> pending[i] != pending[k]
      modifies this
      ensures Requeued(old(rows), pending, active, rows)
      ensures queue == old(queue) + Dispatched(pending, active) && count == |Dispatched(pending, active)|
    {
      hide Requeued, Dispatched;
      count := 0;
      assert pending[..0] == [];
      RequeueNone(rows, active);
      for k := 0 to |pending|
        invariant rows.Keys == old(rows).Keys
        invariant Requeued(old(rows), pending[..k], active, rows)
        invariant queue == old(queue) + Dispatched(pending[..k], active)
        invariant count == |Dispatched(pending[..k], active)|
      {
        var id := pending[k];
        assert pending[..k + 1] == pending[..k] + [id];
        RequeueOne(old(rows), pending[..k], active, rows, id);
        if id in active {
          rows := rows[id := rows[id].(status := Queued)];
          queue := queue + [id];
          count := count + 1;
        }
      }
      assert pending[..|pending|] == pending;
    }
  }

  // What is enqueued is the list without the jobs of inactive influencers:
  // nothing else, nothing twice, nothing out of order.
  lemma {:induction false} DispatchedAre(pending: seq<JobId>, active: set<JobId>) returns (at: seq<nat>)
    ensures Selected(pending, active, Dispatched(pending, active), at)
  {
    hide Selected;
    at := [];
    if pending == [] {
      NoneSelected(active);
    } else {
      var n := |pending| - 1;
      at := DispatchedAre(pending[..n], active);
      SelectOne(pending, active, Dispatched(pending[..n], active), at);
      at := at + if pending[n] in active then [n] else [];
    }
  }

  // `out` is `pending` at the places `at`: in order, all those in `active`.
  ghost predicate Selected(pending: seq<JobId>, active: set<JobId>, out: seq<JobId>, at: seq<nat>) {
    && |at| == |out|
    && (forall k :: 0 <= k < |at| ==> at[k] < |pending| && out[k] == pending[at[k]])
    && (forall i, k :: 0 <= i < k < |at| ==> at[i] < at[k])
    && (forall j :: 0 <= j < |pending| ==> (pending[j] in active <==> j in at))
  }

  lemma NoneSelected(active: set<JobId>)
    ensures Selected([], active, [], [])
  {
  }

  lemma SelectOne(pending: seq<JobId>, active: set<JobId>, out: seq<JobId>, at: seq<nat>)
    requires pending != [] && Selected(pending[..|pending| - 1], active, out, at)
    ensures var n := |pending| - 1;
            Selected(pending, active, out + (if pending[n] in active then [pending[n]] else []),
                     at + if pending[n] in active then [n] else [])
  {
    var n := |pending| - 1;
    var more := at + if pending[n] in active then [n] else [];
    assert forall k :: 0 <= k < |at| ==> pending[..n][at[k]] == pending[at[k]];
    forall j | 0 <= j < |pending|
      ensures pending[j] in active <==> j in more
    {
      if j < n {
        assert pending[..n][j] == pending[j];
      } else if pending[n] in active {
        assert more[|at|] == n;
      }
    }
  }

  // The rows after the listed jobs of active influencers were queued again.
  ghost predicate Requeued(was: map<JobId, Job>, pending: seq<JobId>, active: set<JobId>, rows: map<JobId, Job>) {
    && rows.Keys == was.Keys
    && forall id :: id in rows ==>
         rows[id] == if id in pending && id in active then was[id].(status := Queued) else was[id]
  }

  lemma RequeueNone(rows: map<JobId, Job>, active: set<JobId>)
    ensures Requeued(rows, [], active, rows) && Dispatched([], active) == []
  {
  }

  lemma RequeueOne(was: map<JobId, Job>, pending: seq<JobId>, active: set<JobId>, rows: map<JobId, Job>, id: JobId)
    requires Requeued(was, pending, active, rows) && id in rows && id !in pending
    ensures Requeued(was, pending + [id], active, if id in active then rows[id := rows[id].(status := Queued)] else rows)
    ensures Dispatched(pending + [id], active) == Dispatched(pending, active) + if id in active then [id] else []
  {
    assert (pending + [id])[..|pending|] == pending;
  }

  function Dispatched(pending: seq<JobId>, active: set<JobId>): seq<JobId> {
    if pending == [] then []
    else
      var last := pending[|pending| - 1];
      Dispatched(pending[..|pending| - 1], active) + if last in active then [last] else []
  }

  // The row of a job whose run came to `scrape`.
  ghost predicate EndedAs(was: Job, scrape: Outcome, now: int, row: Job) {
    && row.startedAt == Some(now) && row.lastHeartbeatAt == Some(now) && row.cancelRequestedAt == was.cancelRequestedAt
    && row.retryCount == was.retryCount + (if scrape.Failure? then 1 else 0)
    && (row.status == Completed <==> scrape == Done)
    && (row.status == Cancelled <==> scrape == WasCancelled)
    && (row.status == RetryPending <==> scrape.Failure? && row.retryCount < SCRAPER_MAX_RETRIES)
    && (row.status == LeaseModel.Failed <==>
          scrape == TargetNotFound || (scrape.Failure? && row.retryCount >= SCRAPER_MAX_RETRIES))
  }

  // The row of the account it used: a run that did not fail clears its
  // record, one that failed adds one failure of its kind.
  ghost predicate ReturnedAfter(was: Account, scrape: Outcome, now: int, row: Account) {
    && row.lastUsedAt == Some(now) && row.lockedBy == None && row.leaseExpiresAt == None
    && (!scrape.Failure? ==> row.status == Active && row.failureCount == 0 && row.cooldownUntil == was.cooldownUntil)
    && (scrape.Failure? ==> ReleasedAs(was.(lastUsedAt := Some(now)), scrape.kind, now, row))
  }

  // One run of process, with `scrape` for what _run_scrape came to. Whatever
  // it came to, the account acquired is released before the run is over.
  method Process(jobs: JobTable, accounts: AccountTable, id: JobId, worker: string, now: int, locked: set<AccountId>,
                 scrape: Outcome)
    returns (used: Option<AccountId>)
    modifies jobs`rows, accounts
    ensures id !in old(jobs.rows) ==> used == None && jobs.rows == old(jobs.rows) && accounts.rows == old(accounts.rows)
    ensures id in old(jobs.rows) && used.None? ==>
              && (forall b :: !Free(old(accounts.rows), now, locked, b)) && accounts.rows == old(accounts.rows)
              && jobs.rows == old(jobs.rows)[id := old(jobs.rows)[id].(status := RetryPending, startedAt := Some(now),
                                                                       lastHeartbeatAt := Some(now))]
    ensures id in old(jobs.rows) && used.Some? ==>
              && Next(old(accounts.rows), now, locked, used.value)
              && OnlyRow(old(jobs.rows), jobs.rows, id)
              && EndedAs(old(jobs.rows)[id], scrape, now, jobs.rows[id])
              && OnlyRow(old(accounts.rows), accounts.rows, used.value)
              && ReturnedAfter(old(accounts.rows)[used.value], scrape, now, accounts.rows[used.value])
    // ... and both rows are those the machine's events write
    ensures id in old(jobs.rows) && used.Some? ==>
              && jobs.rows[id] == Finished(Started(old(jobs.rows)[id], now), scrape)
              && accounts.rows[used.value]
                 == Released(Acquired(old(accounts.rows)[used.value], worker, now), ReleaseOutcome(scrape), now)
  {
    hide Free, Next, EligibleIds, Dead, Stale;
    used := None;
    if id !in jobs.rows {
      return;
    }
    jobs.rows := jobs.rows[id := Started(jobs.rows[id], now)];
    used := accounts.AcquireHealthyAccount(worker, now, locked);
    if used.None? {
      jobs.rows := jobs.rows[id := jobs.rows[id].(status := RetryPending)];
      return;
    }
    var j := jobs.rows[id];
    if scrape.WasCancelled? {
      j := j.(status := Cancelled);
    } else if scrape.TargetNotFound? {
      j := j.(status := Failed);
    } else if scrape.Failure? {
      j := j.(retryCount := j.retryCount + 1);
      j := j.(status := if j.retryCount < SCRAPER_MAX_RETRIES then RetryPending else Failed);
    } else {
      j := j.(status := Completed);
    }
    jobs.rows := jobs.rows[id := j];
    accounts.Release(used.value, ReleaseOutcome(scrape), now);
  }

  lemma TakesUp(s: State, r: RunId, id: JobId, a: AccountId, worker: string)
    requires r !in s.runs && id in s.queue && id in s.jobs && a in s.accounts && Eligible(s.accounts[a], s.now)
    ensures Possible(s, Pickup(r, id)) && var s1 := Apply(s, Pickup(r, id));
            Possible(s1, Acquire(r, a, worker)) && var s2 := Apply(s1, Acquire(r, a, worker));
            && s2.now == s.now
            && s2.jobs == s.jobs[id := Started(s.jobs[id], s.now)]
            && s2.accounts == s.accounts[a := Acquired(s.accounts[a], worker, s.now)]
            && r in s2.runs && s2.runs[r] == Run(id, Some(a), Holding, s.now, s.now)
  {
    hide Started, Acquired;
  }

  lemma GivesBack(s: State, r: RunId, id: JobId, a: AccountId, scrape: Outcome)
    requires r in s.runs && s.runs[r].phase == Holding && s.runs[r].job == id && s.runs[r].account == Some(a)
    requires id in s.jobs && a in s.accounts
    ensures Possible(s, Finish(r, scrape)) && var s1 := Apply(s, Finish(r, scrape));
            Possible(s1, LeaseModel.Release(r)) && var s2 := Apply(s1, LeaseModel.Release(r));
            && s2.jobs == s.jobs[id := Finished(s.jobs[id], scrape)]
            && s2.accounts == s.accounts[a := Released(s.accounts[a], ReleaseOutcome(scrape), s.now)]
  {
    hide Finished, Released;
  }

  // The events that write one row of a table write what the methods do.
  lemma EventsWriteRows(s: State, e: Event)
    requires Possible(s, e)
    ensures e.NoAccount? ==> JobWrite(s, e) == Some((s.runs[e.run].job, s.jobs[s.runs[e.run].job].(status := RetryPending)))
    ensures e.Retry? || e.LoseRetry? ==> JobWrite(s, e) == Some((e.job, s.jobs[e.job].(status := Queued)))
    ensures e.BeatJob? ==>
              JobWrite(s, e) == Some((s.runs[e.run].job, s.jobs[s.runs[e.run].job].(lastHeartbeatAt := Some(s.now))))
    ensures e.Dispatch? ==> JobWrite(s, e) == Some((e.job, Job(Queued, 0, None, None, None)))
    ensures e.Reactivate? ==>
              AccountWrite(s, e) == Some((e.account, s.accounts[e.account].(status := Active, failureCount := 0)))
    ensures e.BeatLease? ==>
              var a := s.runs[e.run].account.value;
              AccountWrite(s, e)
              == Some((a, s.accounts[a].(leaseExpiresAt := Some(s.now + ACCOUNT_LEASE_TIMEOUT_S))))
    ensures e.Acquire? ==>
              AccountWrite(s, e).Some? && AccountWrite(s, e).value.0 == e.account
              && LeasedTo(s.accounts[e.account], e.worker, s.now, AccountWrite(s, e).value.1)
  {
  }

  // The tables an undisturbed run leaves are those of its events in a row.
  lemma ProcessIsItsEvents(s: State, r: RunId, id: JobId, a: AccountId, worker: string, scrape: Outcome)
    requires r !in s.runs && id in s.queue && id in s.jobs && a in s.accounts && Eligible(s.accounts[a], s.now)
    ensures Possible(s, Pickup(r, id)) && var s1 := Apply(s, Pickup(r, id));
            Possible(s1, Acquire(r, a, worker)) && var s2 := Apply(s1, Acquire(r, a, worker));
            Possible(s2, Finish(r, scrape)) && var s3 := Apply(s2, Finish(r, scrape));
            Possible(s3, LeaseModel.Release(r)) && var s4 := Apply(s3, LeaseModel.Release(r));
            && s4.jobs == s.jobs[id := Finished(Started(s.jobs[id], s.now), scrape)]
            && s4.accounts == s.accounts[a := Released(Acquired(s.accounts[a], worker, s.now), ReleaseOutcome(scrape), s.now)]
  {
    hide Apply, Possible, Started, Acquired, Finished, Released, Eligible;
    TakesUp(s, r, id, a, worker);
    GivesBack(Apply(Apply(s, Pickup(r, id)), Acquire(r, a, worker)), r, id, a, scrape);
  }
}
