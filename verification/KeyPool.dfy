// The YouTube key pool (app/repositories/youtube_api_key_repo.py) and the
// client that rotates through it (app/scraper/youtube_client.py).
module KeyPool {
  import opened Common

  datatype Status = Active | QuotaExhausted | Invalid | Disabled

  datatype Key = Key(status: Status, used: int, resetAt: Option<int>, failures: nat)

  type Pool = map<int, Key>

  // YOUTUBE_DAILY_QUOTA_PER_KEY - YOUTUBE_QUOTA_SOFT_STOP
  const SOFT_LIMIT: int := 10_000 - 200
  const MAX_KEY_ROTATIONS: nat := 10

  // ---------- one key ----------

  function Refreshed(key: Key, now: int): Key {
    if key.resetAt.Some? && key.resetAt.value <= now then
      Key(if key.status == QuotaExhausted then Active else key.status, 0, None, key.failures)
    else key
  }

  predicate Candidate(key: Key) {
    key.status == Active || key.status == QuotaExhausted
  }

  // get_usable_key would hand it out now.
  predicate Usable(key: Key, now: int) {
    Candidate(key) && Refreshed(key, now).status == Active && Refreshed(key, now).used < SOFT_LIMIT
  }

  // Usage, or being marked exhausted, always carries a deadline.
  predicate Armed(key: Key) {
    key.used != 0 || key.status == QuotaExhausted ==> key.resetAt.Some?
  }

  ghost predicate AllArmed(keys: Pool) {
    forall id :: id in keys ==> Armed(keys[id])
  }

  // It is handed out at some moment from now on.
  ghost predicate Returns(key: Key, now: int) {
    exists t :: now <= t && Usable(key, t)
  }

  // A key is never handed out again, however long one waits, exactly when
  // its usage has no deadline: the state that every write to the pool avoids.
  lemma LostIffUnarmed(key: Key, now: int)
    requires Candidate(key)
    ensures !Returns(key, now) <==> key.resetAt.None? && (key.status == QuotaExhausted || key.used >= SOFT_LIMIT)
    ensures Armed(key) ==> Returns(key, now)
  {
    if key.resetAt.Some? {
      assert Usable(key, Max(now, key.resetAt.value));
    } else {
      assert Usable(key, now) <==> key.status == Active && key.used < SOFT_LIMIT;
    }
  }

  // ---------- the pool's writes ----------

  // add_usage: one atomic update, stamping a deadline if there is none.
  function Charged(keys: Pool, id: int, units: nat, midnight: int): Pool {
    if id !in keys then keys
    else
      var k := keys[id];
      keys[id := k.(used := k.used + units, resetAt := if k.resetAt.Some? then k.resetAt else Some(midnight))]
  }

  function Exhausted(keys: Pool, id: int, midnight: int): Pool {
    if id !in keys then keys else keys[id := keys[id].(status := QuotaExhausted, resetAt := Some(midnight))]
  }

  function Invalidated(keys: Pool, id: int): Pool {
    if id !in keys then keys else keys[id := keys[id].(status := Invalid, failures := keys[id].failures + 1)]
  }

  function Seen(key: Key, now: int): Key {
    if Candidate(key) then Refreshed(key, now) else key
  }

  // The status or the usage of some candidate changes at its reset.
  predicate Dirty(keys: Pool, now: int) {
    exists id :: id in keys && Differs(keys[id], Seen(keys[id], now))
  }

  predicate Differs(before: Key, after: Key) {
    before.status != after.status || before.used != after.used
  }

  // What get_usable_key leaves in the table: the resets are only committed
  // when one of them changed a status or a count.
  function Fetched(keys: Pool, now: int): Pool {
    if Dirty(keys, now) then map id | id in keys :: Seen(keys[id], now) else keys
  }

  datatype Op =
    | Fetch(at: int)
    | Use(id: int, units: nat, at: int)
    | Exhaust(id: int, at: int)
    | Invalidate(id: int, at: int)
    | Register(id: int, at: int)

  function Step(keys: Pool, op: Op, midnight: int -> int): Pool {
    match op
    case Fetch(at) => Fetched(keys, at)
    case Use(id, units, at) => Charged(keys, id, units, midnight(at))
    case Exhaust(id, at) => Exhausted(keys, id, midnight(at))
    case Invalidate(id, _) => Invalidated(keys, id)
    case Register(id, _) => keys[id := Key(Active, 0, None, 0)]
  }

  function Run(keys: Pool, ops: seq<Op>, midnight: int -> int): Pool {
    if ops == [] then keys else Step(Run(keys, ops[..|ops| - 1], midnight), ops[|ops| - 1], midnight)
  }

  lemma StepKeepsArmed(keys: Pool, op: Op, midnight: int -> int)
    requires AllArmed(keys)
    ensures AllArmed(Step(keys, op, midnight))
  {
  }

  lemma {:induction false} RunKeepsArmed(keys: Pool, ops: seq<Op>, midnight: int -> int)
    requires AllArmed(keys)
    ensures AllArmed(Run(keys, ops, midnight))
  {
    hide AllArmed, Step;
    if ops != [] {
      RunKeepsArmed(keys, ops[..|ops| - 1], midnight);
      StepKeepsArmed(Run(keys, ops[..|ops| - 1], midnight), ops[|ops| - 1], midnight);
    }
  }

  // In every run, every key with usage or marked exhausted has a deadline, so
  // no active or exhausted key is ever lost for good.
  lemma NoKeyIsLost(keys: Pool, ops: seq<Op>, midnight: int -> int, id: int, now: int)
    requires AllArmed(keys) && id in Run(keys, ops, midnight) && Candidate(Run(keys, ops, midnight)[id])
    ensures Returns(Run(keys, ops, midnight)[id], now)
  {
    hide Run;
    RunKeepsArmed(keys, ops, midnight);
    LostIffUnarmed(Run(keys, ops, midnight)[id], now);
  }

  // Committing the resets or dropping them makes no difference to any later look.
  lemma FetchIsInvisible(keys: Pool, now: int, later: int, id: int)
    requires id in keys && now <= later
    ensures id in Fetched(keys, now)
    ensures Usable(Fetched(keys, now)[id], later) <==> Usable(keys[id], later)
  {
  }

  // ---------- spent keys ----------

  // Out of use until `day` at least.
  predicate Spent(key: Key, day: int) {
    || key.status == Invalid
    || key.status == Disabled
    || (key.status == QuotaExhausted && key.resetAt.Some? && key.resetAt.value >= day)
  }

  // A step taken before `day`, whose own deadline is not before it; keys are
  // not registered again meanwhile.
  predicate SameDay(op: Op, day: int, midnight: int -> int) {
    op.at < day <= midnight(op.at) && !op.Register?
  }

  lemma SpentIsUnusable(key: Key, day: int, now: int)
    requires Spent(key, day) && now < day
    ensures !Usable(key, now) && Seen(key, now) == key
  {
  }

  // No job's writes bring a spent key back before its deadline.
  lemma {:induction false} SpentStaysSpent(keys: Pool, ops: seq<Op>, midnight: int -> int, day: int, id: int)
    requires id in keys && Spent(keys[id], day)
    requires forall op :: op in ops ==> SameDay(op, day, midnight)
    ensures id in Run(keys, ops, midnight) && Spent(Run(keys, ops, midnight)[id], day)
  {
    if ops != [] {
      var n := |ops| - 1;
      SpentStaysSpent(keys, ops[..n], midnight, day, id);
      assert SameDay(ops[n], day, midnight);
    }
  }

  // ---------- usage ----------

  // The units on all keys together.
  ghost function Usage(keys: Pool): int {
    if forall id :: id !in keys then 0 else var id :| id in keys; keys[id].used + Usage(keys - {id})
  }

  lemma {:induction false} UsageWithout(keys: Pool, id: int)
    requires id in keys
    ensures Usage(keys) == keys[id].used + Usage(keys - {id})
  {
    var first :| first in keys && Usage(keys) == keys[first].used + Usage(keys - {first});
    if first != id {
      UsageWithout(keys - {first}, id);
      UsageWithout(keys - {id}, first);
      assert keys - {first} - {id} == keys - {id} - {first};
    }
  }

  // Writing one key moves the pool's usage by what its own moves.
  lemma UsageMoves(keys: Pool, id: int, key: Key)
    requires id in keys
    ensures Usage(keys[id := key]) == Usage(keys) - keys[id].used + key.used
  {
    UsageWithout(keys, id);
    UsageWithout(keys[id := key], id);
    assert keys[id := key] - {id} == keys - {id};
  }

  // No key but this one was written.
  ghost predicate OnlyKey(was: Pool, keys: Pool, id: int) {
    id in was && id in keys && keys == was[id := keys[id]]
  }

  // The key's deadline has passed.
  ghost predicate Due(key: Key, now: int) {
    exists at :: key.resetAt == Some(at) && at <= now
  }

  // The pool after a look at it: keys are as they were, or reset because
  // their deadline has passed; and if one that is due counts any usage, or is
  // exhausted, all that are due and not invalid or disabled are reset.
  ghost predicate WithResets(was: Pool, now: int, keys: Pool) {
    && keys.Keys == was.Keys
    && (forall id :: id in keys ==> keys[id] == was[id] || (Resettable(was[id], now) && keys[id] == AsNew(was[id])))
    && (forall id, other :: id in keys && Overdrawn(was[id], now) && other in keys && Resettable(was[other], now) ==>
          keys[other] == AsNew(was[other]))
  }

  ghost predicate Resettable(key: Key, now: int) {
    key.status in {Active, QuotaExhausted} && Due(key, now)
  }

  // A reset would change its status or its count.
  ghost predicate Overdrawn(key: Key, now: int) {
    Resettable(key, now) && (key.used != 0 || key.status == QuotaExhausted)
  }

  ghost function AsNew(key: Key): Key {
    Key(Active, 0, None, key.failures)
  }

  lemma SeenIs(key: Key, now: int)
    ensures Seen(key, now) == if Resettable(key, now) then AsNew(key) else key
  {
    if key.resetAt.Some? {
      assert key.resetAt == Some(key.resetAt.value);
    }
  }

  lemma FetchResets(keys: Pool, now: int)
    ensures WithResets(keys, now, Fetched(keys, now))
  {
    hide Seen, Resettable, AsNew;
    forall id | id in keys
      ensures Seen(keys[id], now) == if Resettable(keys[id], now) then AsNew(keys[id]) else keys[id]
      ensures Overdrawn(keys[id], now) ==> Differs(keys[id], Seen(keys[id], now))
    {
      SeenIs(keys[id], now);
      NewDiffers(keys[id]);
    }
  }

  lemma NewDiffers(key: Key)
    ensures key.used != 0 || key.status == QuotaExhausted ==> Differs(key, AsNew(key))
  {
  }

  // A key can be handed out if it is active and under the limit, or if its
  // deadline has passed and it is active or exhausted.
  lemma UsableIff(key: Key, now: int)
    ensures Usable(key, now) <==>
              || (key.status == Active && key.used < 9_800)
              || (key.status in {Active, QuotaExhausted} && Due(key, now))
  {
    SeenIs(key, now);
  }

  // The units charged to a key by a run.
  function Charges(ops: seq<Op>, id: int): int {
    if ops == [] then 0
    else
      var op := ops[|ops| - 1];
      Charges(ops[..|ops| - 1], id) + if op.Use? && op.id == id then op.units else 0
  }

  // The step comes before `day` and stamps no earlier reset; it may register
  // other keys.
  predicate Before(op: Op, day: int, midnight: int -> int, id: int) {
    op.at < day <= midnight(op.at) && !(op.Register? && op.id == id)
  }

  // Between two resets a key's usage is what it was and what was charged to
  // it, whatever else any job does to the pool.
  lemma {:induction false} UsageIsCharged(keys: Pool, ops: seq<Op>, midnight: int -> int, day: int, id: int)
    requires id in keys && !Due(keys[id], day - 1)
    requires forall op :: op in ops ==> Before(op, day, midnight, id)
    ensures id in Run(keys, ops, midnight) && !Due(Run(keys, ops, midnight)[id], day - 1)
    ensures Run(keys, ops, midnight)[id].used == keys[id].used + Charges(ops, id)
  {
    hide Seen, Dirty;
    if ops != [] {
      var n := |ops| - 1;
      UsageIsCharged(keys, ops[..n], midnight, day, id);
      assert Before(ops[n], day, midnight, id);
      SeenIs(Run(keys, ops[..n], midnight)[id], ops[n].at);
    }
  }

  // ---------- the repository ----------

  class YouTubeApiKeyRepo {
    var keys: Pool
    // By how much this object's add_usage has raised the pool's usage.
    ghost var recorded: int

    ghost predicate Valid() reads this {
      AllArmed(keys)
    }

    method Create(id: int)
      requires Valid()
      modifies this
      ensures Valid() && recorded == old(recorded)
      ensures keys == old(keys)[id := Key(Active, 0, None, 0)]
    {
      keys := keys[id := Key(Active, 0, None, 0)];
    }

    // Hands out an active key with the least usage, if any is under the limit.
    method GetUsableKey(now: int) returns (found: Option<int>)
      requires Valid()
      modifies this`keys
      ensures Valid()
      ensures keys == Fetched(old(keys), now)
      ensures WithResets(old(keys), now, keys)
      ensures found.None? ==> forall id :: id in old(keys) ==> !Usable(old(keys)[id], now)
      ensures found.Some? ==> found.value in old(keys) && Usable(old(keys)[found.value], now)
      ensures found.Some? ==> forall id :: id in old(keys) && Usable(old(keys)[id], now) ==>
                Seen(old(keys)[found.value], now).used <= Seen(old(keys)[id], now).used
    {
      hide Fetched, Dirty, AllArmed, WithResets;
      FetchArmed(keys, now);
      FetchResets(keys, now);
      var seen, dirty := RefreshCandidates(keys, now);
      FetchUnfold(keys, now);
      if dirty {
        keys := seen;
      }
      found := LeastUsed(seen);
      UsableIsSeen(old(keys), now);
    }

    method AddUsage(id: int, units: nat, midnight: int)
      requires Valid()
      modifies this
      ensures Valid() && keys == Charged(old(keys), id, units, midnight)
      ensures id !in old(keys) ==> keys == old(keys)
      ensures id in old(keys) ==>
                && OnlyKey(old(keys), keys, id)
                && keys[id].used == old(keys)[id].used + units
                && keys[id].status == old(keys)[id].status && keys[id].failures == old(keys)[id].failures
                && keys[id].resetAt == (if old(keys)[id].resetAt == None then Some(midnight) else old(keys)[id].resetAt)
      ensures recorded - old(recorded) == Usage(keys) - Usage(old(keys)) == if id in old(keys) then units else 0
    {
      ghost var before := keys;
      if id in keys {
        var k := keys[id];
        keys := keys[id := k.(used := k.used + units, resetAt := if k.resetAt.Some? then k.resetAt else Some(midnight))];
        UsageMoves(before, id, keys[id]);
      }
      recorded := recorded + Usage(keys) - Usage(before);
    }

    method MarkExhausted(id: int, midnight: int)
      requires Valid()
      modifies this`keys
      ensures Valid() && keys == Exhausted(old(keys), id, midnight)
      ensures id !in old(keys) ==> keys == old(keys)
      ensures id in old(keys) ==>
                && OnlyKey(old(keys), keys, id)
                && keys[id].status == QuotaExhausted && keys[id].resetAt == Some(midnight)
                && keys[id].used == old(keys)[id].used && keys[id].failures == old(keys)[id].failures
    {
      if id in keys {
        keys := keys[id := keys[id].(status := QuotaExhausted, resetAt := Some(midnight))];
      }
    }

    method MarkInvalid(id: int)
      requires Valid()
      modifies this`keys
      ensures Valid() && keys == Invalidated(old(keys), id)
      ensures id !in old(keys) ==> keys == old(keys)
      ensures id in old(keys) ==>
                && OnlyKey(old(keys), keys, id)
                && keys[id].status == Invalid && keys[id].failures == old(keys)[id].failures + 1
                && keys[id].used == old(keys)[id].used && keys[id].resetAt == old(keys)[id].resetAt
    {
      if id in keys {
        keys := keys[id := keys[id].(status := Invalid, failures := keys[id].failures + 1)];
      }
    }

    // Other jobs use the same pool.
    method Meanwhile(ops: seq<Op>, midnight: int -> int)
      requires Valid()
      modifies this`keys
      ensures Valid() && keys == Run(old(keys), ops, midnight)
    {
      RunKeepsArmed(keys, ops, midnight);
      keys := Run(keys, ops, midnight);
    }
  }

  function SeenAll(keys: Pool, now: int): Pool {
    map id | id in keys :: Seen(keys[id], now)
  }

  lemma FetchUnfold(keys: Pool, now: int)
    ensures Fetched(keys, now) == if Dirty(keys, now) then SeenAll(keys, now) else keys
  {
  }

  lemma UsableIsSeen(keys: Pool, now: int)
    ensures SeenAll(keys, now).Keys == keys.Keys
    ensures forall id :: id in keys ==> SeenAll(keys, now)[id] == Seen(keys[id], now)
    ensures forall id :: id in keys ==>
              (Usable(keys[id], now) <==> Seen(keys[id], now).status == Active && Seen(keys[id], now).used < SOFT_LIMIT)
  {
  }

  lemma FetchArmed(keys: Pool, now: int)
    requires AllArmed(keys)
    ensures AllArmed(Fetched(keys, now))
  {
  }

  method RefreshCandidates(keys: Pool, now: int) returns (seen: Pool, dirty: bool)
    ensures seen == SeenAll(keys, now) && dirty == Dirty(keys, now)
  {
    seen, dirty := keys, false;
    var todo := keys.Keys;
    while todo != {}
      invariant todo <= keys.Keys && seen.Keys == keys.Keys
      invariant forall id :: id in keys ==> seen[id] == if id in todo then keys[id] else Seen(keys[id], now)
      invariant dirty <==> exists id :: id in keys && id !in todo && Differs(keys[id], Seen(keys[id], now))
      decreases todo
    {
      var id := AnyOf(todo);
      todo := todo - {id};
      if Candidate(seen[id]) {
        var key := Refreshed(seen[id], now);
        dirty := dirty || Differs(seen[id], key);
        seen := seen[id := key];
      }
    }
    assert todo == {};
    assert forall id :: id in keys ==> seen[id] == Seen(keys[id], now);
    assert seen == SeenAll(keys, now);
  }

  method LeastUsed(seen: Pool) returns (found: Option<int>)
    ensures found.None? ==> forall id :: id in seen ==> !(seen[id].status == Active && seen[id].used < SOFT_LIMIT)
    ensures found.Some? ==>
              && found.value in seen && seen[found.value].status == Active && seen[found.value].used < SOFT_LIMIT
              && forall id :: id in seen && seen[id].status == Active ==> seen[found.value].used <= seen[id].used
  {
    found := None;
    var todo := seen.Keys;
    while todo != {}
      invariant todo <= seen.Keys
      invariant found.None? ==>
                  forall id :: id in seen && id !in todo ==> !(seen[id].status == Active && seen[id].used < SOFT_LIMIT)
      invariant found.Some? ==>
                  && found.value in seen && seen[found.value].status == Active && seen[found.value].used < SOFT_LIMIT
                  && forall id :: id in seen && id !in todo && seen[id].status == Active
                       ==> seen[found.value].used <= seen[id].used
      decreases todo
    {
      var id := AnyOf(todo);
      todo := todo - {id};
      var key := seen[id];
      if key.status == Active && key.used < SOFT_LIMIT && (found.None? || key.used < seen[found.value].used) {
        found := Some(id);
      }
    }
  }
}
