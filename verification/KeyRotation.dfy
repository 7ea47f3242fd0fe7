// YouTubeClient._get and _request_with_key of app/scraper/youtube_client.py:
// one logical request, retried on one key and rotated across the pool.
module KeyRotation {
  import opened Common
  import opened KeyPool

  // One HTTP exchange.
  datatype Answer =
    | NetworkFailure
    | Ok
    | Gone          // comments disabled, bad page token, 404
    | QuotaSpent    // 403 with a quota reason
    | KeyBad        // 400 or 403 that condemns the key
    | Throttled     // 429 or 5xx
    | Refused       // 401 and every other 4xx

  datatype Outcome = Done | Rotate | ResourceGone | TimedOut | RateLimited | Blocked

  // What the world does meanwhile: the answer and the time of each exchange,
  // what other jobs do to the pool before each rotation, and the quota reset.
  datatype World = World(answer: nat -> Answer, at: nat -> int, others: nat -> seq<Op>, midnight: int -> int)

  predicate Retryable(a: Answer) {
    a == NetworkFailure || a == Throttled
  }

  function Verdict(a: Answer): Outcome {
    match a
    case NetworkFailure => TimedOut
    case Throttled => RateLimited
    case Ok => Done
    case Gone => ResourceGone
    case QuotaSpent => Rotate
    case KeyBad => Rotate
    case Refused => Blocked
  }

  // What the last answer writes to the pool.
  function Written(keys: Pool, id: int, units: nat, a: Answer, midnight: int): Pool {
    match a
    case Ok => Charged(keys, id, units, midnight)
    case QuotaSpent => Exhausted(keys, id, midnight)
    case KeyBad => Invalidated(keys, id)
    case _ => keys
  }

  // What comes of the last answer, answer by answer: the outcome, and the
  // one row of the pool that is written, if any.
  ghost predicate Answered(was: Pool, id: int, units: nat, a: Answer, midnight: int, outcome: Outcome, keys: Pool) {
    && id in was && id in keys
    && (outcome == Done <==> a == Ok)
    && (outcome == Rotate <==> a in {QuotaSpent, KeyBad})
    && (outcome == ResourceGone <==> a == Gone)
    && (outcome == TimedOut <==> a == NetworkFailure)
    && (outcome == RateLimited <==> a == Throttled)
    && (a !in {Ok, QuotaSpent, KeyBad} ==> keys == was)
    && (a in {Ok, QuotaSpent, KeyBad} ==> OnlyKey(was, keys, id))
    && (a == Ok ==> keys[id].used == was[id].used + units && keys[id].status == was[id].status)
    && (a != Ok ==> keys[id].used == was[id].used)
    && (a == QuotaSpent ==> keys[id].status == QuotaExhausted && keys[id].resetAt == Some(midnight))
    && (a == KeyBad ==> keys[id].status == Invalid && keys[id].failures == was[id].failures + 1)
  }

  // The exchanges [from, next) were one key's: all but the last to be
  // retried, and the last one decisive or the fourth.
  ghost predicate Exchanges(world: World, from: nat, next: nat) {
    && from < next <= from + SCRAPER_MAX_RETRIES + 1
    && (forall i :: from <= i < next - 1 ==> Retryable(world.answer(i)))
    && (Retryable(world.answer(next - 1)) ==> next == from + SCRAPER_MAX_RETRIES + 1)
  }

  ghost predicate Distinct(s: seq<int>) {
    forall i, j :: 0 <= i < j < |s| ==> s[i] != s[j]
  }

  // The whole call, and what others do during it, falls before `day`, and
  // every reset stamped meanwhile is at `day` or later.
  ghost predicate OneDay(world: World, day: int) {
    && (forall i: nat :: world.at(i) < day <= world.midnight(world.at(i)))
    && (forall n: nat, op | op in world.others(n) :: SameDay(op, day, world.midnight))
  }

  // The keys tried so far are different keys, all out of use until `day`.
  ghost predicate AllSpent(keys: Pool, tried: seq<int>, day: int) {
    Distinct(tried) && forall i :: 0 <= i < |tried| ==> tried[i] in keys && Spent(keys[tried[i]], day)
  }

  // No key was tried twice, and all before the last are out of use.
  ghost predicate TriedOnce(keys: Pool, tried: seq<int>, day: int) {
    && Distinct(tried)
    && (forall i :: 0 <= i < |tried| ==> tried[i] in keys)
    && (forall i :: 0 <= i < |tried| - 1 ==> Spent(keys[tried[i]], day))
  }

  lemma NoneTried(keys: Pool, day: int)
    ensures AllSpent(keys, [], day) && TriedOnce(keys, [], day)
  {
  }

  lemma {:induction false} RunKeepsKeys(keys: Pool, ops: seq<Op>, midnight: int -> int)
    ensures keys.Keys <= Run(keys, ops, midnight).Keys
  {
    if ops != [] {
      RunKeepsKeys(keys, ops[..|ops| - 1], midnight);
    }
  }

  lemma MeanwhileKeeps(keys: Pool, world: World, n: nat, tried: seq<int>, day: int)
    ensures keys.Keys <= Run(keys, world.others(n), world.midnight).Keys
    ensures OneDay(world, day) && AllSpent(keys, tried, day) ==>
              AllSpent(Run(keys, world.others(n), world.midnight), tried, day)
  {
    hide Run, Spent, Distinct;
    RunKeepsKeys(keys, world.others(n), world.midnight);
    if OneDay(world, day) && AllSpent(keys, tried, day) {
      forall i | 0 <= i < |tried|
        ensures Spent(Run(keys, world.others(n), world.midnight)[tried[i]], day)
      {
        SpentStaysSpent(keys, world.others(n), world.midnight, day, tried[i]);
      }
    }
  }

  // A usable key is none of those already tried.
  lemma NotTried(keys: Pool, world: World, next: nat, tried: seq<int>, day: int, id: int)
    requires id in keys && Usable(keys[id], world.at(next))
    ensures OneDay(world, day) && AllSpent(keys, tried, day) ==> id !in tried
  {
    hide Usable, Distinct, Spent;
    if OneDay(world, day) && AllSpent(keys, tried, day) && id in tried {
      SpentIsUnusable(keys[id], day, world.at(next));
    }
  }

  // A look at the pool keeps spent keys spent.
  lemma FetchKeeps(keys: Pool, world: World, next: nat, tried: seq<int>, day: int)
    ensures Fetched(keys, world.at(next)).Keys == keys.Keys
    ensures OneDay(world, day) && AllSpent(keys, tried, day) ==>
              && AllSpent(Fetched(keys, world.at(next)), tried, day)
              && TriedOnce(Fetched(keys, world.at(next)), tried, day)
  {
    hide Usable, Distinct, Seen, Spent, Dirty;
    if OneDay(world, day) && AllSpent(keys, tried, day) {
      forall i | 0 <= i < |tried|
        ensures !Usable(keys[tried[i]], world.at(next))
        ensures Fetched(keys, world.at(next))[tried[i]] == keys[tried[i]]
      {
        SpentIsUnusable(keys[tried[i]], day, world.at(next));
        assert Fetched(keys, world.at(next))[tried[i]] == keys[tried[i]];
      }
    }
  }

  // One more key was asked: the earlier ones stay spent, and so is this one
  // when the call goes on to the next.
  lemma RequestKeeps(keys: Pool, world: World, last: nat, tried: seq<int>, id: int, units: nat, day: int)
    requires id in keys
    ensures var now := Written(keys, id, units, world.answer(last), world.midnight(world.at(last)));
            && now.Keys == keys.Keys
            && (OneDay(world, day) && AllSpent(keys, tried, day) && id !in tried ==>
                  && TriedOnce(now, tried + [id], day)
                  && (Verdict(world.answer(last)) == Rotate ==> AllSpent(now, tried + [id], day)))
  {
  }

  // One more key was asked; it is out of use too if the call goes on.
  ghost predicate Asked(keys: Pool, tried: seq<int>, id: int, outcome: Outcome, day: int) {
    TriedOnce(keys, tried + [id], day) && (outcome == Rotate ==> AllSpent(keys, tried + [id], day))
  }

  lemma AskedIs(keys: Pool, tried: seq<int>, id: int, outcome: Outcome, day: int)
    ensures Asked(keys, tried, id, outcome, day) ==>
              TriedOnce(keys, tried + [id], day) && (outcome == Rotate ==> AllSpent(keys, tried + [id], day))
  {
  }

  lemma StillNone(keys: Pool, now: int)
    requires forall id :: id in keys ==> !Usable(keys[id], now)
    ensures forall id :: id in Fetched(keys, now) ==> !Usable(Fetched(keys, now)[id], now)
  {
    hide Usable, Fetched;
    SameKeys(keys, now);
    forall id | id in Fetched(keys, now)
      ensures !Usable(Fetched(keys, now)[id], now)
    {
      FetchIsInvisible(keys, now, now, id);
    }
  }

  lemma SameKeys(keys: Pool, now: int)
    ensures Fetched(keys, now).Keys == keys.Keys
  {
  }

  lemma ManyKeys(keys: Pool, tried: seq<int>, day: int)
    ensures AllSpent(keys, tried, day) ==> |tried| <= |keys| && TriedOnce(keys, tried, day)
  {
    if AllSpent(keys, tried, day) {
      DistinctFits(tried, keys.Keys);
    }
  }

  lemma {:induction false} DistinctFits(s: seq<int>, ids: set<int>)
    requires Distinct(s) && forall i :: 0 <= i < |s| ==> s[i] in ids
    ensures |s| <= |ids|
  {
    if s != [] {
      DistinctFits(s[..|s| - 1], ids - {s[|s| - 1]});
    }
  }

  // No other job touches the pool, and the whole call falls before `day`,
  // with every reset stamped meanwhile at `day` or later.
  ghost predicate Quiet(world: World, day: int) {
    OneDay(world, day) && forall n :: world.others(n) == []
  }

  // No key's deadline passes before `day`.
  ghost predicate NoneDue(keys: Pool, day: int) {
    forall id :: id in keys ==> !Due(keys[id], day - 1)
  }

  lemma QuietMeanwhile(keys: Pool, world: World, n: nat, day: int)
    ensures Quiet(world, day) ==> Run(keys, world.others(n), world.midnight) == keys
  {
    hide OneDay;
  }

  lemma QuietLook(keys: Pool, world: World, next: nat, day: int)
    ensures Quiet(world, day) && NoneDue(keys, day) ==> Fetched(keys, world.at(next)) == keys
  {
    hide Seen, Resettable;
    if Quiet(world, day) && NoneDue(keys, day) {
      forall id | id in keys
        ensures Seen(keys[id], world.at(next)) == keys[id]
      {
        SeenIs(keys[id], world.at(next));
        NotDueEarlier(keys[id], world.at(next), day);
      }
    }
  }

  lemma NotDueEarlier(key: Key, now: int, day: int)
    requires now < day && !Due(key, day - 1)
    ensures !Due(key, now) && !Resettable(key, now)
  {
  }

  lemma QuietRequest(keys: Pool, world: World, last: nat, id: int, units: nat, day: int)
    requires id in keys
    ensures var now := Written(keys, id, units, world.answer(last), world.midnight(world.at(last)));
            && Usage(now) == Usage(keys) + (if Verdict(world.answer(last)) == Done then units else 0)
            && (Quiet(world, day) && NoneDue(keys, day) ==> NoneDue(now, day))
  {
    hide Usage;
    var now := Written(keys, id, units, world.answer(last), world.midnight(world.at(last)));
    UsageMoves(keys, id, now[id]);
    assert keys[id := keys[id]] == keys;
    if Quiet(world, day) && NoneDue(keys, day) {
      assert day <= world.midnight(world.at(last));
    }
  }

  datatype Result = Response | NoKeyLeft | RotationsUsedUp | Failed(why: Outcome)

  class YouTubeClient {
    const repo: YouTubeApiKeyRepo
    var current: Option<int>
    var unitsUsed: int

    ghost predicate Valid() reads this, repo {
      repo.Valid() && (current.Some? ==> current.value in repo.keys)
    }

    constructor (repo: YouTubeApiKeyRepo)
      requires repo.Valid()
      ensures Valid() && this.repo == repo && current == None && unitsUsed == 0
    {
      this.repo := repo;
      current, unitsUsed := None, 0;
    }

    // Keeps the current key, or asks the pool for one.
    method EnsureKey(world: World, next: nat, ghost tried: seq<int>, ghost day: int) returns (ready: bool)
      requires Valid() && (current.Some? ==> tried == [])
      modifies this`current, repo`keys
      ensures Valid() && ready == current.Some?
      ensures old(current).Some? ==> current == old(current) && repo.keys == old(repo.keys)
      ensures old(current).None? ==> repo.keys == Fetched(old(repo.keys), world.at(next))
      ensures !ready ==> forall id :: id in repo.keys ==> !Usable(repo.keys[id], world.at(next))
      ensures OneDay(world, day) && AllSpent(old(repo.keys), tried, day) ==>
                && AllSpent(repo.keys, tried, day) && TriedOnce(repo.keys, tried, day)
                && (ready ==> current.value !in tried)
    {
      hide TriedOnce, Distinct, OneDay, Spent, Usable, Fetched, AllArmed, AllSpent;
      if current.None? {
        FetchKeeps(repo.keys, world, next, tried, day);
        ghost var looked := repo.keys;
        current := repo.GetUsableKey(world.at(next));
        if current.None? {
          StillNone(looked, world.at(next));
        } else {
          NotTried(looked, world, next, tried, day, current.value);
        }
      } else {
        assert tried == [];
        NoneTried(repo.keys, day);
      }
      ready := current.Some?;
    }

    method RequestWithKey(world: World, from: nat, id: int, units: nat) returns (outcome: Outcome, next: nat)
      requires Valid() && id in repo.keys
      modifies this`unitsUsed, repo
      ensures Valid()
      ensures Exchanges(world, from, next) && outcome == Verdict(world.answer(next - 1))
      ensures repo.keys == Written(old(repo.keys), id, units, world.answer(next - 1), world.midnight(world.at(next - 1)))
      ensures unitsUsed - old(unitsUsed) == repo.recorded - old(repo.recorded) == if outcome == Done then units else 0
      ensures Answered(old(repo.keys), id, units, world.answer(next - 1), world.midnight(world.at(next - 1)), outcome, repo.keys)
    {
      hide Usage;
      next := from;
      for attempt := 0 to SCRAPER_MAX_RETRIES + 1
        invariant next == from + attempt && attempt <= SCRAPER_MAX_RETRIES
        invariant forall i :: from <= i < next ==> Retryable(world.answer(i))
        invariant unchanged(this) && unchanged(repo)
      {
        var answer, midnight := world.answer(next), world.midnight(world.at(next));
        next := next + 1;
        match answer
        case NetworkFailure =>
          if attempt == SCRAPER_MAX_RETRIES {
            return TimedOut, next;
          }
        case Throttled =>
          if attempt == SCRAPER_MAX_RETRIES {
            return RateLimited, next;
          }
        case Ok =>
          repo.AddUsage(id, units, midnight);
          unitsUsed := unitsUsed + units;
          return Done, next;
        case QuotaSpent =>
          repo.MarkExhausted(id, midnight);
          return Rotate, next;
        case KeyBad =>
          repo.MarkInvalid(id);
          return Rotate, next;
        case Gone =>
          return ResourceGone, next;
        case Refused =>
          return Blocked, next;
      }
      assert false;
    }

    // One turn of the loop: other jobs have run, then a key is at hand or not,
    // and if it is, the request is sent with it.
    method TryOneKey(world: World, rotation: nat, from: nat, units: nat, ghost tried: seq<int>, ghost day: int)
      returns (ready: bool, outcome: Outcome, next: nat)
      requires Valid() && |tried| == rotation && (current.Some? ==> tried == [])
      modifies this, repo
      ensures Valid() && ready == current.Some? && (old(current).Some? ==> current == old(current))
      ensures unitsUsed - old(unitsUsed) == repo.recorded - old(repo.recorded) == if ready && outcome == Done then units else 0
      ensures !ready ==> next == from && forall id :: id in repo.keys ==> !Usable(repo.keys[id], world.at(next))
      ensures ready ==> from < next <= from + SCRAPER_MAX_RETRIES + 1 && outcome == Verdict(world.answer(next - 1))
      ensures OneDay(world, day) && AllSpent(old(repo.keys), tried, day) ==>
                if !ready then TriedOnce(repo.keys, tried, day)
                else Asked(repo.keys, tried, current.value, outcome, day)
      ensures Quiet(world, day) && NoneDue(old(repo.keys), day) ==>
                NoneDue(repo.keys, day) && Usage(repo.keys) - Usage(old(repo.keys)) == unitsUsed - old(unitsUsed)
    {
      hide TriedOnce, Distinct, OneDay, Spent, Usable, Run, Fetched, AllArmed, Written, AllSpent, Answered, Usage, Quiet,
           NoneDue, WithResets;
      outcome, next := RateLimited, from;
      QuietMeanwhile(repo.keys, world, rotation, day);
      MeanwhileKeeps(repo.keys, world, rotation, tried, day);
      repo.Meanwhile(world.others(rotation), world.midnight);
      QuietLook(repo.keys, world, next, day);
      ready := EnsureKey(world, next, tried, day);
      if ready {
        ghost var before := repo.keys;
        outcome, next := RequestWithKey(world, from, current.value, units);
        RequestKeeps(before, world, next - 1, tried, current.value, units, day);
        QuietRequest(before, world, next - 1, current.value, units, day);
      }
    }

    // One logical request. `tried` lists the keys it was sent with.
    method Get(world: World, units: nat, ghost day: int) returns (result: Result, next: nat, ghost tried: seq<int>)
      requires Valid()
      modifies this, repo
      ensures Valid()
      ensures unitsUsed - old(unitsUsed) == repo.recorded - old(repo.recorded) == if result.Response? then units else 0
      ensures |tried| <= MAX_KEY_ROTATIONS && next <= |tried| * (SCRAPER_MAX_RETRIES + 1)
      ensures OneDay(world, day) ==> TriedOnce(repo.keys, tried, day)
      ensures Quiet(world, day) && NoneDue(old(repo.keys), day) ==>
                Usage(repo.keys) - Usage(old(repo.keys)) == unitsUsed - old(unitsUsed)
      ensures result.Response? || result.Failed? ==> tried != [] && current == Some(tried[|tried| - 1])
      ensures result.NoKeyLeft? || result.RotationsUsedUp? ==> current == None
      ensures old(current).Some? ==> tried != [] && tried[0] == old(current).value
      ensures result.Response? || result.Failed? ==>
                && next > 0 && Verdict(world.answer(next - 1)) != Rotate
                && result == if world.answer(next - 1) == Ok then Response else Failed(Verdict(world.answer(next - 1)))
      ensures result.NoKeyLeft? ==> forall id :: id in repo.keys ==> !Usable(repo.keys[id], world.at(next))
      ensures result.RotationsUsedUp? ==> |tried| == MAX_KEY_ROTATIONS
      ensures result.RotationsUsedUp? && OneDay(world, day) ==> |repo.keys| >= MAX_KEY_ROTATIONS
    {
      hide TriedOnce, Distinct, OneDay, Spent, Usable, AllArmed, AllSpent, Asked, Usage, Quiet, NoneDue;
      next, tried := 0, [];
      ghost var units0, recorded0, usage0 := unitsUsed, repo.recorded, Usage(repo.keys);
      ghost var quiet := Quiet(world, day) && NoneDue(repo.keys, day);
      NoneTried(repo.keys, day);
      for rotation := 0 to MAX_KEY_ROTATIONS
        invariant Valid() && |tried| == rotation && next <= |tried| * (SCRAPER_MAX_RETRIES + 1)
        invariant unitsUsed == units0 && repo.recorded == recorded0
        invariant if rotation == 0 then current == old(current) else current == None
        invariant rotation > 0 && old(current).Some? ==> tried[0] == old(current).value
        invariant OneDay(world, day) ==> AllSpent(repo.keys, tried, day)
        invariant quiet ==> NoneDue(repo.keys, day) && Usage(repo.keys) == usage0
      {
        var ready, outcome, n := TryOneKey(world, rotation, next, units, tried, day);
        next := n;
        if !ready {
          return NoKeyLeft, next, tried;
        }
        AskedIs(repo.keys, tried, current.value, outcome, day);
        tried := tried + [current.value];
        if outcome == Done {
          return Response, next, tried;
        } else if outcome != Rotate {
          return Failed(outcome), next, tried;
        }
        current := None;
      }
      ManyKeys(repo.keys, tried, day);
      return RotationsUsedUp, next, tried;
    }
  }
}
