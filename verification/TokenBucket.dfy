// app/scraper/rate_limit.py: a token bucket in exact arithmetic. The lock
// makes the loops of concurrent callers one sequence of looks at the bucket.
module TokenBucket {
  import opened Common

  datatype Bucket = Bucket(rate: real, capacity: real, tokens: real, updatedAt: real)

  predicate Sane(b: Bucket) {
    b.rate > 0.0 && 0.0 <= b.tokens <= b.capacity
  }

  function Full(rate: real, burst: nat, now: real): Bucket {
    Bucket(rate, burst as real, burst as real, now)
  }

  // ---------- what trickles in ----------

  // The tokens that time adds between two moments.
  function Gained(rate: real, from: real, to: real): real {
    (to - from) * rate
  }

  lemma GainedSplits(rate: real, a: real, b: real, c: real)
    ensures Gained(rate, a, c) == Gained(rate, a, b) + Gained(rate, b, c)
    ensures Gained(rate, a, a) == 0.0
  {
    Distribute(b - a, c - b, rate);
  }

  lemma Distribute(x: real, y: real, rate: real)
    ensures (x + y) * rate == x * rate + y * rate
  {
  }

  lemma GainedGrows(rate: real, from: real, a: real, b: real)
    requires rate > 0.0
    ensures a <= b ==> Gained(rate, from, a) <= Gained(rate, from, b)
    ensures a < b ==> Gained(rate, from, a) < Gained(rate, from, b)
  {
    hide Gained;
    GainedSplits(rate, from, a, b);
    GainedSign(rate, a, b);
  }

  lemma GainedSign(rate: real, from: real, to: real)
    requires rate > 0.0
    ensures from <= to ==> Gained(rate, from, to) >= 0.0
    ensures from < to ==> Gained(rate, from, to) > 0.0
  {
    Sign(to - from, rate);
  }

  lemma Sign(x: real, y: real)
    requires y > 0.0
    ensures x >= 0.0 ==> x * y >= 0.0
    ensures x > 0.0 ==> x * y > 0.0
  {
  }

  // Missing tokens take missing / rate seconds.
  lemma GainedInTime(rate: real, from: real, missing: real)
    requires rate > 0.0
    ensures Gained(rate, from, from + missing / rate) == missing
  {
    var wait := missing / rate;
    assert wait * rate == missing;
    assert from + wait - from == wait;
  }

  // ---------- one look ----------

  function Refilled(b: Bucket, now: real): Bucket {
    var t := b.tokens + Gained(b.rate, b.updatedAt, now);
    b.(tokens := if t < b.capacity then t else b.capacity, updatedAt := now)
  }

  // One turn of the loop in acquire: whether it takes a token.
  predicate Grants(b: Bucket, now: real) {
    Refilled(b, now).tokens >= 1.0
  }

  function Look(b: Bucket, now: real): Bucket {
    var r := Refilled(b, now);
    if r.tokens >= 1.0 then r.(tokens := r.tokens - 1.0) else r
  }

  // The sleep acquire computes after a look that took nothing.
  function WaitFor(b: Bucket): real
    requires b.rate > 0.0
  {
    (1.0 - b.tokens) / b.rate
  }

  // The bucket and the grant times after looks at the given times.
  function Run(b: Bucket, looks: seq<real>): (Bucket, seq<real>) {
    if looks == [] then (b, [])
    else
      var last := looks[|looks| - 1];
      var (b', grants) := Run(b, looks[..|looks| - 1]);
      (Look(b', last), if Grants(b', last) then grants + [last] else grants)
  }

  predicate Ordered(b: Bucket, looks: seq<real>) {
    && (forall i :: 0 <= i < |looks| ==> b.updatedAt <= looks[i])
    && (forall i, j :: 0 <= i < j < |looks| ==> looks[i] <= looks[j])
  }

  // Every stretch of grants that ends now leaves room for the tokens at hand.
  ghost predicate Spaced(b: Bucket, grants: seq<real>) {
    forall i :: 0 <= i < |grants| ==>
      (|grants| - i) as real + b.tokens <= b.capacity + Gained(b.rate, grants[i], b.updatedAt)
  }

  // Grants i, ..., j number at most burst + rate * (elapsed time).
  ghost predicate WithinRate(rate: real, burst: real, grants: seq<real>) {
    forall i, j :: 0 <= i <= j < |grants| ==> (j - i + 1) as real <= burst + Gained(rate, grants[i], grants[j])
  }

  lemma RefillSane(b: Bucket, now: real)
    requires Sane(b) && b.updatedAt <= now
    ensures Sane(Refilled(b, now))
    ensures Refilled(b, now).tokens <= b.tokens + Gained(b.rate, b.updatedAt, now)
  {
    hide Gained;
    GainedSign(b.rate, b.updatedAt, now);
  }

  lemma LookTakes(b: Bucket, now: real)
    requires Sane(b) && b.updatedAt <= now
    ensures var b', taken := Look(b, now), if Grants(b, now) then 1.0 else 0.0;
            && Sane(b') && b'.updatedAt == now && b'.rate == b.rate && b'.capacity == b.capacity
            && b'.tokens + taken <= b.tokens + Gained(b.rate, b.updatedAt, now)
            && b'.tokens + taken <= b.capacity
  {
    hide Gained;
    RefillSane(b, now);
  }

  lemma LookSpaced(b: Bucket, now: real, grants: seq<real>)
    requires Sane(b) && b.updatedAt <= now && Spaced(b, grants)
    ensures Sane(Look(b, now)) && Look(b, now).updatedAt == now
    ensures Spaced(Look(b, now), if Grants(b, now) then grants + [now] else grants)
  {
    hide Gained, Look, Grants, Sane;
    LookTakes(b, now);
    var b', taken := Look(b, now), if Grants(b, now) then 1.0 else 0.0;
    var more := if Grants(b, now) then grants + [now] else grants;
    forall i | 0 <= i < |more|
      ensures (|more| - i) as real + b'.tokens <= b'.capacity + Gained(b'.rate, more[i], b'.updatedAt)
    {
      if i < |grants| {
        GainedSplits(b.rate, grants[i], b.updatedAt, now);
        OneLongerStretch(|grants| - i, b.tokens, b.capacity, Gained(b.rate, grants[i], b.updatedAt),
                         b'.tokens, taken, Gained(b.rate, b.updatedAt, now), |more| - i);
      } else {
        GainedSplits(b.rate, now, now, now);
      }
    }
  }

  // The arithmetic of one look: a stretch of n grants, one more if taken.
  lemma OneLongerStretch(n: int, tokens: real, capacity: real, sofar: real, left: real, taken: real, gained: real, m: int)
    requires n as real + tokens <= capacity + sofar && left + taken <= tokens + gained
    requires (taken == 1.0 && m == n + 1) || (taken == 0.0 && m == n)
    ensures m as real + left <= capacity + (sofar + gained)
  {
  }

  lemma SpacedIsWithinRate(b: Bucket, grants: seq<real>, now: real)
    requires Sane(b) && WithinRate(b.rate, b.capacity, grants)
    requires Spaced(b, grants + [now]) && b.updatedAt == now
    ensures WithinRate(b.rate, b.capacity, grants + [now])
  {
    hide Gained;
    var all := grants + [now];
    forall i, j | 0 <= i <= j < |all|
      ensures (j - i + 1) as real <= b.capacity + Gained(b.rate, all[i], all[j])
    {
      if j == |grants| {
        assert (|all| - i) as real + b.tokens <= b.capacity + Gained(b.rate, all[i], now);
        assert j - i + 1 == |all| - i;
      } else {
        assert all[i] == grants[i] && all[j] == grants[j];
      }
    }
  }

  // Over any history of looks, by any number of callers: the grants i, ..., j
  // number at most burst + rate * (t_j - t_i), and the tokens stay in range.
  lemma {:induction false} GrantsAreWithinRate(b: Bucket, looks: seq<real>)
    requires Sane(b) && Ordered(b, looks)
    ensures var (b', grants) := Run(b, looks);
            && Sane(b') && b'.rate == b.rate && b'.capacity == b.capacity
            && Spaced(b', grants) && WithinRate(b.rate, b.capacity, grants)
            && b'.updatedAt == (if looks == [] then b.updatedAt else looks[|looks| - 1])
    decreases |looks|
  {
    hide Gained, Look, Grants, Spaced, WithinRate;
    if looks == [] {
      NoGrants(b);
    } else {
      var front, last := looks[..|looks| - 1], looks[|looks| - 1];
      GrantsAreWithinRate(b, front);
      var (m, grants) := Run(b, front);
      LookTakes(m, last);
      LookSpaced(m, last, grants);
      if Grants(m, last) {
        SpacedIsWithinRate(Look(m, last), grants, last);
      }
    }
  }

  lemma NoGrants(b: Bucket)
    ensures Spaced(b, []) && WithinRate(b.rate, b.capacity, [])
  {
  }

  // ---------- nothing granted is lost ----------

  // No refill of the stretch reaches beyond the capacity.
  ghost predicate NeverOver(b: Bucket, looks: seq<real>) {
    looks == [] ||
    (NeverOver(b, looks[..|looks| - 1]) &&
     var m := Run(b, looks[..|looks| - 1]).0;
     m.tokens + Gained(m.rate, m.updatedAt, looks[|looks| - 1]) <= m.capacity)
  }

  lemma LookLosesNothing(b: Bucket, now: real)
    requires b.tokens + Gained(b.rate, b.updatedAt, now) <= b.capacity
    ensures Look(b, now).tokens + (if Grants(b, now) then 1.0 else 0.0) == b.tokens + Gained(b.rate, b.updatedAt, now)
    ensures Look(b, now).updatedAt == now && Look(b, now).rate == b.rate
    ensures Grants(b, now) <==> b.tokens + Gained(b.rate, b.updatedAt, now) >= 1.0
  {
    hide Gained;
  }

  // Over such a stretch every token is granted or still at hand: what there
  // was, and what trickled in.
  lemma {:induction false} NothingIsLost(b: Bucket, looks: seq<real>)
    requires NeverOver(b, looks)
    ensures var (b', grants) := Run(b, looks);
            && |grants| as real + b'.tokens == b.tokens + Gained(b.rate, b.updatedAt, b'.updatedAt)
            && b'.rate == b.rate && b'.updatedAt == (if looks == [] then b.updatedAt else looks[|looks| - 1])
    decreases |looks|
  {
    hide Gained, Look, Grants;
    if looks == [] {
      GainedSplits(b.rate, b.updatedAt, b.updatedAt, b.updatedAt);
    } else {
      var front, last := looks[..|looks| - 1], looks[|looks| - 1];
      NothingIsLost(b, front);
      var m := Run(b, front).0;
      LookLosesNothing(m, last);
      GainedSplits(b.rate, b.updatedAt, m.updatedAt, last);
    }
  }

  // n looks at one moment.
  function AtOnce(now: real, n: nat): (looks: seq<real>)
    ensures |looks| == n
  {
    seq(n, _ => now)
  }

  // The bucket is full by `now`: it is already, or has been left alone for
  // capacity / rate seconds.
  ghost predicate FullBy(b: Bucket, now: real) {
    b.tokens == b.capacity || b.capacity <= Gained(b.rate, b.updatedAt, now)
  }

  lemma IdleFills(b: Bucket, now: real)
    requires Sane(b) && b.updatedAt + b.capacity / b.rate <= now
    ensures FullBy(b, now)
  {
    hide Gained;
    GainedInTime(b.rate, b.updatedAt, b.capacity);
    GainedGrows(b.rate, b.updatedAt, b.updatedAt + b.capacity / b.rate, now);
  }

  // The whole burst can be used: of n looks at one moment at a full bucket
  // exactly the first min(n, burst) are granted.
  lemma {:induction false} BurstIsUsable(b: Bucket, burst: nat, now: real, n: nat)
    requires Sane(b) && b.capacity == burst as real && b.updatedAt <= now && FullBy(b, now)
    ensures |Run(b, AtOnce(now, n)).1| == Min(n, burst)
    ensures n > 0 ==> Run(b, AtOnce(now, n)).0 == Bucket(b.rate, b.capacity, (burst - Min(n, burst)) as real, now)
  {
    hide Gained;
    if n > 0 {
      BurstIsUsable(b, burst, now, n - 1);
      assert AtOnce(now, n)[..n - 1] == AtOnce(now, n - 1);
      if n == 1 {
        GainedSign(b.rate, b.updatedAt, now);
      } else {
        GainedSplits(b.rate, now, now, now);
      }
    }
  }

  ghost predicate Idle(b: Bucket, rate: real, burst: nat, now: real)
    requires rate > 0.0
  {
    Sane(b) && b.rate == rate && b.capacity == burst as real && b.updatedAt <= now && b.updatedAt + b.capacity / rate <= now
  }

  // The same, from the start and after any idle of capacity / rate seconds.
  lemma BurstAtTheStartAndAfterIdling(rate: real, burst: nat, start: real, b: Bucket, now: real, n: nat)
    requires rate > 0.0 && start <= now
    ensures |Run(Full(rate, burst, start), AtOnce(now, n)).1| == Min(n, burst)
    ensures Idle(b, rate, burst, now) ==> |Run(b, AtOnce(now, n)).1| == Min(n, burst)
  {
    hide Gained, Run, AtOnce;
    BurstIsUsable(Full(rate, burst, start), burst, now, n);
    if Idle(b, rate, burst, now) {
      IdleFills(b, now);
      BurstIsUsable(b, burst, now, n);
    }
  }

  // After a refusal a look succeeds exactly when the computed wait has passed.
  lemma WaitIsExact(b: Bucket, now: real, later: real)
    requires Sane(b) && b.updatedAt <= now <= later && !Grants(b, now)
    ensures b.capacity >= 1.0 ==> (Grants(Look(b, now), later) <==> now + WaitFor(Look(b, now)) <= later)
    ensures b.capacity < 1.0 ==> !Grants(Look(b, now), later)
  {
    hide Gained, WaitFor;
    var r := Look(b, now);
    LookTakes(b, now);
    var due := now + WaitFor(r);
    WaitFills(r);
    GainedGrows(r.rate, now, due, later);
    GainedGrows(r.rate, now, later, due);
  }

  lemma WaitFills(r: Bucket)
    requires r.rate > 0.0
    ensures Gained(r.rate, r.updatedAt, r.updatedAt + WaitFor(r)) == 1.0 - r.tokens
  {
    hide Gained;
    GainedInTime(r.rate, r.updatedAt, 1.0 - r.tokens);
  }

  // ---------- the limiter ----------

  // A monotonic clock. A sleep lasts at least as long as asked.
  class Clock {
    var now: real

    constructor ()
    {
      now := 0.0;
    }

    method Monotonic() returns (t: real)
      modifies this
      ensures old(now) <= now == t
    {
      t := *;
      if t < now {
        t := now;
      }
      now := t;
    }

    method Sleep(seconds: real)
      modifies this
      ensures old(now) + seconds <= now
    {
      var t: real := *;
      now := if t < now + seconds then now + seconds else t;
    }
  }

  class TokenBucketRateLimiter {
    const ratePerS: real
    const capacity: real
    var tokens: real
    var updatedAt: real
    ghost var grants: seq<real>

    function State(): Bucket
      reads this
    {
      Bucket(ratePerS, capacity, tokens, updatedAt)
    }

    ghost predicate Valid()
      reads this
    {
      Sane(State()) && Spaced(State(), grants) && WithinRate(ratePerS, capacity, grants)
    }

    constructor (ratePerS: real, burst: nat, clock: Clock)
      requires ratePerS > 0.0
      ensures Valid() && State() == Full(ratePerS, burst, clock.now) && grants == []
    {
      this.ratePerS, this.capacity := ratePerS, burst as real;
      tokens, updatedAt, grants := burst as real, clock.now, [];
    }

    // One turn of the loop: refill, then take a token if there is one.
    method Turn(now: real) returns (granted: bool)
      requires Valid() && updatedAt <= now
      modifies this
      ensures Valid() && State() == Look(old(State()), now)
      ensures granted == Grants(old(State()), now)
      ensures grants == if granted then old(grants) + [now] else old(grants)
    {
      hide Gained, Spaced, WithinRate;
      ghost var before := State();
      LookSpaced(before, now, grants);
      var elapsed := now - updatedAt;
      GainedIs(ratePerS, updatedAt, now);
      updatedAt := now;
      tokens := if tokens + elapsed * ratePerS < capacity then tokens + elapsed * ratePerS else capacity;
      assert State() == Refilled(before, now);
      granted := tokens >= 1.0;
      if granted {
        tokens := tokens - 1.0;
        grants := grants + [now];
        SpacedIsWithinRate(State(), old(grants), now);
      }
    }

    // Takes one token, sleeping if there is none. With burst >= 1 one sleep
    // is always enough.
    method Acquire(clock: Clock) returns (sleeps: nat)
      requires Valid() && updatedAt <= clock.now && capacity >= 1.0
      modifies this, clock
      ensures Valid() && updatedAt <= clock.now
      ensures grants == old(grants) + [updatedAt] && old(clock.now) <= updatedAt
      ensures sleeps <= 1 && (Grants(old(State()), old(clock.now)) ==> sleeps == 0)
      ensures sleeps == 0 ==> State() == Look(old(State()), updatedAt)
    {
      hide Gained, Spaced, WithinRate, Look, Grants, Sane, WaitFor;
      sleeps := 0;
      while true
        invariant Valid() && updatedAt <= clock.now && grants == old(grants) && sleeps <= 1
        invariant old(clock.now) <= clock.now
        invariant sleeps == 0 ==> State() == old(State())
        invariant sleeps == 1 ==> Grants(State(), clock.now) && !Grants(old(State()), old(clock.now))
        decreases 1 - sleeps
      {
        ghost var before, wasAt := State(), clock.now;
        var now := clock.Monotonic();
        if Grants(before, wasAt) {
          StillGrants(before, wasAt, now);
        } else if Grants(before, old(clock.now)) {
          StillGrants(before, old(clock.now), now);
        }
        LookTakes(before, now);
        var granted := Turn(now);
        if granted {
          return;
        }
        RefusalIsSane(before, now);
        var wait := (1.0 - tokens) / ratePerS;
        WaitIsPositive(State());
        var jitter: real := *;
        if jitter < 0.0 || wait * 0.2 < jitter {
          jitter := 0.0;
        }
        clock.Sleep(wait + jitter);
        WaitIsExact(before, now, clock.now);
        sleeps := sleeps + 1;
      }
    }
  }

  lemma GainedIs(rate: real, from: real, to: real)
    ensures Gained(rate, from, to) == (to - from) * rate
  {
  }

  // A refusal leaves less than one token.
  lemma RefusalIsSane(b: Bucket, now: real)
    requires Sane(b) && b.updatedAt <= now && !Grants(b, now)
    ensures Look(b, now).rate == b.rate > 0.0 && Look(b, now).capacity == b.capacity
    ensures Look(b, now).tokens < 1.0 && Look(b, now).updatedAt == now
  {
    hide Gained;
  }

  lemma WaitIsPositive(b: Bucket)
    requires b.rate > 0.0 && b.tokens < 1.0
    ensures WaitFor(b) == (1.0 - b.tokens) / b.rate
    ensures WaitFor(b) > 0.0 && 0.0 <= WaitFor(b) * 0.2
  {
    Quotient(1.0 - b.tokens, b.rate);
  }

  lemma Quotient(x: real, y: real)
    requires x > 0.0 && y > 0.0
    ensures x / y > 0.0
  {
  }

  // Once a look would succeed, a later one does too.
  lemma StillGrants(b: Bucket, a: real, c: real)
    requires Sane(b) && b.updatedAt <= a <= c && Grants(b, a)
    ensures Grants(b, c)
  {
    hide Gained;
    GainedGrows(b.rate, b.updatedAt, a, c);
  }
}
