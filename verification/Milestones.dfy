// _detect_milestones, MILESTONE_THRESHOLDS and _strip_phantom_zero_lead of
// app/analytics/creator_stats.py.
module Milestones {
  import opened Common

  datatype KeyEvent = KeyEvent(date: int, threshold: int)

  // [n * unit for n in range(lo, hi)]
  function Multiples(unit: int, lo: nat, hi: nat): (r: seq<int>)
    requires lo <= hi
    ensures |r| == hi - lo
  {
    seq(hi - lo, k requires 0 <= k < hi - lo => (lo + k) * unit)
  }

  function Thresholds(): seq<int> {
    Multiples(1_000, 1, 10) + Multiples(5_000, 2, 10) + Multiples(10_000, 5, 10)
    + Multiples(50_000, 2, 10) + Multiples(100_000, 5, 10) + Multiples(1_000_000, 1, 501)
  }

  ghost predicate Rising(s: seq<int>) {
    forall i, j :: 0 <= i < j < |s| ==> s[i] < s[j]
  }

  lemma MultiplesRise(unit: int, lo: nat, hi: nat)
    requires unit > 0 && lo < hi
    ensures var m := Multiples(unit, lo, hi);
            Rising(m) && m[0] == lo * unit && m[|m| - 1] == (hi - 1) * unit
  {
    var m := Multiples(unit, lo, hi);
    forall i, j | 0 <= i < j < |m|
      ensures m[i] < m[j]
    {
      assert (lo + j) * unit == (lo + i) * unit + (j - i) * unit;
      assert (j - i) * unit > 0;
    }
  }

  lemma JoinRises(a: seq<int>, b: seq<int>)
    requires Rising(a) && Rising(b) && a != [] && b != [] && a[|a| - 1] < b[0]
    ensures Rising(a + b) && (a + b)[0] == a[0] && (a + b)[|a + b| - 1] == b[|b| - 1]
  {
    forall i, j | 0 <= i < j < |a + b|
      ensures (a + b)[i] < (a + b)[j]
    {
      if i < |a| <= j {
        assert a[i] <= a[|a| - 1] < b[0] <= b[j - |a|];
      }
    }
  }

  // The six blocks of the table join without overlap or repeat.
  lemma ThresholdsRise()
    ensures Rising(Thresholds())
    ensures forall t :: t in Thresholds() ==> 1_000 <= t <= 500_000_000
  {
    hide Multiples, Rising;
    var a, b, c := Multiples(1_000, 1, 10), Multiples(5_000, 2, 10), Multiples(10_000, 5, 10);
    var d, e, f := Multiples(50_000, 2, 10), Multiples(100_000, 5, 10), Multiples(1_000_000, 1, 501);
    MultiplesRise(1_000, 1, 10);
    MultiplesRise(5_000, 2, 10);
    MultiplesRise(10_000, 5, 10);
    MultiplesRise(50_000, 2, 10);
    MultiplesRise(100_000, 5, 10);
    MultiplesRise(1_000_000, 1, 501);
    JoinRises(a, b);
    JoinRises(a + b, c);
    JoinRises(a + b + c, d);
    JoinRises(a + b + c + d, e);
    JoinRises(a + b + c + d + e, f);
    RisingBounds(Thresholds());
  }

  lemma RisingBounds(s: seq<int>)
    requires Rising(s) && s != []
    ensures forall t :: t in s ==> s[0] <= t <= s[|s| - 1]
  {
  }

  // point.value or 0
  function ValueOf(p: GrowthPoint): int {
    if p.value.Some? then p.value.value else 0
  }

  // The point has a value, and it is at least t.
  ghost predicate Reaches(p: GrowthPoint, t: int) {
    p.value.Some? && t <= p.value.value
  }

  // The point has no value, or zero.
  ghost predicate Blank(p: GrowthPoint) {
    p.value == None || p.value == Some(0)
  }

  lemma ValueIs(p: GrowthPoint, t: int)
    ensures t > 0 ==> (Reaches(p, t) <==> t <= ValueOf(p))
    ensures Blank(p) <==> ValueOf(p) == 0
  {
  }

  // Point k is the first to reach t.
  ghost predicate FirstToReach(series: seq<GrowthPoint>, t: int, k: int) {
    0 <= k < |series| && Reaches(series[k], t) && forall j :: 0 <= j < k ==> !Reaches(series[j], t)
  }

  // Among the first n points, a point after the first is the first to reach
  // the event's threshold, on the event's date.
  ghost predicate Crossing(series: seq<GrowthPoint>, n: int, e: KeyEvent) {
    && e.threshold in Thresholds()
    && exists k :: 0 < k < n && FirstToReach(series, e.threshold, k) && series[k].date == e.date
  }

  ghost predicate InOrder(events: seq<KeyEvent>) {
    forall i, j :: 0 <= i < j < |events| ==> events[i].threshold < events[j].threshold
  }

  // The events are the crossings of the first n points, lowest first.
  ghost predicate Reported(series: seq<GrowthPoint>, n: nat, events: seq<KeyEvent>) {
    InOrder(events) && forall e :: e in events <==> Crossing(series, n, e)
  }

  // The highest value of the first n points, never under zero.
  function HighWater(series: seq<GrowthPoint>, n: nat): int
    requires n <= |series|
  {
    if n == 0 then 0 else Max(HighWater(series, n - 1), ValueOf(series[n - 1]))
  }

  lemma {:induction false} HighWaterIs(series: seq<GrowthPoint>, n: nat, t: int)
    requires n <= |series| && t > 0
    ensures HighWater(series, n) < t <==> forall j :: 0 <= j < n ==> ValueOf(series[j]) < t
  {
    if n > 0 {
      HighWaterIs(series, n - 1, t);
    }
  }

  // What the inner loop emits for one point from the thresholds ts.
  function Crossed(ts: seq<int>, mark: int, p: GrowthPoint): seq<KeyEvent> {
    if ts == [] then []
    else
      var last := ts[|ts| - 1];
      Crossed(ts[..|ts| - 1], mark, p) + if mark < last <= ValueOf(p) then [KeyEvent(p.date, last)] else []
  }

  lemma {:induction false} CrossedIs(ts: seq<int>, mark: int, p: GrowthPoint)
    requires Rising(ts)
    ensures InOrder(Crossed(ts, mark, p))
    ensures forall e :: e in Crossed(ts, mark, p) <==> e.threshold in ts && mark < e.threshold <= ValueOf(p) && e.date == p.date
  {
    if ts != [] {
      var n := |ts| - 1;
      assert ts == ts[..n] + [ts[n]];
      CrossedIs(ts[..n], mark, p);
      assert forall e :: e in Crossed(ts[..n], mark, p) ==> e.threshold < ts[n];
    }
  }

  method DetectMilestones(series: seq<GrowthPoint>) returns (events: seq<KeyEvent>)
    ensures Reported(series, |series|, events)
  {
    hide Reported, Crossed, Thresholds;
    var thresholds := Thresholds();
    events := [];
    var mark: Option<int> := None;
    NothingReported(series);
    for i := 0 to |series|
      invariant mark == if i == 0 then None else Some(HighWater(series, i))
      invariant Reported(series, i, events)
    {
      var p := series[i];
      if mark.Some? {
        ghost var before := events;
        CrossedStep(thresholds, mark.value, p, 0);
        for m := 0 to |thresholds|
          invariant events == before + Crossed(thresholds[..m], mark.value, p)
        {
          CrossedStep(thresholds, mark.value, p, m);
          var threshold := thresholds[m];
          if mark.value < threshold <= ValueOf(p) {
            events := events + [KeyEvent(p.date, threshold)];
          }
        }
        assert thresholds[..|thresholds|] == thresholds;
        ReportOne(series, i, before);
      } else {
        FirstPoint(series, events);
      }
      mark := Some(Max(if mark.Some? then mark.value else 0, ValueOf(p)));
    }
  }

  lemma NothingReported(series: seq<GrowthPoint>)
    ensures Reported(series, 0, [])
  {
    hide Thresholds;
  }

  lemma FirstPoint(series: seq<GrowthPoint>, events: seq<KeyEvent>)
    requires series != [] && Reported(series, 0, events)
    ensures Reported(series, 1, events)
  {
    hide Thresholds;
    assert forall e :: Crossing(series, 1, e) <==> Crossing(series, 0, e);
  }

  lemma CrossedStep(ts: seq<int>, mark: int, p: GrowthPoint, m: nat)
    requires m <= |ts|
    ensures Crossed(ts[..0], mark, p) == []
    ensures m < |ts| ==>
              Crossed(ts[..m + 1], mark, p)
              == Crossed(ts[..m], mark, p) + if mark < ts[m] <= ValueOf(p) then [KeyEvent(p.date, ts[m])] else []
  {
    if m < |ts| {
      assert ts[..m + 1][..m] == ts[..m];
    }
  }

  // The crossings of one more point.
  lemma CrossingStep(series: seq<GrowthPoint>, i: nat, e: KeyEvent)
    requires 0 < i < |series|
    ensures Crossing(series, i + 1, e) <==>
              || Crossing(series, i, e)
              || (e.threshold in Thresholds() && FirstToReach(series, e.threshold, i) && e.date == series[i].date)
    ensures Crossing(series, i, e) ==> e.threshold <= HighWater(series, i)
    ensures e.threshold in Thresholds() ==>
              (FirstToReach(series, e.threshold, i)
               <==> HighWater(series, i) < e.threshold <= ValueOf(series[i]))
  {
    hide Thresholds, Rising, HighWater;
    ThresholdsRise();
    if e.threshold in Thresholds() {
      HighWaterIs(series, i, e.threshold);
    }
  }

  lemma ReportOne(series: seq<GrowthPoint>, i: nat, events: seq<KeyEvent>)
    requires 0 < i < |series| && Reported(series, i, events)
    ensures Reported(series, i + 1, events + Crossed(Thresholds(), HighWater(series, i), series[i]))
  {
    hide Thresholds, Rising, HighWater, Crossing, FirstToReach, Crossed;
    ThresholdsRise();
    var added := Crossed(Thresholds(), HighWater(series, i), series[i]);
    CrossedIs(Thresholds(), HighWater(series, i), series[i]);
    forall e
      ensures e in events + added <==> Crossing(series, i + 1, e)
      ensures e in events ==> e.threshold <= HighWater(series, i)
    {
      CrossingStep(series, i, e);
    }
  }

  // ---------- main result ----------

  // Exactly the thresholds above the first value and up to the highest one
  // fire, each once, however the series dips and climbs back.
  lemma FiresIffCrossed(series: seq<GrowthPoint>, events: seq<KeyEvent>, t: int)
    requires series != [] && Reported(series, |series|, events) && t in Thresholds()
    ensures (exists i :: 0 <= i < |events| && events[i].threshold == t)
            <==> ValueOf(series[0]) < t <= HighWater(series, |series|)
    ensures forall i, j :: 0 <= i < |events| && 0 <= j < |events| && events[i].threshold == t == events[j].threshold ==> i == j
  {
    hide Thresholds, Rising, HighWater;
    ThresholdsRise();
    HighWaterIs(series, |series|, t);
    if ValueOf(series[0]) < t <= HighWater(series, |series|) {
      var k := FirstReach(series, t, |series|);
      var e := KeyEvent(series[k].date, t);
      assert Crossing(series, |series|, e);
      assert e in events;
    }
    if i :| 0 <= i < |events| && events[i].threshold == t {
      assert events[i] in events;
    }
  }

  lemma {:induction false} FirstReach(series: seq<GrowthPoint>, t: int, n: nat) returns (k: int)
    requires n <= |series| && exists j :: 0 <= j < n && Reaches(series[j], t)
    ensures k < n && FirstToReach(series, t, k)
  {
    if j :| 0 <= j < n - 1 && Reaches(series[j], t) {
      k := FirstReach(series, t, n - 1);
    } else {
      k := n - 1;
    }
  }

  // ---------- the phantom zero lead ----------

  function Stripped(points: seq<GrowthPoint>): seq<GrowthPoint> {
    if |points| >= 2 && ValueOf(points[0]) == 0 && ValueOf(points[1]) > 0 then
      [points[1].(dailyDelta := None)] + points[2..]
    else points
  }

  // The series starts with one blank point and a positive one.
  ghost predicate LoneZeroLead(points: seq<GrowthPoint>) {
    |points| >= 2 && Blank(points[0]) && Reaches(points[1], 1)
  }

  // Drops a lone zero lead and the delta to it; every later point stays as it
  // is, and so does every other series.
  method StripPhantomZeroLead(points: seq<GrowthPoint>) returns (kept: seq<GrowthPoint>)
    ensures !LoneZeroLead(points) ==> kept == points
    ensures LoneZeroLead(points) ==>
              && |kept| == |points| - 1 && kept[0] == GrowthPoint(points[1].date, points[1].value, None)
              && forall j :: 1 <= j < |kept| ==> kept[j] == points[j + 1]
    ensures kept == Stripped(points)
  {
    if |points| < 2 {
      return points;
    }
    var start := 0;
    while start < |points| - 1 && ValueOf(points[start]) == 0 && ValueOf(points[start + 1]) > 0
      invariant start == 0 || (start == 1 && ValueOf(points[0]) == 0 && ValueOf(points[1]) > 0)
      decreases |points| - start
    {
      start := start + 1;
    }
    if start == 0 {
      return points;
    }
    var rest := points[start..];
    kept := [rest[0].(dailyDelta := None)] + rest[1..];
  }

  // k zeros lead the series and a positive value follows them.
  ghost predicate ZerosThenPositive(points: seq<GrowthPoint>, k: int) {
    && 0 < k < |points|
    && (forall j :: 0 <= j < k ==> Blank(points[j]))
    && Reaches(points[k], 1)
  }

  ghost predicate PhantomLead(points: seq<GrowthPoint>) {
    exists k :: ZerosThenPositive(points, k)
  }

  // The lead is only cleared when the second point is not another zero: a
  // lead of two or more zeros is left whole.
  lemma PhantomSurvivesIff(points: seq<GrowthPoint>)
    ensures PhantomLead(Stripped(points)) <==> PhantomLead(points) && Blank(points[1])
  {
    if PhantomLead(points) {
      var k :| ZerosThenPositive(points, k);
      if k == 1 {
        assert ValueOf(Stripped(points)[0]) > 0;
      } else {
        assert Stripped(points) == points;
      }
    } else if |points| >= 2 && ValueOf(points[0]) == 0 && ValueOf(points[1]) > 0 {
      assert ZerosThenPositive(points, 1);
    }
  }

  lemma TwoZerosAreKept()
    ensures var points := [GrowthPoint(0, Some(0), None), GrowthPoint(1, Some(0), Some(0)), GrowthPoint(2, Some(7), Some(7))];
            Stripped(points) == points && PhantomLead(points)
  {
    var points := [GrowthPoint(0, Some(0), None), GrowthPoint(1, Some(0), Some(0)), GrowthPoint(2, Some(7), Some(7))];
    assert ZerosThenPositive(points, 2);
  }

  // A lone leading zero fires nothing at or below the first real value; a
  // longer lead fires every threshold up to it, all on one day.
  lemma PhantomFlood(points: seq<GrowthPoint>, k: int, t: int, n: nat)
    requires ZerosThenPositive(points, k) && t in Thresholds() && t <= ValueOf(points[k])
    ensures k == 1 ==> forall date :: !Crossing(Stripped(points), n, KeyEvent(date, t))
    ensures k > 1 && n > k ==> Crossing(Stripped(points), n, KeyEvent(points[k].date, t))
  {
    hide Thresholds, Rising;
    ThresholdsRise();
    if k == 1 {
      assert ValueOf(Stripped(points)[0]) >= t;
    } else {
      assert Stripped(points) == points && FirstToReach(points, t, k);
    }
  }

  // Point for point, stripping a lone zero lead.
  lemma StrippedIs(points: seq<GrowthPoint>)
    requires LoneZeroLead(points)
    ensures |Stripped(points)| == |points| - 1
    ensures forall j, t :: 0 <= j < |points| - 1 ==> (Reaches(Stripped(points)[j], t) <==> Reaches(points[j + 1], t))
    ensures forall j :: 0 <= j < |points| - 1 ==> Stripped(points)[j].date == points[j + 1].date
  {
  }

  // After stripping a lone zero lead the same events fire as before, on the
  // same dates, but for those the first real value alone set off.
  lemma StrippingSparesLaterEvents(points: seq<GrowthPoint>, e: KeyEvent)
    requires LoneZeroLead(points)
    ensures Crossing(Stripped(points), |points| - 1, e) <==>
              Crossing(points, |points|, e) && !Reaches(points[1], e.threshold)
  {
    hide Thresholds, Rising, Stripped, Reaches;
    ThresholdsRise();
    StrippedIs(points);
    var kept, t := Stripped(points), e.threshold;
    if t in Thresholds() {
      BlankReachesNothing(points[0], t);
      if Crossing(kept, |points| - 1, e) {
        var k :| 0 < k < |points| - 1 && FirstToReach(kept, t, k) && kept[k].date == e.date;
        ShiftedFirst(points, kept, t, k);
        assert !Reaches(kept[0], t);
      }
      if Crossing(points, |points|, e) && !Reaches(points[1], t) {
        var k :| 0 < k < |points| && FirstToReach(points, t, k) && points[k].date == e.date;
        ShiftedFirst(points, kept, t, k - 1);
      }
    }
  }

  lemma BlankReachesNothing(p: GrowthPoint, t: int)
    requires Blank(p) && t > 0
    ensures !Reaches(p, t)
  {
  }

  lemma ShiftedFirst(points: seq<GrowthPoint>, kept: seq<GrowthPoint>, t: int, k: int)
    requires |points| > 0 && |kept| == |points| - 1 && !Reaches(points[0], t) && 0 <= k < |kept|
    requires forall j :: 0 <= j < |kept| ==> (Reaches(kept[j], t) <==> Reaches(points[j + 1], t))
    ensures FirstToReach(kept, t, k) <==> FirstToReach(points, t, k + 1)
  {
    hide Reaches;
    if FirstToReach(kept, t, k) {
      forall j | 0 <= j < k + 1
        ensures !Reaches(points[j], t)
      {
        if j > 0 {
          assert !Reaches(kept[j - 1], t);
        }
      }
    }
    if FirstToReach(points, t, k + 1) {
      forall j | 0 <= j < k
        ensures !Reaches(kept[j], t)
      {
        assert !Reaches(points[j + 1], t);
      }
    }
  }

  // What fires then: exactly the thresholds above the first real value and up
  // to the highest.
  lemma StrippedFires(points: seq<GrowthPoint>, events: seq<KeyEvent>, t: int)
    requires LoneZeroLead(points) && Reported(Stripped(points), |points| - 1, events) && t in Thresholds()
    ensures (exists i :: 0 <= i < |events| && events[i].threshold == t)
            <==> ValueOf(points[1]) < t <= HighWater(points, |points|)
  {
    hide Thresholds, Rising, HighWater, Stripped, Reaches, ValueOf;
    ThresholdsRise();
    StrippedIs(points);
    var kept := Stripped(points);
    FiresIffCrossed(kept, events, t);
    ValueIs(points[1], t);
    ValueIs(kept[0], t);
    HighWaterReached(points, |points|, t);
    HighWaterReached(kept, |kept|, t);
    BlankReachesNothing(points[0], t);
    assert forall j :: 1 <= j < |points| ==> (Reaches(points[j], t) <==> Reaches(kept[j - 1], t));
  }

  lemma HighWaterReached(series: seq<GrowthPoint>, n: nat, t: int)
    requires n <= |series| && t > 0
    ensures t <= HighWater(series, n) <==> exists j :: 0 <= j < n && Reaches(series[j], t)
  {
    hide HighWater;
    HighWaterIs(series, n, t);
    forall j | 0 <= j < n
      ensures Reaches(series[j], t) <==> t <= ValueOf(series[j])
    {
      ValueIs(series[j], t);
    }
  }

  // ---------- the table ----------

  lemma OnlyZeroIsSmall(d: int, unit: int, r: int)
    requires d * unit == r && 0 <= r < unit
    ensures r == 0 && d == 0
  {
    if d >= 1 {
      Grows(d - 1, unit);
    } else if d <= -1 {
      Grows(-d - 1, unit);
    }
  }

  lemma Grows(x: int, unit: int)
    requires x >= 0 && unit > 0
    ensures (x + 1) * unit >= unit && (-x - 1) * unit <= -unit
  {
    assert x * unit >= 0;
    assert (x + 1) * unit == x * unit + unit;
    assert (-x - 1) * unit == -(x * unit) - unit;
  }

  lemma Divides(t: int, q: int, unit: int)
    requires unit > 0 && t == q * unit
    ensures t / unit == q && t % unit == 0
  {
    var d := q - t / unit;
    assert d * unit == q * unit - t / unit * unit;
    OnlyZeroIsSmall(d, unit, t % unit);
  }

  lemma MultiplesAre(unit: int, lo: nat, hi: nat, t: int)
    requires unit > 0 && lo < hi
    ensures t in Multiples(unit, lo, hi) <==> t % unit == 0 && lo <= t / unit < hi
  {
    var m := Multiples(unit, lo, hi);
    if k: int :| 0 <= k < |m| && m[k] == t {
      Divides(t, lo + k, unit);
    }
    if t % unit == 0 && lo <= t / unit < hi {
      assert m[t / unit - lo] == t;
    }
  }

  // The milestones: thousands below 10K, five thousands below 50K, ten
  // thousands below 100K, and so on; from a million on every million, up to
  // 500M.
  lemma ThresholdsAre(t: int)
    ensures t in Thresholds() <==>
              || (t % 1_000 == 0 && 1_000 <= t < 10_000)
              || (t % 5_000 == 0 && 10_000 <= t < 50_000)
              || (t % 10_000 == 0 && 50_000 <= t < 100_000)
              || (t % 50_000 == 0 && 100_000 <= t < 500_000)
              || (t % 100_000 == 0 && 500_000 <= t < 1_000_000)
              || (t % 1_000_000 == 0 && 1_000_000 <= t <= 500_000_000)
  {
    hide Multiples;
    MultiplesAre(1_000, 1, 10, t);
    MultiplesAre(5_000, 2, 10, t);
    MultiplesAre(10_000, 5, 10, t);
    MultiplesAre(50_000, 2, 10, t);
    MultiplesAre(100_000, 5, 10, t);
    MultiplesAre(1_000_000, 1, 501, t);
  }
}
