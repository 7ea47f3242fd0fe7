// _interpolate_daily_gaps of app/analytics/creator_stats.py: one point per
// calendar day between known totals, rounded half to even.
module Interpolation {
  import opened Common

  // Python's round of the exact quotient n / d.
  function RoundHalfEven(n: int, d: nat): int
    requires d > 0
  {
    var q, r := n / d, n % d;
    if 2 * r < d || (2 * r == d && q % 2 == 0) then q else q + 1
  }

  // The result is a nearest integer, and on a tie the even one.
  lemma RoundsToNearest(n: int, d: nat)
    requires d > 0
    ensures var v := RoundHalfEven(n, d);
            && 2 * n - d <= 2 * (v * d) <= 2 * n + d
            && (2 * (v * d) == 2 * n + d || 2 * (v * d) == 2 * n - d ==> v % 2 == 0)
  {
    var q, r := n / d, n % d;
    assert n == q * d + r;
    assert (q + 1) * d == q * d + d;
  }

  lemma Apart(a: int, b: int, d: nat)
    requires a < b
    ensures a * d + d <= b * d
  {
    assert (b - a - 1) * d >= 0;
    assert b * d == a * d + d + (b - a - 1) * d;
  }

  lemma RoundMonotone(m: int, n: int, d: nat)
    requires d > 0 && m <= n
    ensures RoundHalfEven(m, d) <= RoundHalfEven(n, d)
  {
    hide RoundHalfEven;
    var a, b := RoundHalfEven(m, d), RoundHalfEven(n, d);
    RoundsToNearest(m, d);
    RoundsToNearest(n, d);
    if b < a {
      Apart(b, a, d);
    }
  }

  lemma RoundExact(v: int, d: nat)
    requires d > 0
    ensures RoundHalfEven(v * d, d) == v
  {
    hide RoundHalfEven;
    var w := RoundHalfEven(v * d, d);
    RoundsToNearest(v * d, d);
    if w < v {
      Apart(w, v, d);
    } else if v < w {
      Apart(v, w, d);
    }
  }

  // ---------- the filled series ----------

  ghost predicate Increasing(ds: seq<int>) {
    forall i, j :: 0 <= i < j < |ds| ==> ds[i] < ds[j]
  }

  // The rounded value on the straight line from (a, va) to (b, vb).
  function OnLine(a: int, va: int, b: int, vb: int, day: int): int
    requires a < b
  {
    RoundHalfEven(va * (b - a) + (vb - va) * (day - a), b - a)
  }

  // The value the series has on a day: on the line through the two known
  // points around it.
  function ValueAt(ds: seq<int>, vs: seq<int>, day: int): int
    requires |ds| == |vs| > 0 && Increasing(ds)
    decreases |ds|
  {
    if |ds| == 1 then vs[0]
    else if day < ds[1] then OnLine(ds[0], vs[0], ds[1], vs[1], day)
    else ValueAt(ds[1..], vs[1..], day)
  }

  function DeltaAt(ds: seq<int>, vs: seq<int>, day: int): Option<int>
    requires |ds| == |vs| > 0 && Increasing(ds)
  {
    if day == ds[0] then None else Some(ValueAt(ds, vs, day) - ValueAt(ds, vs, day - 1))
  }

  function PointAt(ds: seq<int>, vs: seq<int>, day: int): GrowthPoint
    requires |ds| == |vs| > 0 && Increasing(ds)
  {
    GrowthPoint(day, Some(ValueAt(ds, vs, day)), DeltaAt(ds, vs, day))
  }

  // What the code promises: every calendar day once, first to last.
  ghost predicate DailySeries(ds: seq<int>, vs: seq<int>, points: seq<GrowthPoint>)
    requires |ds| == |vs| > 0 && Increasing(ds)
  {
    && |points| == ds[|ds| - 1] - ds[0] + 1
    && forall k :: 0 <= k < |points| ==> points[k] == PointAt(ds, vs, ds[0] + k)
  }

  lemma {:induction false} InSegment(ds: seq<int>, vs: seq<int>, i: nat, day: int)
    requires |ds| == |vs| && Increasing(ds) && i + 1 < |ds| && ds[i] <= day < ds[i + 1]
    ensures ValueAt(ds, vs, day) == OnLine(ds[i], vs[i], ds[i + 1], vs[i + 1], day)
    decreases i
  {
    if i > 0 {
      assert ds[1] <= ds[i];
      InSegment(ds[1..], vs[1..], i - 1, day);
    }
  }

  lemma {:induction false} AtLast(ds: seq<int>, vs: seq<int>)
    requires |ds| == |vs| > 0 && Increasing(ds)
    ensures ValueAt(ds, vs, ds[|ds| - 1]) == vs[|ds| - 1]
    decreases |ds|
  {
    if |ds| > 1 {
      assert ds[1] <= ds[|ds| - 1];
      AtLast(ds[1..], vs[1..]);
    }
  }

  // The points of the first n days.
  ghost function FirstDays(ds: seq<int>, vs: seq<int>, n: nat): seq<GrowthPoint>
    requires |ds| == |vs| > 0 && Increasing(ds)
  {
    if n == 0 then [] else FirstDays(ds, vs, n - 1) + [PointAt(ds, vs, ds[0] + n - 1)]
  }

  lemma {:induction false} FirstDaysAre(ds: seq<int>, vs: seq<int>, n: nat)
    requires |ds| == |vs| > 0 && Increasing(ds)
    ensures |FirstDays(ds, vs, n)| == n
    ensures forall k :: 0 <= k < n ==> FirstDays(ds, vs, n)[k] == PointAt(ds, vs, ds[0] + k)
  {
    hide PointAt;
    if n > 0 {
      FirstDaysAre(ds, vs, n - 1);
    }
  }

  // The first |points| days are done, and `previous` is the last value.
  ghost predicate DoneSoFar(ds: seq<int>, vs: seq<int>, points: seq<GrowthPoint>, previous: Option<int>)
    requires |ds| == |vs| > 0 && Increasing(ds)
  {
    && points == FirstDays(ds, vs, |points|)
    && previous == LatestOf(ds, vs, |points|)
  }

  ghost function LatestOf(ds: seq<int>, vs: seq<int>, n: nat): Option<int>
    requires |ds| == |vs| > 0 && Increasing(ds)
  {
    if n == 0 then None else Some(ValueAt(ds, vs, ds[0] + n - 1))
  }

  lemma OneMoreDay(ds: seq<int>, vs: seq<int>, points: seq<GrowthPoint>, previous: Option<int>, next: GrowthPoint)
    requires |ds| == |vs| > 0 && Increasing(ds) && DoneSoFar(ds, vs, points, previous)
    requires next == NextPoint(previous, ds[0] + |points|, ValueAt(ds, vs, ds[0] + |points|))
    ensures DoneSoFar(ds, vs, points + [next], next.value)
  {
    hide ValueAt, PointAt, DeltaAt, Increasing, FirstDays, OnLine, LatestOf;
    NewPoint(ds, vs, |points|, previous);
    NextDays(ds, vs, |points|);
  }

  lemma NextDays(ds: seq<int>, vs: seq<int>, n: nat)
    requires |ds| == |vs| > 0 && Increasing(ds)
    ensures FirstDays(ds, vs, n + 1) == FirstDays(ds, vs, n) + [PointAt(ds, vs, ds[0] + n)]
  {
    hide ValueAt, PointAt, Increasing;
  }

  // The point the loop appends.
  function NextPoint(previous: Option<int>, day: int, value: int): GrowthPoint {
    GrowthPoint(day, Some(value), if previous.Some? then Some(value - previous.value) else None)
  }

  lemma NewPoint(ds: seq<int>, vs: seq<int>, n: nat, previous: Option<int>)
    requires |ds| == |vs| > 0 && Increasing(ds)
    requires previous == LatestOf(ds, vs, n)
    ensures LatestOf(ds, vs, n + 1) == Some(ValueAt(ds, vs, ds[0] + n))
    ensures PointAt(ds, vs, ds[0] + n) == NextPoint(previous, ds[0] + n, ValueAt(ds, vs, ds[0] + n))
  {
    hide ValueAt;
  }

  method InterpolateDailyGaps(ds: seq<int>, vs: seq<int>) returns (points: seq<GrowthPoint>)
    requires |ds| == |vs| && Increasing(ds)
    ensures ds == [] ==> points == []
    ensures ds != [] ==> DailySeries(ds, vs, points)
  {
    hide ValueAt, OnLine, RoundHalfEven, DoneSoFar;
    points := [];
    if ds == [] {
      return;
    }
    AtLast(ds, vs);
    var previous: Option<int> := None;
    NothingDone(ds, vs);
    if |ds| == 1 {
      points := [GrowthPoint(ds[0], Some(vs[0]), None)];
      OneMoreDay(ds, vs, [], None, points[0]);
      Finished(ds, vs, [] + points, Some(vs[0]));
      return;
    }
    for i := 0 to |ds| - 1
      invariant |points| == ds[i] - ds[0]
      invariant DoneSoFar(ds, vs, points, previous)
    {
      var startDay, endDay, startTotal, endTotal := ds[i], ds[i + 1], vs[i], vs[i + 1];
      var span: nat := endDay - startDay;
      for offset := 0 to span
        invariant |points| == startDay + offset - ds[0]
        invariant DoneSoFar(ds, vs, points, previous)
      {
        var value := RoundHalfEven(startTotal * span + (endTotal - startTotal) * offset, span);
        InSegment(ds, vs, i, startDay + offset);
        LineIs(startDay, startTotal, endDay, endTotal, startDay + offset);
        var delta := if previous.Some? then Some(value - previous.value) else None;
        OneMoreDay(ds, vs, points, previous, GrowthPoint(startDay + offset, Some(value), delta));
        points := points + [GrowthPoint(startDay + offset, Some(value), delta)];
        previous := Some(value);
      }
    }
    var last := |ds| - 1;
    var delta := if previous.Some? then Some(vs[last] - previous.value) else None;
    OneMoreDay(ds, vs, points, previous, GrowthPoint(ds[last], Some(vs[last]), delta));
    points := points + [GrowthPoint(ds[last], Some(vs[last]), delta)];
    Finished(ds, vs, points, Some(vs[last]));
  }

  lemma NothingDone(ds: seq<int>, vs: seq<int>)
    requires |ds| == |vs| > 0 && Increasing(ds)
    ensures DoneSoFar(ds, vs, [], None)
  {
  }

  lemma Finished(ds: seq<int>, vs: seq<int>, points: seq<GrowthPoint>, previous: Option<int>)
    requires |ds| == |vs| > 0 && Increasing(ds) && DoneSoFar(ds, vs, points, previous)
    requires |points| == ds[|ds| - 1] - ds[0] + 1
    ensures DailySeries(ds, vs, points)
  {
    hide PointAt, Increasing;
    FirstDaysAre(ds, vs, |points|);
  }

  lemma LineIs(a: int, va: int, b: int, vb: int, day: int)
    requires a < b
    ensures OnLine(a, va, b, vb, day) == RoundHalfEven(va * (b - a) + (vb - va) * (day - a), b - a)
  {
  }

  // ---------- what the filled series means ----------

  lemma LineBetween(a: int, va: int, b: int, vb: int, day: int)
    requires a < b && a <= day <= b
    ensures Min(va, vb) <= OnLine(a, va, b, vb, day) <= Max(va, vb)
    ensures OnLine(a, va, b, vb, a) == va && OnLine(a, va, b, vb, b) == vb
  {
    hide RoundHalfEven;
    var s, o := b - a, day - a;
    var n := va * s + (vb - va) * o;
    assert vb * s == va * s + (vb - va) * s;
    RoundExact(va, s);
    RoundExact(vb, s);
    if va <= vb {
      Scaled(vb - va, o, s);
      RoundMonotone(va * s, n, s);
      RoundMonotone(n, vb * s, s);
    } else {
      Scaled(va - vb, o, s);
      assert (vb - va) * o == -((va - vb) * o) && (vb - va) * s == -((va - vb) * s);
      RoundMonotone(vb * s, n, s);
      RoundMonotone(n, va * s, s);
    }
    assert (vb - va) * 0 == 0;
  }

  lemma Scaled(c: int, o: int, s: int)
    requires c >= 0 && 0 <= o <= s
    ensures 0 <= c * o <= c * s
  {
    assert c * s - c * o == c * (s - o);
  }

  lemma LineMonotone(a: int, va: int, b: int, vb: int, x: int, y: int)
    requires a < b && va <= vb && x <= y
    ensures OnLine(a, va, b, vb, x) <= OnLine(a, va, b, vb, y)
  {
    hide RoundHalfEven;
    assert (vb - va) * (y - a) == (vb - va) * (x - a) + (vb - va) * (y - x);
    assert (vb - va) * (y - x) >= 0;
    RoundMonotone(va * (b - a) + (vb - va) * (x - a), va * (b - a) + (vb - va) * (y - a), b - a);
  }

  // Every known value is hit exactly.
  lemma HitsAnchors(ds: seq<int>, vs: seq<int>, i: nat)
    requires |ds| == |vs| && Increasing(ds) && i < |ds|
    ensures ValueAt(ds, vs, ds[i]) == vs[i]
  {
    hide ValueAt, OnLine;
    if i + 1 < |ds| {
      InSegment(ds, vs, i, ds[i]);
      LineBetween(ds[i], vs[i], ds[i + 1], vs[i + 1], ds[i]);
    } else {
      AtLast(ds, vs);
    }
  }

  // A filled value lies between its two anchors, as near the line as an
  // integer can; of two equally near, it is the even one.
  lemma StaysBetween(ds: seq<int>, vs: seq<int>, i: nat, day: int)
    requires |ds| == |vs| && Increasing(ds) && i + 1 < |ds| && ds[i] <= day <= ds[i + 1]
    ensures Min(vs[i], vs[i + 1]) <= ValueAt(ds, vs, day) <= Max(vs[i], vs[i + 1])
    ensures var s, v := ds[i + 1] - ds[i], ValueAt(ds, vs, day);
            var exact := vs[i] * s + (vs[i + 1] - vs[i]) * (day - ds[i]);
            && 2 * exact - s <= 2 * (v * s) <= 2 * exact + s
            && (2 * (v * s) == 2 * exact + s || 2 * (v * s) == 2 * exact - s ==> v % 2 == 0)
  {
    hide ValueAt, RoundHalfEven;
    var s := ds[i + 1] - ds[i];
    LineBetween(ds[i], vs[i], ds[i + 1], vs[i + 1], day);
    RoundsToNearest(vs[i] * s + (vs[i + 1] - vs[i]) * (day - ds[i]), s);
    if day < ds[i + 1] {
      InSegment(ds, vs, i, day);
    } else {
      HitsAnchors(ds, vs, i + 1);
    }
  }

  // A series of totals that never fall is filled without a fall.
  lemma {:induction false} StaysMonotone(ds: seq<int>, vs: seq<int>, x: int, y: int)
    requires |ds| == |vs| > 0 && Increasing(ds) && ds[0] <= x <= y <= ds[|ds| - 1]
    requires forall i, j :: 0 <= i < j < |vs| ==> vs[i] <= vs[j]
    ensures ValueAt(ds, vs, x) <= ValueAt(ds, vs, y)
    decreases |ds|
  {
    hide OnLine;
    if |ds| > 1 {
      if y < ds[1] {
        LineMonotone(ds[0], vs[0], ds[1], vs[1], x, y);
      } else if ds[1] <= x {
        StaysMonotone(ds[1..], vs[1..], x, y);
      } else {
        LineBetween(ds[0], vs[0], ds[1], vs[1], x);
        StaysMonotone(ds[1..], vs[1..], ds[1], y);
        HitsAnchors(ds[1..], vs[1..], 0);
      }
    }
  }

  // The points' dates run day by day, and each delta is the difference of two
  // neighbouring values; the first point has none.
  lemma DaysInARow(ds: seq<int>, vs: seq<int>, points: seq<GrowthPoint>, k: nat)
    requires |ds| == |vs| > 0 && Increasing(ds) && DailySeries(ds, vs, points) && k < |points|
    ensures points[k].date == ds[0] + k && points[k].value == Some(ValueAt(ds, vs, ds[0] + k))
    ensures points[0].dailyDelta == None
    ensures k > 0 ==>
              && points[k].value.Some? && points[k - 1].value.Some?
              && points[k].dailyDelta == Some(points[k].value.value - points[k - 1].value.value)
  {
    hide ValueAt, Increasing;
    assert points[k] == PointAt(ds, vs, ds[0] + k);
    assert k > 0 ==> points[k - 1] == PointAt(ds, vs, ds[0] + (k - 1));
  }

  function SumOfDeltas(points: seq<GrowthPoint>): int {
    if points == [] then 0
    else
      var last := points[|points| - 1].dailyDelta;
      SumOfDeltas(points[..|points| - 1]) + if last.Some? then last.value else 0
  }

  lemma {:induction false} DeltasTelescope(ds: seq<int>, vs: seq<int>, points: seq<GrowthPoint>, n: nat)
    requires |ds| == |vs| > 0 && Increasing(ds) && DailySeries(ds, vs, points) && 0 < n <= |points|
    ensures SumOfDeltas(points[..n]) == ValueAt(ds, vs, ds[0] + n - 1) - ValueAt(ds, vs, ds[0])
    decreases n
  {
    hide ValueAt;
    assert points[..n][..n - 1] == points[..n - 1];
    if n > 1 {
      DeltasTelescope(ds, vs, points, n - 1);
    } else {
      assert points[..0] == [];
    }
  }

  // The daily deltas add up to last minus first, whatever was rounded.
  lemma DeltasSumExactly(ds: seq<int>, vs: seq<int>, points: seq<GrowthPoint>)
    requires |ds| == |vs| > 0 && Increasing(ds) && DailySeries(ds, vs, points)
    ensures SumOfDeltas(points) == vs[|vs| - 1] - vs[0]
  {
    hide ValueAt;
    assert ds[0] <= ds[|ds| - 1];
    DeltasTelescope(ds, vs, points, |points|);
    assert points[..|points|] == points;
    HitsAnchors(ds, vs, 0);
    AtLast(ds, vs);
  }
}
