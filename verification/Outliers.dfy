// _compute_outlier_details and recompute_outlier_metrics of
// app/analytics/creator_stats.py: each post scored against the median of the
// thirty before it, and only the newest fifty posts scored again.
module Outliers {
  import opened Common
  import opened Median

  const MIN_POSTS_FOR_OUTLIER: nat := 5
  const OUTLIER_LOOKBACK_POSTS: nat := 30
  const RECENT_RESCORE_WINDOW: nat := 50

  // postedAt is in seconds.
  datatype Point = Point(postId: int, postedAt: real, views: Option<int>, likes: Option<int>, comments: Option<int>)

  datatype Detail = Detail(outlierScore: Option<real>, velocity: Option<real>,
                           baselineMedian: Option<real>, engagementRatio: Option<real>)

  function OrZero(v: Option<int>): int {
    if v.Some? then v.value else 0
  }

  // Views when there are any, else likes.
  function Metric(p: Point): Option<real> {
    var m := if OrZero(p.views) != 0 then p.views else p.likes;
    if m.Some? then Some(m.value as real) else None
  }

  function EngagementRate(p: Point): Option<real> {
    if Metric(p).None? || Metric(p).value == 0.0 || (p.likes.None? && p.comments.None?) then None
    else Some((OrZero(p.likes) + OrZero(p.comments)) as real / Metric(p).value)
  }

  // [x for x in xs if x is not None]
  function Present(xs: seq<Option<real>>): seq<real> {
    if xs == [] then []
    else
      var last := xs[|xs| - 1];
      Present(xs[..|xs| - 1]) + if last.Some? then [last.value] else []
  }

  function Metrics(ps: seq<Point>): (r: seq<Option<real>>)
    ensures |r| == |ps|
  {
    seq(|ps|, i requires 0 <= i < |ps| => Metric(ps[i]))
  }

  function Rates(ps: seq<Point>): (r: seq<Option<real>>)
    ensures |r| == |ps|
  {
    seq(|ps|, i requires 0 <= i < |ps| => EngagementRate(ps[i]))
  }

  // A post's own figure over the median of the ones before it.
  function Baseline(prior: seq<real>, own: Option<real>): Option<real> {
    if |prior| >= MIN_POSTS_FOR_OUTLIER && own.Some? then Some(MedianOf(prior)) else None
  }

  function Ratio(prior: seq<real>, own: Option<real>): Option<real> {
    var base := Baseline(prior, own);
    if base.Some? && base.value > 0.0 then Some(RoundCents(own.value / base.value)) else None
  }

  function FreshWindow(youtube: bool): real {
    if youtube then 604_800.0 else 172_800.0
  }

  function Velocity(p: Point, youtube: bool, now: real): Option<real> {
    var age := now - p.postedAt;
    if Metric(p).Some? && 0.0 < age <= FreshWindow(youtube) then
      Some(RoundCents(Metric(p).value / (if age / 3600.0 >= 1.0 / 60.0 then age / 3600.0 else 1.0 / 60.0)))
    else None
  }

  // The posts that come right before post i, oldest first.
  function Before(points: seq<Point>, i: nat): (r: seq<Point>)
    requires i < |points|
    ensures |r| == Min(i, OUTLIER_LOOKBACK_POSTS)
  {
    points[Max(0, i - OUTLIER_LOOKBACK_POSTS)..i]
  }

  function DetailAt(points: seq<Point>, i: nat, youtube: bool, now: real): Detail
    requires i < |points|
  {
    var prior, priorRates := Present(Metrics(Before(points, i))), Present(Rates(Before(points, i)));
    Detail(Ratio(prior, Metric(points[i])), Velocity(points[i], youtube, now),
           Baseline(prior, Metric(points[i])), Ratio(priorRates, EngagementRate(points[i])))
  }

  // The last place of a post among the first n points.
  function LastIndex(points: seq<Point>, n: nat, id: int): (i: int)
    requires n <= |points|
    ensures -1 <= i < n
    ensures i >= 0 ==> points[i].postId == id
    ensures forall j :: i < j < n ==> points[j].postId != id
  {
    if n == 0 then -1 else if points[n - 1].postId == id then n - 1 else LastIndex(points, n - 1, id)
  }

  // Every one of the first n points has its detail in the results.
  ghost predicate Scored(points: seq<Point>, n: nat, youtube: bool, now: real, results: map<int, Detail>)
    requires n <= |points|
  {
    && (forall id :: id in results <==> LastIndex(points, n, id) >= 0)
    && (forall id :: id in results ==> results[id] == DetailAt(points, LastIndex(points, n, id), youtube, now))
  }

  method ComputeOutlierDetails(points: seq<Point>, youtube: bool, now: real) returns (results: map<int, Detail>)
    ensures Scored(points, |points|, youtube, now, results)
  {
    hide Scored, DetailAt, MedianOf, RoundCents, Present;
    var pointErs := Rates(points);
    results := map[];
    NothingScored(points, youtube, now);
    for i := 0 to |points|
      invariant Scored(points, i, youtube, now, results)
    {
      var point := points[i];
      var lo := Max(0, i - OUTLIER_LOOKBACK_POSTS);
      var own := Metric(point);
      var prior := Present(Metrics(points[lo..i]));
      var score: Option<real>, baseline: Option<real> := None, None;
      if |prior| >= MIN_POSTS_FOR_OUTLIER && own.Some? {
        var median := MedianOf(prior);
        baseline := Some(median);
        if median > 0.0 {
          score := Some(RoundCents(own.value / median));
        }
      }
      var velocity: Option<real> := None;
      if own.Some? {
        var age := now - point.postedAt;
        if 0.0 < age <= FreshWindow(youtube) {
          var hours := if age / 3600.0 >= 1.0 / 60.0 then age / 3600.0 else 1.0 / 60.0;
          velocity := Some(RoundCents(own.value / hours));
        }
      }
      var priorErs := Present(pointErs[lo..i]);
      var engagement: Option<real> := None;
      if |priorErs| >= MIN_POSTS_FOR_OUTLIER && pointErs[i].Some? {
        var baselineEr := MedianOf(priorErs);
        if baselineEr > 0.0 {
          engagement := Some(RoundCents(pointErs[i].value / baselineEr));
        }
      }
      assert pointErs[lo..i] == Rates(points[lo..i]);
      DetailIs(points, i, youtube, now);
      ScoreOne(points, i, youtube, now, results);
      results := results[point.postId := Detail(score, velocity, baseline, engagement)];
    }
  }

  lemma NothingScored(points: seq<Point>, youtube: bool, now: real)
    ensures Scored(points, 0, youtube, now, map[])
  {
  }

  lemma DetailIs(points: seq<Point>, i: nat, youtube: bool, now: real)
    requires i < |points|
    ensures var prior, rates := Present(Metrics(Before(points, i))), Present(Rates(Before(points, i)));
            DetailAt(points, i, youtube, now)
            == Detail(Ratio(prior, Metric(points[i])), Velocity(points[i], youtube, now),
                      Baseline(prior, Metric(points[i])), Ratio(rates, EngagementRate(points[i])))
  {
    hide Ratio, Baseline, Velocity, Present;
  }

  lemma ScoreOne(points: seq<Point>, i: nat, youtube: bool, now: real, results: map<int, Detail>)
    requires i < |points| && Scored(points, i, youtube, now, results)
    ensures Scored(points, i + 1, youtube, now, results[points[i].postId := DetailAt(points, i, youtube, now)])
  {
    hide DetailAt;
  }

  // ---------- main result: the short window refines the whole history ----------

  // The newest n posts, oldest first.
  function Newest(history: seq<Point>, n: nat): (r: seq<Point>)
    ensures |r| == Min(n, |history|)
    ensures forall j :: 0 <= j < |r| ==> r[j] == history[|history| - |r| + j]
  {
    if |history| <= n then history else history[|history| - n..]
  }

  // A detail depends on the post and the thirty before it, and on nothing else.
  lemma DetailIsLocal(points: seq<Point>, i: nat, other: seq<Point>, j: nat, youtube: bool, now: real)
    requires i < |points| && j < |other| && points[i] == other[j] && Before(points, i) == Before(other, j)
    ensures DetailAt(points, i, youtube, now) == DetailAt(other, j, youtube, now)
  {
    hide Ratio, Baseline, Velocity, Present;
  }

  lemma {:induction false} LastIndexShifts(history: seq<Point>, gone: nat, n: nat, id: int)
    requires gone + n <= |history|
    ensures var j := LastIndex(history[gone..], n, id);
            j >= 0 ==> LastIndex(history, gone + n, id) == gone + j
  {
    if n > 0 {
      LastIndexShifts(history, gone, n - 1, id);
    }
  }

  lemma SameLastIndex(history: seq<Point>, k: nat, m: nat)
    requires m < |Newest(history, k)|
    ensures var window, id := Newest(history, k + OUTLIER_LOOKBACK_POSTS), Newest(history, k)[m].postId;
            var j := LastIndex(window, |window|, id);
            && j >= 0 && (|window| == |history| || j >= OUTLIER_LOOKBACK_POSTS)
            && LastIndex(history, |history|, id) == j + |history| - |window|
            && window[j] == history[j + |history| - |window|]
  {
    hide LastIndex;
    var window, id := Newest(history, k + OUTLIER_LOOKBACK_POSTS), Newest(history, k)[m].postId;
    var gone, at := |history| - |window|, |history| - |Newest(history, k)| + m;
    assert window == history[gone..];
    assert window[at - gone] == history[at];
    assert LastIndex(window, |window|, id) >= at - gone;
    LastIndexShifts(history, gone, |window|, id);
  }

  lemma SameDetail(history: seq<Point>, k: nat, m: nat, youtube: bool, now: real)
    requires m < |Newest(history, k)|
    ensures var window, id := Newest(history, k + OUTLIER_LOOKBACK_POSTS), Newest(history, k)[m].postId;
            var i, j := LastIndex(history, |history|, id), LastIndex(window, |window|, id);
            i >= 0 && j >= 0 && DetailAt(window, j, youtube, now) == DetailAt(history, i, youtube, now)
  {
    hide Newest, LastIndex, DetailAt, Before;
    SameLastIndex(history, k, m);
    var window, id := Newest(history, k + OUTLIER_LOOKBACK_POSTS), Newest(history, k)[m].postId;
    var i, j := LastIndex(history, |history|, id), LastIndex(window, |window|, id);
    SameBefore(history, k, j);
    DetailIsLocal(window, j, history, i, youtube, now);
  }

  // Scoring the newest k + 30 posts alone gives each of the newest k exactly
  // what scoring the whole history gives it.
  lemma WindowRefinesHistory(history: seq<Point>, k: nat, youtube: bool, now: real,
                             full: map<int, Detail>, windowed: map<int, Detail>)
    requires Scored(history, |history|, youtube, now, full)
    requires var window := Newest(history, k + OUTLIER_LOOKBACK_POSTS);
             Scored(window, |window|, youtube, now, windowed)
    ensures forall m :: 0 <= m < |Newest(history, k)| ==>
              var id := Newest(history, k)[m].postId;
              id in windowed && id in full && windowed[id] == full[id]
  {
    hide DetailAt, Newest, LastIndex;
    forall m | 0 <= m < |Newest(history, k)|
      ensures var id := Newest(history, k)[m].postId;
              id in windowed && id in full && windowed[id] == full[id]
    {
      SameDetail(history, k, m, youtube, now);
    }
  }

  lemma SameBefore(history: seq<Point>, k: nat, j: nat)
    requires var window := Newest(history, k + OUTLIER_LOOKBACK_POSTS);
             j < |window| && (|window| == |history| || j >= OUTLIER_LOOKBACK_POSTS)
    ensures var window := Newest(history, k + OUTLIER_LOOKBACK_POSTS);
            Before(window, j) == Before(history, j + |history| - |window|)
  {
  }

  // A post already scored keeps its figures when newer posts arrive.
  lemma NewPostsChangeNothing(points: seq<Point>, newer: seq<Point>, i: nat, youtube: bool, now: real)
    requires i < |points|
    ensures DetailAt(points + newer, i, youtube, now) == DetailAt(points, i, youtube, now)
  {
    hide DetailAt;
    assert Before(points + newer, i) == Before(points, i);
    DetailIsLocal(points + newer, i, points, i, youtube, now);
  }

  // ---------- what a detail is ----------

  // The figure a post is scored by: its views if they are not zero, else its
  // likes; a post with neither has none.
  ghost predicate Figure(p: Point, v: real) {
    || (p.views.Some? && p.views.value != 0 && v == p.views.value as real)
    || (p.views in {None, Some(0)} && p.likes.Some? && v == p.likes.value as real)
  }

  // Its likes and comments for each unit of that figure; none if the figure is
  // missing or zero, or likes and comments are both hidden.
  ghost predicate Engagement(p: Point, v: real) {
    exists m ::
      && Figure(p, m) && m != 0.0 && (p.likes.Some? || p.comments.Some?)
      && v == ((if p.likes.Some? then p.likes.value else 0) + (if p.comments.Some? then p.comments.value else 0)) as real / m
  }

  lemma FigureIsMetric(p: Point)
    ensures forall v :: Figure(p, v) <==> Metric(p) == Some(v)
    ensures forall v :: Engagement(p, v) <==> EngagementRate(p) == Some(v)
  {
    if Metric(p).Some? {
      assert Figure(p, Metric(p).value);
    }
    forall v
      ensures Engagement(p, v) <==> EngagementRate(p) == Some(v)
    {
      if EngagementRate(p) == Some(v) {
        assert Figure(p, Metric(p).value);
      }
    }
  }

  // `at` lists, in order, all places of xs that have a value, counted from lo,
  // and `values` those values.
  ghost predicate PickedFrom(xs: seq<Option<real>>, lo: nat, values: seq<real>, at: seq<nat>) {
    && |at| == |values|
    && (forall k :: 0 <= k < |at| ==> lo <= at[k] < lo + |xs| && xs[at[k] - lo] == Some(values[k]))
    && (forall k, l :: 0 <= k < l < |at| ==> at[k] < at[l])
    && (forall j :: lo <= j < lo + |xs| && xs[j - lo].Some? ==> j in at)
  }

  lemma {:induction false} PresentIsPicked(xs: seq<Option<real>>, lo: nat) returns (at: seq<nat>)
    ensures PickedFrom(xs, lo, Present(xs), at)
  {
    hide PickedFrom;
    if xs == [] {
      at := [];
      NothingPicked(lo);
    } else {
      var n := |xs| - 1;
      at := PresentIsPicked(xs[..n], lo);
      PickOneMore(xs, lo, Present(xs[..n]), at);
      at := at + if xs[n].Some? then [lo + n] else [];
    }
  }

  lemma NothingPicked(lo: nat)
    ensures PickedFrom([], lo, [], [])
  {
  }

  lemma PickOneMore(xs: seq<Option<real>>, lo: nat, values: seq<real>, at: seq<nat>)
    requires xs != [] && PickedFrom(xs[..|xs| - 1], lo, values, at)
    ensures var n := |xs| - 1;
            if xs[n].Some? then PickedFrom(xs, lo, values + [xs[n].value], at + [lo + n])
            else PickedFrom(xs, lo, values + [], at + [])
  {
    var n := |xs| - 1;
    var more := at + if xs[n].Some? then [lo + n] else [];
    assert values + [] == values && at + [] == at;
    forall j | lo <= j < lo + |xs| && xs[j - lo].Some?
      ensures j in more
    {
      if j < lo + n {
        assert xs[..n][j - lo] == xs[j - lo];
      } else {
        assert more[|at|] == j;
      }
    }
  }

  // The figures of the up to thirty posts before post i, oldest first.
  ghost predicate FiguresBefore(points: seq<Point>, i: nat, values: seq<real>, at: seq<nat>) {
    && |at| == |values| && i <= |points|
    && (forall k :: 0 <= k < |at| ==> i - 30 <= at[k] < i && Figure(points[at[k]], values[k]))
    && (forall k, l :: 0 <= k < l < |at| ==> at[k] < at[l])
    && (forall j: nat, v :: i - 30 <= j < i && Figure(points[j], v) ==> j in at)
  }

  ghost predicate EngagementsBefore(points: seq<Point>, i: nat, values: seq<real>, at: seq<nat>) {
    && |at| == |values| && i <= |points|
    && (forall k :: 0 <= k < |at| ==> i - 30 <= at[k] < i && Engagement(points[at[k]], values[k]))
    && (forall k, l :: 0 <= k < l < |at| ==> at[k] < at[l])
    && (forall j: nat, v :: i - 30 <= j < i && Engagement(points[j], v) ==> j in at)
  }

  lemma MetricsAt(points: seq<Point>, i: nat, j: nat)
    requires i < |points| && Max(0, i - OUTLIER_LOOKBACK_POSTS) <= j < i
    ensures Metrics(Before(points, i))[j - Max(0, i - OUTLIER_LOOKBACK_POSTS)] == Metric(points[j])
    ensures Rates(Before(points, i))[j - Max(0, i - OUTLIER_LOOKBACK_POSTS)] == EngagementRate(points[j])
  {
    hide Metric, EngagementRate;
  }

  lemma PriorFigures(points: seq<Point>, i: nat) returns (at: seq<nat>)
    requires i < |points|
    ensures FiguresBefore(points, i, Present(Metrics(Before(points, i))), at)
  {
    hide Metric, Figure, Present, Metrics, Before;
    var lo := Max(0, i - OUTLIER_LOOKBACK_POSTS);
    var xs := Metrics(Before(points, i));
    at := PresentIsPicked(xs, lo);
    forall j: nat | lo <= j < i
      ensures forall v :: Figure(points[j], v) <==> xs[j - lo] == Some(v)
    {
      FigureIsMetric(points[j]);
      MetricsAt(points, i, j);
    }
  }

  lemma PriorEngagements(points: seq<Point>, i: nat) returns (at: seq<nat>)
    requires i < |points|
    ensures EngagementsBefore(points, i, Present(Rates(Before(points, i))), at)
  {
    hide EngagementRate, Engagement, Present, Rates, Before;
    var lo := Max(0, i - OUTLIER_LOOKBACK_POSTS);
    var xs := Rates(Before(points, i));
    at := PresentIsPicked(xs, lo);
    forall j: nat | lo <= j < i
      ensures forall v :: Engagement(points[j], v) <==> xs[j - lo] == Some(v)
    {
      FigureIsMetric(points[j]);
      MetricsAt(points, i, j);
    }
  }

  // r is x in hundredths, rounded to the nearest and on a tie to the even one.
  ghost predicate InCents(x: real, r: real) {
    exists n: int ::
      && r == Cents(n) && -0.5 <= 100.0 * x - n as real <= 0.5
      && (100.0 * x - n as real == 0.5 || 100.0 * x - n as real == -0.5 ==> n % 2 == 0)
  }

  function Cents(n: int): real {
    n as real / 100.0
  }

  lemma RoundedIsInCents(x: real)
    ensures InCents(x, RoundCents(x))
  {
    hide RoundCents;
    var n := RoundCentsIsNear(x);
    assert RoundCents(x) == Cents(n);
  }

  // own over the median of at least five prior values, if that is positive.
  ghost predicate RatioIs(prior: seq<real>, own: real, r: Option<real>) {
    if |prior| >= 5 && MedianOf(prior) > 0.0 then r.Some? && InCents(own / MedianOf(prior), r.value) else r == None
  }

  lemma RatioMeans(prior: seq<real>, own: Option<real>)
    ensures own.Some? ==> RatioIs(prior, own.value, Ratio(prior, own))
    ensures own.None? ==> Ratio(prior, own) == None
  {
    hide MedianOf, RoundCents, InCents;
    if |prior| >= 5 && own.Some? && MedianOf(prior) > 0.0 {
      RoundedIsInCents(own.value / MedianOf(prior));
    }
  }

  // The figure per hour since the post, of a post no older than seven days or
  // forty-eight hours; less than a minute counts as one.
  ghost predicate VelocityIs(p: Point, own: real, youtube: bool, now: real, r: Option<real>) {
    var age := now - p.postedAt;
    if 0.0 < age <= (if youtube then 7.0 * 86_400.0 else 48.0 * 3_600.0) then
      r.Some? && InCents(own / (if age >= 60.0 then age / 3_600.0 else 1.0 / 60.0), r.value)
    else r == None
  }

  lemma VelocityMeans(p: Point, youtube: bool, now: real)
    ensures forall m :: Figure(p, m) ==> VelocityIs(p, m, youtube, now, Velocity(p, youtube, now))
    ensures (forall m :: !Figure(p, m)) ==> Velocity(p, youtube, now) == None
  {
    hide RoundCents, InCents, Figure, Metric;
    FigureIsMetric(p);
    var age := now - p.postedAt;
    if Metric(p).Some? && 0.0 < age <= FreshWindow(youtube) {
      RoundedIsInCents(Metric(p).value / (if age / 3600.0 >= 1.0 / 60.0 then age / 3600.0 else 1.0 / 60.0));
    }
  }

  // All four figures of a post's detail, said from the posts themselves.
  ghost predicate Describes(points: seq<Point>, i: nat, youtube: bool, now: real, d: Detail, prior: seq<real>, rates: seq<real>)
    requires i < |points|
  {
    var p := points[i];
    && (forall m :: Figure(p, m) ==>
          && RatioIs(prior, m, d.outlierScore)
          && d.baselineMedian == (if |prior| >= 5 then Some(MedianOf(prior)) else None)
          && VelocityIs(p, m, youtube, now, d.velocity))
    && ((forall m :: !Figure(p, m)) ==> d.outlierScore == None && d.baselineMedian == None && d.velocity == None)
    && (forall e :: Engagement(p, e) ==> RatioIs(rates, e, d.engagementRatio))
    && ((forall e :: !Engagement(p, e)) ==> d.engagementRatio == None)
  }

  // The prior figures are exactly those of the up to thirty posts before, and
  // the detail is what their medians make of the post's own figures.
  lemma DetailMeans(points: seq<Point>, i: nat, youtube: bool, now: real)
    returns (prior: seq<real>, rates: seq<real>, at: seq<nat>, rated: seq<nat>)
    requires i < |points|
    ensures FiguresBefore(points, i, prior, at) && EngagementsBefore(points, i, rates, rated)
    ensures Describes(points, i, youtube, now, DetailAt(points, i, youtube, now), prior, rates)
  {
    hide Metric, Figure, EngagementRate, Engagement, Present, Ratio, RatioIs, Velocity, VelocityIs, MedianOf,
         FiguresBefore, EngagementsBefore;
    prior, rates := Present(Metrics(Before(points, i))), Present(Rates(Before(points, i)));
    at := PriorFigures(points, i);
    rated := PriorEngagements(points, i);
    FigureIsMetric(points[i]);
    RatioMeans(prior, Metric(points[i]));
    RatioMeans(rates, EngagementRate(points[i]));
    VelocityMeans(points[i], youtube, now);
  }

  // ---------- what a score says ----------

  // A score above one means the post is above the median, and so at least
  // half of the usable posts among the thirty before it lie under it; a score
  // under one means the reverse. The first five posts have no score.
  lemma ScoreRanksThePost(points: seq<Point>, i: nat, youtube: bool, now: real)
    requires i < |points|
    ensures var prior, score := Present(Metrics(Before(points, i))), DetailAt(points, i, youtube, now).outlierScore;
            && (score.Some? ==> i >= MIN_POSTS_FOR_OUTLIER && Metric(points[i]).Some?)
            && (score.Some? && score.value > 1.0 ==>
                  2 * AtLeast(prior, Metric(points[i]).value) <= |prior|)
            && (score.Some? && score.value < 1.0 ==>
                  2 * AtMost(prior, Metric(points[i]).value) <= |prior|)
  {
    hide Present, AtMost, AtLeast, MedianOf, RoundCents, Before, Velocity;
    var prior, own := Present(Metrics(Before(points, i))), Metric(points[i]);
    PresentIsShorter(Metrics(Before(points, i)));
    if |prior| >= MIN_POSTS_FOR_OUTLIER && own.Some? && MedianOf(prior) > 0.0 {
      var median := MedianOf(prior);
      var _ := RoundCentsIsNear(own.value / median);
      OverOne(own.value, median);
      MedianSplits(prior);
      Sides(prior, median, own.value);
    }
  }

  lemma OverOne(x: real, m: real)
    requires m > 0.0
    ensures x / m > 1.0 <==> x > m
    ensures x / m < 1.0 <==> x < m
  {
    var q := x / m;
    assert q * m == x;
    if q > 1.0 {
      assert (q - 1.0) * m > 0.0;
    } else if q < 1.0 {
      assert (1.0 - q) * m > 0.0;
    }
  }

  lemma {:induction false} PresentIsShorter(xs: seq<Option<real>>)
    ensures |Present(xs)| <= |xs|
  {
    if xs != [] {
      PresentIsShorter(xs[..|xs| - 1]);
    }
  }

  lemma {:induction false} Sides(s: seq<real>, a: real, b: real)
    ensures a < b ==> AtMost(s, a) + AtLeast(s, b) <= |s|
    ensures b < a ==> AtMost(s, b) + AtLeast(s, a) <= |s|
  {
    if s != [] {
      Sides(s[..|s| - 1], a, b);
    }
  }

  // Only a fresh post has a velocity, and however young it is, at most sixty
  // times its figure an hour.
  lemma VelocityIsCapped(p: Point, youtube: bool, now: real)
    requires Metric(p).Some? && Metric(p).value >= 0.0
    ensures Velocity(p, youtube, now).Some? <==> p.postedAt < now <= p.postedAt + FreshWindow(youtube)
    ensures Velocity(p, youtube, now).Some? ==> Velocity(p, youtube, now).value <= 60.0 * Metric(p).value + 0.005
  {
    hide RoundCents;
    var m, age := Metric(p).value, now - p.postedAt;
    if 0.0 < age <= FreshWindow(youtube) {
      var hours := if age / 3600.0 >= 1.0 / 60.0 then age / 3600.0 else 1.0 / 60.0;
      AtMostSixty(m, hours);
      var _ := RoundCentsIsNear(m / hours);
    }
  }

  lemma AtMostSixty(m: real, hours: real)
    requires m >= 0.0 && 60.0 * hours >= 1.0
    ensures m / hours <= 60.0 * m
  {
    var q := m / hours;
    assert q * hours == m;
    if q < 0.0 {
      assert q * hours < 0.0;
    }
    assert q * (60.0 * hours - 1.0) >= 0.0;
    assert q * (60.0 * hours) == 60.0 * m;
  }

  // ---------- the persisted scores ----------

  // The rows after `points` were written over `was`.
  ghost predicate Written(was: map<int, Detail>, points: seq<Point>, details: map<int, Detail>, rows: map<int, Detail>) {
    && (forall id :: id in rows <==> id in was || exists k :: 0 <= k < |points| && points[k].postId == id)
    && (forall k :: 0 <= k < |points| ==> points[k].postId in details && rows[points[k].postId] == details[points[k].postId])
    && (forall id :: id in was && (forall k :: 0 <= k < |points| ==> points[k].postId != id) ==> rows[id] == was[id])
  }

  lemma WriteOne(was: map<int, Detail>, points: seq<Point>, p: Point, details: map<int, Detail>, rows: map<int, Detail>)
    requires Written(was, points, details, rows) && p.postId in details
    ensures Written(was, points + [p], details, rows[p.postId := details[p.postId]])
  {
    var more, next := points + [p], rows[p.postId := details[p.postId]];
    assert more[|points|] == p;
    assert forall k :: 0 <= k < |points| ==> more[k] == points[k];
  }

  class OutlierTable {
    var rows: map<int, Detail>

    // Writes the newest fifty posts' rows, each with what the whole history
    // gives it, and touches no other row.
    method RecomputeOutlierMetrics(history: seq<Point>, youtube: bool, now: real) returns (n: nat)
      modifies this
      ensures n == |Newest(history, RECENT_RESCORE_WINDOW)|
      ensures Written(old(rows), Newest(history, RECENT_RESCORE_WINDOW), FullDetails(history, youtube, now), rows)
    {
      hide DetailAt, Scored, Written, LastIndex, FullDetails, Newest, Before;
      var pointsAsc := Newest(history, RECENT_RESCORE_WINDOW + OUTLIER_LOOKBACK_POSTS);
      WriteNone(rows, FullDetails(history, youtube, now));
      NewestOfNewest(history, RECENT_RESCORE_WINDOW, OUTLIER_LOOKBACK_POSTS);
      if pointsAsc == [] {
        return 0;
      }
      var details := ComputeOutlierDetails(pointsAsc, youtube, now);
      var toPersist := Newest(pointsAsc, RECENT_RESCORE_WINDOW);
      WindowIsFull(history, youtube, now, details);
      for k := 0 to |toPersist|
        invariant Written(old(rows), toPersist[..k], FullDetails(history, youtube, now), rows)
      {
        assert toPersist[..k + 1] == toPersist[..k] + [toPersist[k]];
        WriteOne(old(rows), toPersist[..k], toPersist[k], FullDetails(history, youtube, now), rows);
        rows := rows[toPersist[k].postId := details[toPersist[k].postId]];
      }
      assert toPersist[..|toPersist|] == toPersist;
      n := |toPersist|;
    }
  }

  lemma NewestOfNewest(history: seq<Point>, k: nat, more: nat)
    ensures Newest(Newest(history, k + more), k) == Newest(history, k)
    ensures Newest(history, k + more) == [] ==> Newest(history, k) == []
  {
  }

  lemma WriteNone(rows: map<int, Detail>, details: map<int, Detail>)
    ensures Written(rows, [], details, rows)
  {
  }

  // What scoring the whole history gives every post.
  ghost function FullDetails(history: seq<Point>, youtube: bool, now: real): map<int, Detail> {
    map i | 0 <= i < |history| && LastIndex(history, |history|, history[i].postId) >= 0
      :: history[i].postId := DetailAt(history, LastIndex(history, |history|, history[i].postId), youtube, now)
  }

  lemma FullDetailsScored(history: seq<Point>, youtube: bool, now: real)
    ensures Scored(history, |history|, youtube, now, FullDetails(history, youtube, now))
  {
    hide DetailAt;
    var full := FullDetails(history, youtube, now);
    forall id
      ensures id in full <==> LastIndex(history, |history|, id) >= 0
    {
      if LastIndex(history, |history|, id) >= 0 {
        assert history[LastIndex(history, |history|, id)].postId in full;
      }
    }
  }

  lemma WindowIsFull(history: seq<Point>, youtube: bool, now: real, details: map<int, Detail>)
    requires var window := Newest(history, RECENT_RESCORE_WINDOW + OUTLIER_LOOKBACK_POSTS);
             Scored(window, |window|, youtube, now, details)
    ensures forall m :: 0 <= m < |Newest(history, RECENT_RESCORE_WINDOW)| ==>
              var id := Newest(history, RECENT_RESCORE_WINDOW)[m].postId;
              && id in details && id in FullDetails(history, youtube, now)
              && details[id] == FullDetails(history, youtube, now)[id]
  {
    hide DetailAt, Scored, Newest, LastIndex, FullDetails;
    FullDetailsScored(history, youtube, now);
    WindowRefinesHistory(history, RECENT_RESCORE_WINDOW, youtube, now, FullDetails(history, youtube, now), details);
  }
}
