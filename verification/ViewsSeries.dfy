// _reconstruct_daily_views_series of app/analytics/creator_stats.py: a
// channel total rebuilt from per-post snapshots, each post's last known
// value carried forward.
module ViewsSeries {
  import opened Common
  import opened Interpolation

  type Totals = map<int, int>

  datatype Snap = Snap(post: int, day: int, views: Option<int>, likes: Option<int>)

  // Views when the platform has them (zero means it has not), else likes.
  function Usable(row: Snap): Option<int> {
    if row.views.Some? && row.views.value != 0 then row.views else row.likes
  }

  // What a row reports, said by cases: its views if they are not zero; its
  // likes if it has no views or zero.
  ghost predicate Reports(row: Snap, value: int) {
    || (row.views == Some(value) && value != 0)
    || ((row.views == None || row.views == Some(0)) && row.likes == Some(value))
  }

  lemma UsableIsReported(row: Snap)
    ensures forall value :: Reports(row, value) <==> Usable(row) == Some(value)
  {
  }

  function Lookup(m: Totals, post: int): Option<int> {
    if post in m then Some(m[post]) else None
  }

  function Take(current: Totals, row: Snap): Totals {
    if Usable(row).Some? then current[row.post := Usable(row).value] else current
  }

  // ---------- sums over posts, days in order ----------

  ghost predicate IsLeast(s: set<int>, k: int) {
    k in s && forall j :: j in s ==> k <= j
  }

  lemma {:induction false} HasLeast(s: set<int>)
    requires s != {}
    ensures exists k :: IsLeast(s, k)
  {
    if forall k :: k !in s {
      assert false;
    }
    var k :| k in s;
    var rest := s - {k};
    if rest == {} {
      assert s == {k};
      assert IsLeast(s, k);
    } else {
      HasLeast(rest);
      var m :| IsLeast(rest, m);
      assert forall j :: j in s ==> j == k || j in rest;
      assert IsLeast(s, Min(k, m));
    }
  }

  function Least(s: set<int>): (k: int)
    requires s != {}
    ensures IsLeast(s, k)
  {
    HasLeast(s);
    var k :| k in s && forall j :: j in s ==> k <= j;
    k
  }

  function SortedDays(s: set<int>): (ds: seq<int>)
    ensures Increasing(ds)
    ensures forall d :: d in ds <==> d in s
  {
    if s == {} then [] else [Least(s)] + SortedDays(s - {Least(s)})
  }

  function SumOf(m: Totals): int {
    if m == map[] then 0
    else
      var k := Least(m.Keys);
      m[k] + SumOf(m - {k})
  }

  lemma {:induction false} SumWithout(m: Totals, p: int)
    requires p in m
    ensures SumOf(m) == m[p] + SumOf(m - {p})
  {
    var k := Least(m.Keys);
    if k != p {
      SumWithout(m - {k}, p);
      assert p in m - {k};
      assert (m - {p}).Keys == m.Keys - {p};
      assert IsLeast((m - {p}).Keys, k);
      assert m - {k} - {p} == m - {p} - {k};
    }
  }

  // A new snapshot moves the channel total by that post's own change: a post
  // never seen before adds its whole value, and no posts make no views.
  lemma OneRowMovesTheTotal(current: Totals, row: Snap, value: int)
    requires Reports(row, value)
    ensures SumOf(Take(current, row)) == SumOf(current) + value - (if row.post in current then current[row.post] else 0)
    ensures SumOf(map[]) == 0
  {
    hide SumOf;
    UsableIsReported(row);
    NoPosts();
    var next := Take(current, row);
    SumWithout(next, row.post);
    assert next - {row.post} == current - {row.post};
    if row.post in current {
      SumWithout(current, row.post);
    } else {
      assert current - {row.post} == current;
    }
  }

  lemma NoPosts()
    ensures SumOf(map[]) == 0
  {
  }

  // ---------- the reconstruction ----------

  // The rows of one day, in the order they came.
  function OnDay(rows: seq<Snap>, day: int): seq<Snap> {
    if rows == [] then []
    else
      var last := rows[|rows| - 1];
      OnDay(rows[..|rows| - 1], day) + if last.day == day then [last] else []
  }

  function TakeAll(current: Totals, rows: seq<Snap>): Totals {
    if rows == [] then current
    else Take(TakeAll(current, rows[..|rows| - 1]), rows[|rows| - 1])
  }

  // Every post's value after the first n days of ds.
  function AfterDays(baseline: Totals, rows: seq<Snap>, ds: seq<int>, n: nat): Totals
    requires n <= |ds|
  {
    if n == 0 then baseline else TakeAll(AfterDays(baseline, rows, ds, n - 1), OnDay(rows, ds[n - 1]))
  }

  function DaysOf(rows: seq<Snap>): (ds: seq<int>)
    ensures Increasing(ds)
    ensures forall d :: d in ds <==> HasDay(rows, d)
  {
    SortedDays(set i | 0 <= i < |rows| :: rows[i].day)
  }

  function TotalsOf(baseline: Totals, rows: seq<Snap>, ds: seq<int>): (vs: seq<int>)
    ensures |vs| == |ds|
  {
    seq(|ds|, i requires 0 <= i < |ds| => SumOf(AfterDays(baseline, rows, ds, i + 1)))
  }

  ghost predicate HasDay(rows: seq<Snap>, day: int) {
    exists j :: 0 <= j < |rows| && rows[j].day == day
  }

  ghost predicate Grouped(rows: seq<Snap>, byDate: map<int, seq<Snap>>) {
    && (forall d :: d in byDate <==> HasDay(rows, d))
    && (forall d :: d in byDate ==> byDate[d] == OnDay(rows, d))
  }

  method GroupByDate(rows: seq<Snap>) returns (byDate: map<int, seq<Snap>>)
    ensures Grouped(rows, byDate)
  {
    hide Grouped;
    byDate := map[];
    NothingGrouped();
    for i := 0 to |rows|
      invariant Grouped(rows[..i], byDate)
    {
      var day := rows[i].day;
      assert rows[..i + 1] == rows[..i] + [rows[i]];
      GroupOne(rows[..i], rows[i], byDate);
      byDate := byDate[day := (if day in byDate then byDate[day] else []) + [rows[i]]];
    }
    assert rows[..|rows|] == rows;
  }

  lemma NothingGrouped()
    ensures Grouped([], map[])
  {
  }

  lemma GroupOne(rows: seq<Snap>, row: Snap, byDate: map<int, seq<Snap>>)
    requires Grouped(rows, byDate)
    ensures Grouped(rows + [row],
                    byDate[row.day := (if row.day in byDate then byDate[row.day] else []) + [row]])
  {
    var more := rows + [row];
    assert more[..|rows|] == rows && more[|rows|] == row;
    HasRows(rows, row.day);
    forall d
      ensures HasDay(more, d) <==> d == row.day || HasDay(rows, d)
    {
      if HasDay(rows, d) {
        var j :| 0 <= j < |rows| && rows[j].day == d;
        assert more[j].day == d;
      }
    }
  }

  method TakeDay(before: Totals, today: seq<Snap>) returns (current: Totals)
    ensures current == TakeAll(before, today)
  {
    hide TakeAll;
    current := before;
    TakeAllStep(before, today, 0);
    for j := 0 to |today|
      invariant current == TakeAll(before, today[..j])
    {
      TakeAllStep(before, today, j);
      var usable := if today[j].views.Some? && today[j].views.value != 0 then today[j].views else today[j].likes;
      if usable.Some? {
        current := current[today[j].post := usable.value];
      }
    }
    assert today[..|today|] == today;
  }

  method ReconstructDailyViewsSeries(baseline: Totals, rows: seq<Snap>) returns (points: seq<GrowthPoint>)
    ensures rows == [] ==> points == []
    ensures rows != [] ==>
              && DaysOf(rows) != []
              && DailySeries(DaysOf(rows), TotalsOf(baseline, rows, DaysOf(rows)), points)
  {
    hide DaysOf, SumOf, DailySeries, OnDay, TotalsOf, Grouped, AfterDays, TakeAll;
    if rows == [] {
      return [];
    }
    var byDate := GroupByDate(rows);
    var days := SortedDays(byDate.Keys);
    SameDays(rows, byDate);
    var current, totals := baseline, [];
    TotalsStep(baseline, rows, days, 0);
    for k := 0 to |days|
      invariant current == AfterDays(baseline, rows, days, k)
      invariant totals == TotalsOf(baseline, rows, days)[..k]
    {
      var today := byDate[days[k]];
      TotalsStep(baseline, rows, days, k);
      current := TakeDay(current, today);
      totals := totals + [SumOf(current)];
    }
    assert TotalsOf(baseline, rows, days)[..|days|] == TotalsOf(baseline, rows, days);
    points := InterpolateDailyGaps(days, totals);
  }

  lemma TotalsStep(baseline: Totals, rows: seq<Snap>, ds: seq<int>, k: nat)
    requires k <= |ds|
    ensures AfterDays(baseline, rows, ds, 0) == baseline
    ensures k < |ds| ==>
              && AfterDays(baseline, rows, ds, k + 1) == TakeAll(AfterDays(baseline, rows, ds, k), OnDay(rows, ds[k]))
              && TotalsOf(baseline, rows, ds)[..k + 1]
                 == TotalsOf(baseline, rows, ds)[..k] + [SumOf(AfterDays(baseline, rows, ds, k + 1))]
  {
    hide SumOf, TakeAll, OnDay;
  }

  lemma TakeAllStep(current: Totals, rows: seq<Snap>, j: nat)
    requires j <= |rows|
    ensures TakeAll(current, rows[..0]) == current
    ensures j < |rows| ==> TakeAll(current, rows[..j + 1]) == Take(TakeAll(current, rows[..j]), rows[j])
  {
    if j < |rows| {
      assert rows[..j + 1][..j] == rows[..j];
    }
  }

  lemma SameDays(rows: seq<Snap>, byDate: map<int, seq<Snap>>)
    requires rows != [] && Grouped(rows, byDate)
    ensures SortedDays(byDate.Keys) == DaysOf(rows) != []
    ensures forall k :: 0 <= k < |DaysOf(rows)| ==>
              DaysOf(rows)[k] in byDate && byDate[DaysOf(rows)[k]] == OnDay(rows, DaysOf(rows)[k])
  {
    hide SortedDays, OnDay;
    var days := set i | 0 <= i < |rows| :: rows[i].day;
    assert rows[0].day in days;
    assert forall d :: d in byDate.Keys <==> d in days;
    assert byDate.Keys == days;
    assert rows[0].day in DaysOf(rows);
    forall k | 0 <= k < |DaysOf(rows)|
      ensures DaysOf(rows)[k] in byDate
    {
      assert DaysOf(rows)[k] in DaysOf(rows);
    }
  }

  // ---------- what each post contributes ----------

  // Row i speaks for the post on that day: it is usable and not later.
  ghost predicate Speaks(rows: seq<Snap>, post: int, day: int, i: int) {
    0 <= i < |rows| && rows[i].post == post && rows[i].day <= day && Usable(rows[i]).Some?
  }

  // Row i is the last word: no row of a later day, nor a later row of the same day.
  ghost predicate LastWord(rows: seq<Snap>, post: int, day: int, i: int) {
    && Speaks(rows, post, day, i)
    && forall j :: Speaks(rows, post, day, j) ==> rows[j].day < rows[i].day || (rows[j].day == rows[i].day && j <= i)
  }

  function LastIn(rows: seq<Snap>, post: int): Option<int> {
    if rows == [] then None
    else
      var last := rows[|rows| - 1];
      if last.post == post && Usable(last).Some? then Usable(last) else LastIn(rows[..|rows| - 1], post)
  }

  lemma {:induction false} TakeAllLooksUp(current: Totals, rows: seq<Snap>, post: int)
    ensures Lookup(TakeAll(current, rows), post)
         == if LastIn(rows, post).Some? then LastIn(rows, post) else Lookup(current, post)
  {
    if rows != [] {
      TakeAllLooksUp(current, rows[..|rows| - 1], post);
    }
  }

  // Either a last usable row of exactly that day, whose value is LastIn, or none.
  lemma {:induction false} LastOfTheDay(rows: seq<Snap>, post: int, day: int) returns (i: int)
    ensures i == -1 || (Speaks(rows, post, day, i) && rows[i].day == day)
    ensures LastIn(OnDay(rows, day), post) == if i == -1 then None else Usable(rows[i])
    ensures forall j :: Speaks(rows, post, day, j) && rows[j].day == day ==> j <= i
  {
    i := -1;
    if rows != [] {
      var n := |rows| - 1;
      var init, last := rows[..n], rows[n];
      if last.day == day {
        assert OnDay(rows, day)[..|OnDay(rows, day)| - 1] == OnDay(init, day);
      } else {
        assert OnDay(rows, day) == OnDay(init, day);
      }
      i := LastOfTheDay(init, post, day);
      assert forall j :: Speaks(rows, post, day, j) && j < n ==> Speaks(init, post, day, j);
      if last.day == day && last.post == post && Usable(last).Some? {
        i := n;
      }
    }
  }

  // The value carried after the k-th day with data is the last word up to
  // that day, or the baseline where no row has spoken.
  lemma {:induction false} CarriesTheLastWord(baseline: Totals, rows: seq<Snap>, post: int, n: nat)
    returns (i: int)
    requires 0 < n <= |DaysOf(rows)|
    ensures i != -1 ==> LastWord(rows, post, DaysOf(rows)[n - 1], i)
    ensures var day := DaysOf(rows)[n - 1]; i == -1 ==> forall j :: !Speaks(rows, post, day, j)
    ensures Lookup(AfterDays(baseline, rows, DaysOf(rows), n), post)
         == if i == -1 then Lookup(baseline, post) else Usable(rows[i])
  {
    hide DaysOf, TakeAll, OnDay, LastIn;
    var ds := DaysOf(rows);
    var day := ds[n - 1];
    TakeAllLooksUp(AfterDays(baseline, rows, ds, n - 1), OnDay(rows, day), post);
    i := LastOfTheDay(rows, post, day);
    DaysBelow(rows, n);
    if i == -1 && n > 1 {
      i := CarriesTheLastWord(baseline, rows, post, n - 1);
      assert forall j :: Speaks(rows, post, day, j) ==> Speaks(rows, post, ds[n - 2], j);
    }
  }

  // Between two days with data there is no row.
  lemma DaysBelow(rows: seq<Snap>, n: nat)
    requires 0 < n <= |DaysOf(rows)|
    ensures forall j :: 0 <= j < |rows| && rows[j].day < DaysOf(rows)[n - 1] ==>
              n > 1 && rows[j].day <= DaysOf(rows)[n - 2]
  {
    hide DaysOf;
    forall j | 0 <= j < |rows| && rows[j].day < DaysOf(rows)[n - 1]
      ensures n > 1 && rows[j].day <= DaysOf(rows)[n - 2]
    {
      assert rows[j].day in DaysOf(rows);
      var m :| 0 <= m < |DaysOf(rows)| && DaysOf(rows)[m] == rows[j].day;
      assert m < n - 1;
    }
  }

  // ---------- main results ----------

  // On every day with data the series shows the sum, over the posts, of the
  // last usable value known by that day.
  lemma SeriesShowsLastKnownTotals(baseline: Totals, rows: seq<Snap>, points: seq<GrowthPoint>, k: nat, known: Totals)
    requires k < |DaysOf(rows)|
    requires DailySeries(DaysOf(rows), TotalsOf(baseline, rows, DaysOf(rows)), points)
    requires forall post :: KnownBy(baseline, rows, DaysOf(rows)[k], post, Lookup(known, post))
    ensures var at := DaysOf(rows)[k] - DaysOf(rows)[0];
            0 <= at < |points| && points[at].date == DaysOf(rows)[k] && points[at].value == Some(SumOf(known))
  {
    hide DaysOf, SumOf, AfterDays, ValueAt;
    var ds := DaysOf(rows);
    var carried := AfterDays(baseline, rows, ds, k + 1);
    forall post: int
      ensures Lookup(carried, post) == Lookup(known, post)
    {
      var i := CarriesTheLastWord(baseline, rows, post, k + 1);
      KnownIsCarried(baseline, rows, ds[k], post, Lookup(known, post), i);
    }
    SameLookups(carried, known);
    HitsAnchors(ds, TotalsOf(baseline, rows, ds), k);
    assert ds[0] <= ds[k] <= ds[|ds| - 1];
  }

  // Row i reports on the post, on that day or before.
  ghost predicate Tells(rows: seq<Snap>, post: int, day: int, i: int) {
    0 <= i < |rows| && rows[i].post == post && rows[i].day <= day && exists value :: Reports(rows[i], value)
  }

  // What is known of a post by a day, said without any pass over the rows: what
  // the last report says, by day and then by place; the baseline without one.
  ghost predicate KnownBy(baseline: Totals, rows: seq<Snap>, day: int, post: int, value: Option<int>) {
    || (exists i ::
          && Tells(rows, post, day, i) && value.Some? && Reports(rows[i], value.value)
          && forall j :: Tells(rows, post, day, j) ==> rows[j].day < rows[i].day || (rows[j].day == rows[i].day && j <= i))
    || ((forall i :: !Tells(rows, post, day, i)) && value == Lookup(baseline, post))
  }

  lemma TellsIsSpeaks(rows: seq<Snap>, post: int, day: int, i: int)
    ensures Tells(rows, post, day, i) <==> Speaks(rows, post, day, i)
  {
    if 0 <= i < |rows| {
      UsableIsReported(rows[i]);
      assert Usable(rows[i]).Some? ==> Reports(rows[i], Usable(rows[i]).value);
    }
  }

  // What was carried for the post is what is known of it.
  lemma KnownIsCarried(baseline: Totals, rows: seq<Snap>, day: int, post: int, value: Option<int>, i: int)
    requires KnownBy(baseline, rows, day, post, value)
    requires i != -1 ==> LastWord(rows, post, day, i)
    requires i == -1 ==> forall j :: !Speaks(rows, post, day, j)
    ensures value == if i == -1 then Lookup(baseline, post) else Usable(rows[i])
  {
    hide Usable, Reports;
    forall j
      ensures Tells(rows, post, day, j) <==> Speaks(rows, post, day, j)
    {
      TellsIsSpeaks(rows, post, day, j);
    }
    if i != -1 {
      UsableIsReported(rows[i]);
    }
  }

  lemma SameLookups(m: Totals, w: Totals)
    requires forall post :: Lookup(m, post) == Lookup(w, post)
    ensures m == w
  {
    forall post: int
      ensures post in m <==> post in w
      ensures post in m ==> m[post] == w[post]
    {
      assert Lookup(m, post) == Lookup(w, post);
    }
    assert m.Keys == w.Keys;
  }

  // The daily gains add up to last total minus first total.
  lemma ViewGainsAddUp(baseline: Totals, rows: seq<Snap>, points: seq<GrowthPoint>)
    requires rows != [] && DaysOf(rows) != []
    requires DailySeries(DaysOf(rows), TotalsOf(baseline, rows, DaysOf(rows)), points)
    ensures SumOfDeltas(points) == SumOf(AfterDays(baseline, rows, DaysOf(rows), |DaysOf(rows)|))
                                 - SumOf(AfterDays(baseline, rows, DaysOf(rows), 1))
  {
    hide DaysOf, SumOf, AfterDays;
    DeltasSumExactly(DaysOf(rows), TotalsOf(baseline, rows, DaysOf(rows)), points);
  }

  // Days may arrive in any order: only the order within a day matters.
  lemma DayOrderIsIrrelevant(baseline: Totals, rows: seq<Snap>, other: seq<Snap>)
    requires forall d :: OnDay(rows, d) == OnDay(other, d)
    ensures DaysOf(rows) == DaysOf(other)
    ensures TotalsOf(baseline, rows, DaysOf(rows)) == TotalsOf(baseline, other, DaysOf(other))
  {
    hide OnDay, SumOf;
    forall d
      ensures HasDay(rows, d) <==> OnDay(rows, d) != []
      ensures HasDay(other, d) <==> OnDay(other, d) != []
    {
      HasRows(rows, d);
      HasRows(other, d);
    }
    var days, others := (set i | 0 <= i < |rows| :: rows[i].day), (set i | 0 <= i < |other| :: other[i].day);
    assert forall d :: d in days <==> HasDay(rows, d);
    assert forall d :: d in others <==> HasDay(other, d);
    assert days == others;
    var ds := DaysOf(rows);
    forall n: nat | n <= |ds|
      ensures AfterDays(baseline, rows, ds, n) == AfterDays(baseline, other, ds, n)
    {
      SameAfterDays(baseline, rows, other, ds, n);
    }
  }

  lemma {:induction false} HasRows(rows: seq<Snap>, day: int)
    ensures HasDay(rows, day) <==> OnDay(rows, day) != []
  {
    if rows != [] {
      var init := rows[..|rows| - 1];
      HasRows(init, day);
      assert rows[|rows| - 1].day != day ==>
          (HasDay(rows, day) <==> HasDay(init, day));
    }
  }

  lemma {:induction false} SameAfterDays(baseline: Totals, rows: seq<Snap>, other: seq<Snap>, ds: seq<int>, n: nat)
    requires n <= |ds| && forall d :: OnDay(rows, d) == OnDay(other, d)
    ensures AfterDays(baseline, rows, ds, n) == AfterDays(baseline, other, ds, n)
  {
    hide OnDay, TakeAll;
    if n > 0 {
      SameAfterDays(baseline, rows, other, ds, n - 1);
    }
  }
}
