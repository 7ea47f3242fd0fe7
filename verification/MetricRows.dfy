// The two writers of a post's metrics for one day: the API scrape
// (_record_metrics_snapshot of app/workers/instagram_graph_job_processor.py)
// and the cookie enrichment (_merge_metrics_snapshot of
// app/workers/instagram_enrich_processor.py).
module MetricRows {
  import opened Common

  datatype Row = Row(post: int, day: int, likes: Option<int>, comments: Option<int>,
                     views: Option<int>, reposts: Option<int>)

  // What a scrape brings for one post: the API has likes and comments only.
  datatype Write =
    | Graph(likes: Option<int>, comments: Option<int>)
    | Enrich(isVideo: bool, viewCount: Option<int>, playCount: Option<int>,
             likes: Option<int>, comments: Option<int>, reshares: Option<int>)

  // A write to one post on one day.
  datatype Entry = Entry(post: int, day: int, write: Write)

  // (view_count or play_count) for a video, else None.
  function Views(w: Write): Option<int>
    requires w.Enrich?
  {
    if !w.isVideo then None
    else if w.viewCount.Some? && w.viewCount.value != 0 then w.viewCount
    else w.playCount
  }

  function Merged(row: Row, w: Write): Row {
    match w
    case Graph(likes, comments) => row.(likes := likes, comments := comments)
    case Enrich(_, _, _, _, _, reshares) =>
      row.(views := if Views(w).Some? then Views(w) else row.views, reposts := reshares)
  }

  function Created(e: Entry): Row {
    match e.write
    case Graph(likes, comments) => Row(e.post, e.day, likes, comments, None, None)
    case Enrich(_, _, _, likes, comments, reshares) => Row(e.post, e.day, likes, comments, Views(e.write), reshares)
  }

  predicate Is(row: Row, post: int, day: int) {
    row.post == post && row.day == day
  }

  ghost predicate OneRowADay(rows: seq<Row>) {
    forall i, j :: 0 <= i < j < |rows| ==> !Is(rows[j], rows[i].post, rows[i].day)
  }

  // scalar_one_or_none
  function Find(rows: seq<Row>, post: int, day: int): (i: int)
    ensures -1 <= i < |rows|
    ensures i >= 0 ==> Is(rows[i], post, day)
    ensures i == -1 ==> forall j :: 0 <= j < |rows| ==> !Is(rows[j], post, day)
  {
    if rows == [] then -1
    else if Is(rows[|rows| - 1], post, day) then |rows| - 1
    else Find(rows[..|rows| - 1], post, day)
  }

  function Apply(rows: seq<Row>, e: Entry): seq<Row> {
    var i := Find(rows, e.post, e.day);
    if i >= 0 then rows[i := Merged(rows[i], e.write)] else rows + [Created(e)]
  }

  function ApplyAll(rows: seq<Row>, es: seq<Entry>): seq<Row> {
    if es == [] then rows else Apply(ApplyAll(rows, es[..|es| - 1]), es[|es| - 1])
  }

  class SnapshotTable {
    var rows: seq<Row>

    // The API scrape: only ever writes likes and comments of an existing row.
    method RecordMetricsSnapshot(post: int, today: int, likes: Option<int>, comments: Option<int>)
      requires OneRowADay(rows)
      modifies this
      ensures OneRowADay(rows) && rows == Apply(old(rows), Entry(post, today, Graph(likes, comments)))
    {
      ApplyKeepsOneRow(rows, Entry(post, today, Graph(likes, comments)));
      var i := Find(rows, post, today);
      if i >= 0 {
        rows := rows[i := rows[i].(likes := likes, comments := comments)];
        return;
      }
      rows := rows + [Row(post, today, likes, comments, None, None)];
    }

    // The enrichment: views only when it has a number, reposts always.
    method MergeMetricsSnapshot(post: int, today: int, item: Write)
      requires OneRowADay(rows) && item.Enrich?
      modifies this
      ensures OneRowADay(rows) && rows == Apply(old(rows), Entry(post, today, item))
    {
      ApplyKeepsOneRow(rows, Entry(post, today, item));
      var views: Option<int> := None;
      if item.isVideo {
        views := if item.viewCount.Some? && item.viewCount.value != 0 then item.viewCount else item.playCount;
      }
      var i := Find(rows, post, today);
      if i >= 0 {
        var row := rows[i];
        if views.Some? {
          row := row.(views := views);
        }
        rows := rows[i := row.(reposts := item.reshares)];
        return;
      }
      rows := rows + [Row(post, today, item.likes, item.comments, views, item.reshares)];
    }
  }

  lemma ApplyKeepsOneRow(rows: seq<Row>, e: Entry)
    requires OneRowADay(rows)
    ensures OneRowADay(Apply(rows, e))
  {
  }

  // ---------- the row that a day's writes leave ----------

  // The row of a post on a day, if any.
  function RowOf(rows: seq<Row>, post: int, day: int): Option<Row> {
    var i := Find(rows, post, day);
    if i >= 0 then Some(rows[i]) else None
  }

  // Only the writes to that post on that day matter to its row.
  lemma ApplyAt(rows: seq<Row>, e: Entry, post: int, day: int)
    requires OneRowADay(rows)
    ensures RowOf(Apply(rows, e), post, day)
         == if e.post != post || e.day != day then RowOf(rows, post, day)
            else Some(match RowOf(rows, post, day) case Some(row) => Merged(row, e.write) case None => Created(e))
  {
    hide OneRowADay, Find, Created, Merged;
    ApplyKeepsOneRow(rows, e);
    var i, j, next := Find(rows, e.post, e.day), Find(rows, post, day), Apply(rows, e);
    Identity(rows, e);
    if e.post == post && e.day == day {
      TheRow(next, if i >= 0 then i else |rows|, post, day);
    } else if j >= 0 {
      TheRow(next, j, post, day);
    }
  }

  lemma Identity(rows: seq<Row>, e: Entry)
    ensures Is(Created(e), e.post, e.day)
    ensures forall row :: Merged(row, e.write).post == row.post && Merged(row, e.write).day == row.day
  {
  }

  lemma TheRow(rows: seq<Row>, k: nat, post: int, day: int)
    requires OneRowADay(rows) && k < |rows| && Is(rows[k], post, day)
    ensures RowOf(rows, post, day) == Some(rows[k])
  {
  }

  datatype Kind = GraphWrite | EnrichWrite | EnrichWithViews

  predicate Fits(e: Entry, post: int, day: int, kind: Kind) {
    && e.post == post && e.day == day
    && match kind
       case GraphWrite => e.write.Graph?
       case EnrichWrite => e.write.Enrich?
       case EnrichWithViews =>
         e.write.Enrich? && e.write.isVideo && (e.write.viewCount !in {None, Some(0)} || e.write.playCount.Some?)
  }

  // The number of views an enrichment brings: of a video, its view count, or
  // its play count if that is missing or zero; of anything else, none.
  ghost predicate Shows(w: Write, value: int) {
    && w.Enrich? && w.isVideo
    && ((w.viewCount == Some(value) && value != 0) || (w.viewCount in {None, Some(0)} && w.playCount == Some(value)))
  }

  // The last write of one kind to a post on a day; -1 for none.
  function LastOf(es: seq<Entry>, post: int, day: int, kind: Kind): (i: int)
    ensures -1 <= i < |es|
    ensures i >= 0 ==> Fits(es[i], post, day, kind)
    ensures forall j :: i < j < |es| ==> !Fits(es[j], post, day, kind)
  {
    if es == [] then -1
    else if Fits(es[|es| - 1], post, day, kind) then |es| - 1
    else LastOf(es[..|es| - 1], post, day, kind)
  }

  // Entry f, an enrichment, came first and gave the row its likes and comments.
  ghost predicate FromFirst(es: seq<Entry>, post: int, day: int, f: int, row: Row) {
    && 0 <= f < |es| && es[f].post == post && es[f].day == day
    && (forall j :: 0 <= j < f ==> es[j].post != post || es[j].day != day)
    && es[f].write.Enrich? && row.likes == es[f].write.likes && row.comments == es[f].write.comments
  }

  // Likes and comments: the last API scrape's; without one, those the first
  // enrichment brought.
  ghost predicate LikesHold(es: seq<Entry>, post: int, day: int, row: Row) {
    var g := LastOf(es, post, day, GraphWrite);
    && (g >= 0 ==> row.likes == es[g].write.likes && row.comments == es[g].write.comments)
    && (g < 0 ==> exists f :: FromFirst(es, post, day, f, row))
  }

  // Views: the last number an enrichment brought.
  ghost predicate ViewsHold(es: seq<Entry>, post: int, day: int, row: Row) {
    var v := LastOf(es, post, day, EnrichWithViews);
    && (v >= 0 ==> row.views.Some? && Shows(es[v].write, row.views.value))
    && (v < 0 ==> row.views == None)
  }

  // Reposts: the last enrichment's.
  ghost predicate RepostsHold(es: seq<Entry>, post: int, day: int, row: Row) {
    var n := LastOf(es, post, day, EnrichWrite);
    row.reposts == if n >= 0 then es[n].write.reshares else None
  }

  // The row that a day's writes, in any interleaving, come to.
  ghost predicate HoldsTheLatest(es: seq<Entry>, post: int, day: int, found: Option<Row>) {
    && (found.Some? <==> LastOf(es, post, day, GraphWrite) >= 0 || LastOf(es, post, day, EnrichWrite) >= 0)
    && (found.Some? ==>
          && Is(found.value, post, day)
          && LikesHold(es, post, day, found.value)
          && ViewsHold(es, post, day, found.value)
          && RepostsHold(es, post, day, found.value))
  }

  // Starting without rows, whatever the interleaving: one row a day, whose
  // likes and comments are the last API scrape's (without one, the first
  // enrichment's), views the last number an enrichment brought, reposts the
  // last enrichment's.
  lemma {:induction false} RowHoldsTheLatest(es: seq<Entry>, post: int, day: int)
    ensures OneRowADay(ApplyAll([], es))
    ensures HoldsTheLatest(es, post, day, RowOf(ApplyAll([], es), post, day))
  {
    hide OneRowADay, HoldsTheLatest, RowOf, Apply;
    if es == [] {
      NothingWritten(post, day);
    } else {
      var m := |es| - 1;
      RowHoldsTheLatest(es[..m], post, day);
      var rows := ApplyAll([], es[..m]);
      ApplyAt(rows, es[m], post, day);
      ApplyKeepsOneRow(rows, es[m]);
      OneMoreWrite(es, post, day, RowOf(rows, post, day), RowOf(Apply(rows, es[m]), post, day));
    }
  }

  lemma NothingWritten(post: int, day: int)
    ensures OneRowADay([]) && HoldsTheLatest([], post, day, RowOf([], post, day))
  {
  }

  // The row after one more write to anything.
  ghost predicate Next(before: Option<Row>, e: Entry, post: int, day: int, after: Option<Row>) {
    after == if e.post != post || e.day != day then before
             else Some(match before case Some(row) => Merged(row, e.write) case None => Created(e))
  }

  lemma OneMoreWrite(es: seq<Entry>, post: int, day: int, before: Option<Row>, after: Option<Row>)
    requires es != [] && HoldsTheLatest(es[..|es| - 1], post, day, before) && Next(before, es[|es| - 1], post, day, after)
    ensures HoldsTheLatest(es, post, day, after)
  {
    hide LastOf, FromFirst, LikesHold, ViewsHold, RepostsHold;
    LastStep(es, post, day, GraphWrite);
    LastStep(es, post, day, EnrichWrite);
    LikesStep(es, post, day, before, after);
    ViewsStep(es, post, day, before, after);
    RepostsStep(es, post, day, before, after);
  }

  lemma LikesStep(es: seq<Entry>, post: int, day: int, before: Option<Row>, after: Option<Row>)
    requires es != [] && HoldsTheLatest(es[..|es| - 1], post, day, before) && Next(before, es[|es| - 1], post, day, after)
    ensures after.Some? ==> LikesHold(es, post, day, after.value)
  {
    hide LastOf, FromFirst, ViewsHold, RepostsHold;
    LastStep(es, post, day, GraphWrite);
    LastStep(es, post, day, EnrichWrite);
    if after.Some? {
      var init := es[..|es| - 1];
      FirstStep(es, post, day, if before.Some? then before.value else after.value, after.value);
      if LastOf(es, post, day, GraphWrite) < 0 && before.Some? {
        var f :| FromFirst(init, post, day, f, before.value);
        assert FromFirst(es, post, day, f, after.value);
      }
    }
  }

  lemma ViewsAreShown(e: Entry, post: int, day: int)
    ensures e.write.Enrich? ==> forall v :: Shows(e.write, v) <==> Views(e.write) == Some(v)
    ensures Fits(e, post, day, EnrichWithViews) <==>
              e.post == post && e.day == day && e.write.Enrich? && Views(e.write).Some?
  {
  }

  // What one more write does to the views.
  lemma ViewsMove(before: Option<Row>, e: Entry, post: int, day: int, after: Option<Row>)
    requires Next(before, e, post, day, after) && after.Some?
    ensures Fits(e, post, day, EnrichWithViews) ==>
              after.value.views.Some? && Shows(e.write, after.value.views.value)
    ensures !Fits(e, post, day, EnrichWithViews) ==>
              after.value.views == if before.Some? then before.value.views else None
  {
    hide Shows, Views, Fits;
    ViewsAreShown(e, post, day);
    if e.post == post && e.day == day && before.None? {
      CreatedViews(e);
    }
  }

  lemma CreatedViews(e: Entry)
    ensures Created(e).views == if e.write.Enrich? then Views(e.write) else None
  {
  }

  lemma ViewsStep(es: seq<Entry>, post: int, day: int, before: Option<Row>, after: Option<Row>)
    requires es != [] && HoldsTheLatest(es[..|es| - 1], post, day, before) && Next(before, es[|es| - 1], post, day, after)
    ensures after.Some? ==> ViewsHold(es, post, day, after.value)
  {
    hide LastOf, LikesHold, RepostsHold, Shows, Views, Fits, Next;
    LastStep(es, post, day, EnrichWithViews);
    ViewsNeedEnrichment(es[..|es| - 1], post, day);
    if after.Some? {
      ViewsMove(before, es[|es| - 1], post, day, after);
    }
  }

  lemma ViewsNeedEnrichment(es: seq<Entry>, post: int, day: int)
    ensures LastOf(es, post, day, EnrichWithViews) <= LastOf(es, post, day, EnrichWrite)
  {
    var v := LastOf(es, post, day, EnrichWithViews);
    assert v >= 0 ==> Fits(es[v], post, day, EnrichWrite);
  }

  lemma RepostsStep(es: seq<Entry>, post: int, day: int, before: Option<Row>, after: Option<Row>)
    requires es != [] && HoldsTheLatest(es[..|es| - 1], post, day, before) && Next(before, es[|es| - 1], post, day, after)
    ensures after.Some? ==> RepostsHold(es, post, day, after.value)
  {
    hide LastOf, LikesHold, ViewsHold;
    LastStep(es, post, day, EnrichWrite);
    LastStep(es, post, day, GraphWrite);
  }

  lemma LastStep(es: seq<Entry>, post: int, day: int, kind: Kind)
    requires es != []
    ensures LastOf(es, post, day, kind)
         == if Fits(es[|es| - 1], post, day, kind) then |es| - 1 else LastOf(es[..|es| - 1], post, day, kind)
    ensures -1 <= LastOf(es[..|es| - 1], post, day, kind) < |es| - 1
    ensures var k := LastOf(es[..|es| - 1], post, day, kind); k >= 0 ==> es[..|es| - 1][k] == es[k]
  {
  }

  lemma FirstStep(es: seq<Entry>, post: int, day: int, before: Row, after: Row)
    requires es != []
    ensures before.likes == after.likes && before.comments == after.comments ==>
              forall f :: FromFirst(es[..|es| - 1], post, day, f, before) ==> FromFirst(es, post, day, f, after)
    ensures var init, e := es[..|es| - 1], es[|es| - 1];
            && LastOf(init, post, day, GraphWrite) < 0 && LastOf(init, post, day, EnrichWrite) < 0
            && e.post == post && e.day == day && e.write.Enrich? && after == Created(e)
            ==> FromFirst(es, post, day, |es| - 1, after)
  {
    hide LastOf;
    var init := es[..|es| - 1];
    forall j | 0 <= j < |init| && init[j].post == post && init[j].day == day
      ensures LastOf(init, post, day, GraphWrite) >= j || LastOf(init, post, day, EnrichWrite) >= j
    {
      assert Fits(init[j], post, day, GraphWrite) || Fits(init[j], post, day, EnrichWrite);
    }
  }

  ghost predicate SameRows(xs: seq<Row>, ys: seq<Row>) {
    forall post, day :: RowOf(xs, post, day) == RowOf(ys, post, day)
  }

  // Neighbouring writes can be swapped unless the same writer makes both to
  // the same row.
  lemma WritersCommute(rows: seq<Row>, a: Entry, b: Entry)
    requires OneRowADay(rows)
    requires a.post == b.post && a.day == b.day ==> a.write.Graph? != b.write.Graph?
    ensures SameRows(Apply(Apply(rows, a), b), Apply(Apply(rows, b), a))
  {
    hide OneRowADay, RowOf, Apply;
    ApplyKeepsOneRow(rows, a);
    ApplyKeepsOneRow(rows, b);
    forall post, day
      ensures RowOf(Apply(Apply(rows, a), b), post, day) == RowOf(Apply(Apply(rows, b), a), post, day)
    {
      ApplyAt(rows, a, post, day);
      ApplyAt(rows, b, post, day);
      ApplyAt(Apply(rows, a), b, post, day);
      ApplyAt(Apply(rows, b), a, post, day);
    }
  }

  // Rows that look the same stay the same under further writes, so the swap
  // never shows later.
  lemma {:induction false} SwapNeverShows(xs: seq<Row>, ys: seq<Row>, es: seq<Entry>)
    requires OneRowADay(xs) && OneRowADay(ys) && SameRows(xs, ys)
    ensures OneRowADay(ApplyAll(xs, es)) && OneRowADay(ApplyAll(ys, es))
    ensures SameRows(ApplyAll(xs, es), ApplyAll(ys, es))
  {
    hide OneRowADay, RowOf, Apply;
    if es != [] {
      var m := |es| - 1;
      SwapNeverShows(xs, ys, es[..m]);
      var x, y := ApplyAll(xs, es[..m]), ApplyAll(ys, es[..m]);
      ApplyKeepsOneRow(x, es[m]);
      ApplyKeepsOneRow(y, es[m]);
      forall post, day
        ensures RowOf(Apply(x, es[m]), post, day) == RowOf(Apply(y, es[m]), post, day)
      {
        ApplyAt(x, es[m], post, day);
        ApplyAt(y, es[m], post, day);
      }
    }
  }
}
