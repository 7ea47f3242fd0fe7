// Progress of the resumable top-level walk: which pages repeated syncs read,
// how many calls a post takes, and when tombstoning can run at all.
module CommentProgress {
  import opened Common
  import opened CommentModel
  import opened CommentSafety
  import opened CommentRuns
  import opened CommentTheorems

  // No cap, and no request fails.
  ghost predicate Calm(cx: Ctx) {
    cx.cap <= 0 && forall n :: !cx.net(n)
  }

  // The top-level pages read, in order.
  function TopReads(log: seq<Event>): seq<nat> {
    if log == [] then []
    else
      var e := log[|log| - 1];
      TopReads(log[..|log| - 1]) + if e.TopPage? then [e.index] else []
  }

  lemma {:induction false} TopReadsConcat(a: seq<Event>, b: seq<Event>)
    ensures TopReads(a + b) == TopReads(a) + TopReads(b)
    decreases |b|
  {
    if b == [] {
      assert a + b == a;
    } else {
      assert (a + b)[..|a + b| - 1] == a + b[..|b| - 1];
      TopReadsConcat(a, b[..|b| - 1]);
    }
  }

  lemma {:induction false} NoTopReads(es: seq<Event>)
    requires forall e :: e in es ==> !e.TopPage?
    ensures TopReads(es) == []
    decreases |es|
  {
    if es != [] {
      NoTopReads(es[..|es| - 1]);
    }
  }

  lemma {:induction false} ReadsAreLogged(es: seq<Event>, i: nat)
    requires i in TopReads(es)
    ensures TopPage(i) in es
    decreases |es|
  {
    if es[|es| - 1] != TopPage(i) {
      ReadsAreLogged(es[..|es| - 1], i);
    }
  }

  lemma {:induction false} CalmReplies(cx: Ctx, p: Id, i: nat, fuel: nat, s: St, seen: set<Id>, total: nat)
    requires Calm(cx)
    ensures ReplyPages(cx, p, i, fuel, s, seen, total).end != Raised
    decreases fuel
  {
    hide ReplyPages;
    var thread := ThreadPages(cx.rem, p);
    ReplyUnfold(cx, p, i, fuel, s, seen, total);
    if fuel != 0 && HasMore(thread, i) {
      var s' := s.Put(Upsert(s.rows, cx.post, Some(p), thread[i]), ReplyPage(p, i));
      CalmReplies(cx, p, i + 1, fuel - 1, s', seen + Ids(thread[i]), total + |thread[i]|);
    }
  }

  lemma {:induction false} CalmThreads(cx: Ctx, diff: bool, cs: seq<Comment>, prev: map<Id, nat>, s: St, total: nat)
    requires Calm(cx)
    ensures !SyncThreads(cx, diff, cs, prev, s, total).raised
    decreases |cs|
  {
    hide SyncThreads, ReplyPages;
    ThreadsUnfold(cx, diff, cs, prev, s, total);
    if cs != [] {
      CalmReplies(cx, cs[0].id, 0, MAX_REPLY_PAGES, s, {}, 0);
      var w := SyncReplies(cx, cs[0].id, s);
      hide SyncReplies;
      CalmThreads(cx, diff, cs[1..], prev, w.st, total + w.total);
      CalmThreads(cx, diff, cs[1..], prev, s, total);
    }
  }

  // Between two logs the top-level pages a, a + 1, ..., b - 1 were read.
  ghost predicate Read(before: seq<Event>, after: seq<Event>, a: nat, b: nat) {
    a <= b && TopReads(after) == TopReads(before) + Range(a, b)
  }

  lemma ReadThen(x: seq<Event>, y: seq<Event>, z: seq<Event>, a: nat, b: nat, c: nat)
    requires Read(x, y, a, b) && Read(y, z, b, c)
    ensures Read(x, z, a, c)
  {
    RangeSplit(a, b, c);
    var r := TopReads(x);
    assert r + Range(a, b) + Range(b, c) == r + (Range(a, b) + Range(b, c));
  }

  lemma ReadNothing(x: seq<Event>, a: nat)
    ensures Read(x, x, a, a)
  {
  }

  // The reads of one page and of the threads walked for it.
  lemma PageReads(cx: Ctx, diff: bool, cs: seq<Comment>, prev: map<Id, nat>, s: St, i: nat, rows: Table, total: nat)
    requires Calm(cx) && Faithful(cx.rem)
    ensures var pass := SyncThreads(cx, diff, cs, prev, s.Put(rows, TopPage(i)), total);
            !pass.raised && Read(s.log, pass.st.log, i, i + 1)
    ensures Read(s.log, s.log + [TopPage(i)], i, i + 1)
  {
    var s1 := s.Put(rows, TopPage(i));
    CalmThreads(cx, diff, cs, prev, s1, total);
    var walks := ThreadsLogged(cx, diff, cs, prev, s1, total);
    TopReadsConcat(s1.log, walks);
    NoTopReads(walks);
    RangeOne(i);
  }

  // What an undisturbed top-level walk from page i with `fuel` pages left does.
  ghost predicate Walked(before: seq<Event>, w: TopWalk, i: nat, last: nat, fuel: nat) {
    var stop := Min(i + fuel, last);
    && Read(before, w.st.log, i, stop)
    && w.end == (if stop < last || fuel == 0 then Cut else Complete)
    && (w.end == Cut ==> PageIndex(w.after) == stop)
    && (w.end == Cut && fuel > 0 ==> w.after == Some(stop))
  }

  lemma WalkedOneMore(x: seq<Event>, y: seq<Event>, w: TopWalk, i: nat, last: nat, fuel: nat)
    requires Read(x, y, i, i + 1) && i + 1 < last && Walked(y, w, i + 1, last, fuel)
    requires fuel == 0 ==> w.after == Some(i + 1)
    ensures Walked(x, w, i, last, fuel + 1)
  {
    ReadThen(x, y, w.st.log, i, i + 1, Min(i + 1 + fuel, last));
  }

  // One page of an undisturbed walk: either it was the last, or the walk goes
  // on from the next page in the state (s', seen', total').
  lemma CalmPage(cx: Ctx, diff: bool, after: Option<nat>, fuel: nat, s: St, seen: set<Id>, total: nat)
    returns (s': St, seen': set<Id>, total': nat)
    requires Calm(cx) && Faithful(cx.rem) && PageIndex(after) < |cx.rem.pages| && fuel > 0
    ensures var w, i := TopPages(cx, diff, after, fuel, s, seen, total), PageIndex(after);
            if i + 1 < |cx.rem.pages|
            then w == TopPages(cx, diff, Some(i + 1), fuel - 1, s', seen', total') && Read(s.log, s'.log, i, i + 1)
            else w.end == Complete && Read(s.log, w.st.log, i, i + 1)
  {
    hide TopPages, SyncThreads, Upsert, Read;
    TopUnfold(cx, diff, after, fuel, s, seen, total);
    var i, pages := PageIndex(after), cx.rem.pages;
    var page := pages[i];
    var rows := Upsert(s.rows, cx.post, None, page);
    var prev := PreviousChildCounts(s.rows, page);
    var pass := SyncThreads(cx, diff, page, prev, s.Put(rows, TopPage(i)), total + |page|);
    PageReads(cx, diff, page, prev, s, i, rows, total + |page|);
    s', seen', total' := pass.st, seen + Ids(page), pass.total;
  }

  lemma {:induction false} CalmTop(cx: Ctx, diff: bool, after: Option<nat>, fuel: nat, s: St, seen: set<Id>, total: nat)
    requires Calm(cx) && Faithful(cx.rem) && PageIndex(after) < |cx.rem.pages|
    ensures Walked(s.log, TopPages(cx, diff, after, fuel, s, seen, total), PageIndex(after), |cx.rem.pages|, fuel)
    ensures fuel == 0 ==> TopPages(cx, diff, after, fuel, s, seen, total).after == after
    decreases fuel
  {
    hide TopPages, Calm, Faithful, Read, Walked;
    var i, last := PageIndex(after), |cx.rem.pages|;
    if fuel > 0 {
      var s', seen', total' := CalmPage(cx, diff, after, fuel, s, seen, total);
      if i + 1 < last {
        CalmTop(cx, diff, Some(i + 1), fuel - 1, s', seen', total');
        WalkedOneMore(s.log, s'.log, TopPages(cx, diff, Some(i + 1), fuel - 1, s', seen', total'), i, last, fuel - 1);
      } else {
        WalkedLast(s.log, TopPages(cx, diff, after, fuel, s, seen, total), i, last, fuel);
      }
    } else {
      NoFuel(cx, diff, after, s, seen, total);
    }
  }

  lemma WalkedLast(x: seq<Event>, w: TopWalk, i: nat, last: nat, fuel: nat)
    requires Read(x, w.st.log, i, i + 1) && i + 1 == last && w.end == Complete && fuel > 0
    ensures Walked(x, w, i, last, fuel)
  {
  }

  lemma NoFuel(cx: Ctx, diff: bool, after: Option<nat>, s: St, seen: set<Id>, total: nat)
    requires PageIndex(after) < |cx.rem.pages|
    ensures TopPages(cx, diff, after, 0, s, seen, total) == TopWalk(s, seen, total, after, Cut)
    ensures Walked(s.log, TopWalk(s, seen, total, after, Cut), PageIndex(after), |cx.rem.pages|, 0)
  {
    ReadNothing(s.log, PageIndex(after));
  }

  // One uncapped, undisturbed call that resumes at page i of P: it reads up to
  // 50 pages from there, and keeps a cursor just when pages are left.
  lemma CalmSync(cx: Ctx, diff: bool, post: Post, s: St)
    requires Calm(cx) && Faithful(cx.rem) && PageIndex(post.cursor) < |cx.rem.pages|
    ensures var o, i, last := Sync(cx, diff, post, s), PageIndex(post.cursor), |cx.rem.pages|;
            var stop := Min(i + MAX_COMMENT_PAGES, last);
            && Read(s.log, o.st.log, i, stop)
            && o.post.cursor == (if stop < last then Some(stop) else None)
            && o.end == (if stop < last then Cut else Complete)
            && o.st.log != []
            && o.st.log[|o.st.log| - 1] == Closed(post.cursor == None && last <= MAX_COMMENT_PAGES)
  {
    hide TopPages, Faithful, DeleteMissing, TopReads, Range;
    CalmTop(cx, diff, post.cursor, MAX_COMMENT_PAGES, s, {}, 0);
    var w := TopPages(cx, diff, post.cursor, MAX_COMMENT_PAGES, s, {}, 0);
    var e := Closed(post.cursor.None? && w.end == Complete);
    assert !cx.net(|w.st.log|);
    TopReadsConcat(w.st.log, [e]);
    NoTopReads([e]);
    assert TopReads(w.st.log) + [] == TopReads(w.st.log);
  }

  // Tombstoning runs in an undisturbed call exactly when the call starts
  // without a cursor and the post fits in one walk: never for a longer post.
  lemma TombstonesIff(cx: Ctx, diff: bool, post: Post, s: St)
    requires Calm(cx) && Faithful(cx.rem) && PageIndex(post.cursor) < |cx.rem.pages|
    ensures var log := Sync(cx, diff, post, s).st.log;
            log != [] && (log[|log| - 1] == Closed(true) <==>
                          post.cursor == None && |cx.rem.pages| <= MAX_COMMENT_PAGES)
  {
    CalmSync(cx, diff, post, s);
  }

  function Calls(pages: nat): nat {
    (pages + MAX_COMMENT_PAGES - 1) / MAX_COMMENT_PAGES
  }

  lemma CallsCover(pages: nat, k: nat)
    requires k <= Calls(pages)
    ensures k < Calls(pages) <==> MAX_COMMENT_PAGES * k < pages
    ensures k > 0 && pages > MAX_COMMENT_PAGES ==> k - 1 <= Calls(pages - MAX_COMMENT_PAGES)
    ensures k > 1 ==> pages > MAX_COMMENT_PAGES
  {
  }

  function Repeated(cx: Ctx, k: nat): seq<Ctx> {
    seq(k, (_: nat) => cx)
  }

  // k + 1 calls are one call and k more.
  lemma RepeatedStep(cx: Ctx, k: nat, post: Post, s: St)
    ensures SyncMany(Repeated(cx, 0), post, s) == (post, s)
    ensures var o := Sync(cx, true, post, s);
            SyncMany(Repeated(cx, k + 1), post, s) == SyncMany(Repeated(cx, k), o.post, o.st)
  {
    assert Repeated(cx, k + 1)[1..] == Repeated(cx, k);
  }

  // Pages a to min(b, last) - 1 were read; the cursor names what is left.
  ghost predicate Resumed(r: (Post, St), before: seq<Event>, a: nat, b: nat, last: nat) {
    && Read(before, r.1.log, a, Min(b, last))
    && r.0.cursor == if b < last then Some(b) else None
  }

  // k calls on end: while pages are left each saves the first unread page,
  // and the call that reads the last page clears the cursor.
  lemma {:induction false} CallsResume(cx: Ctx, k: nat, post: Post, s: St)
    requires Calm(cx) && Faithful(cx.rem) && PageIndex(post.cursor) < |cx.rem.pages|
    requires 1 <= k <= Calls(|cx.rem.pages| - PageIndex(post.cursor))
    ensures Resumed(SyncMany(Repeated(cx, k), post, s), s.log, PageIndex(post.cursor),
                    PageIndex(post.cursor) + MAX_COMMENT_PAGES * k, |cx.rem.pages|)
    decreases k
  {
    hide Sync, SyncMany, Faithful, Read, Calm, Calls, Repeated;
    var o := Sync(cx, true, post, s);
    var i, last := PageIndex(post.cursor), |cx.rem.pages|;
    CalmSync(cx, true, post, s);
    CallsCover(last - i, k);
    RepeatedStep(cx, k - 1, post, s);
    RepeatedStep(cx, 0, o.post, o.st);
    if k > 1 {
      CallsResume(cx, k - 1, o.post, o.st);
      var r := SyncMany(Repeated(cx, k - 1), o.post, o.st);
      ReadThen(s.log, o.st.log, r.1.log, i, i + MAX_COMMENT_PAGES, Min(i + MAX_COMMENT_PAGES * k, last));
    }
  }

  lemma RepeatedIsSame(cx: Ctx, k: nat)
    ensures SamePost(Repeated(cx, k), cx)
  {
  }

  // A fixed post of P >= 1 pages, synced without cap or failures from scratch:
  // exactly ceil(P/50) calls read every page once, in order; before that the
  // cursor names the first unread page, afterwards it is clear and every
  // top-level comment is stored.
  lemma RepeatedSyncsFinish(cx: Ctx, synced: nat, s: St, k: nat)
    requires Calm(cx) && Faithful(cx.rem) && Sound(cx, s.rows) && TopReads(s.log) == []
    requires |cx.rem.pages| >= 1 && 1 <= k <= Calls(|cx.rem.pages|)
    ensures var r, last := SyncMany(Repeated(cx, k), Post(None, synced), s), |cx.rem.pages|;
            if k < Calls(last)
            then MAX_COMMENT_PAGES * k < last && r.0.cursor == Some(MAX_COMMENT_PAGES * k)
                 && TopReads(r.1.log) == Range(0, MAX_COMMENT_PAGES * k)
            else r.0.cursor == None && TopReads(r.1.log) == Range(0, last)
                 && forall i, c :: Listed(cx.rem, None, i, c) ==> Mirrors(r.1.rows, cx.post, None, c)
  {
    hide SyncMany, Faithful, Sound, Calm, Calls, Repeated;
    var post, last := Post(None, synced), |cx.rem.pages|;
    var r := SyncMany(Repeated(cx, k), post, s);
    CallsResume(cx, k, post, s);
    CallsCover(last, k);
    FirstReads(s.log, r.1.log, Min(MAX_COMMENT_PAGES * k, last));
    if k == Calls(last) {
      RepeatedIsSame(cx, k);
      var es := SyncManyRun(Repeated(cx, k), cx, post, s);
      PagesAreMirrored(cx, s, es);
    }
  }

  lemma FirstReads(before: seq<Event>, after: seq<Event>, b: nat)
    requires TopReads(before) == [] && Read(before, after, 0, b)
    ensures TopReads(after) == Range(0, b)
  {
    assert [] + Range(0, b) == Range(0, b);
  }

  lemma PagesAreMirrored(cx: Ctx, s: St, es: seq<Event>)
    requires Faithful(cx.rem) && Sound(cx, s.rows) && Allowed(cx, s.rows, es)
    requires TopReads(s.log) == [] && TopReads(s.log + es) == Range(0, |cx.rem.pages|)
    ensures forall i: nat, c :: Listed(cx.rem, None, i, c) ==> Mirrors(Replay(cx, s.rows, es), cx.post, None, c)
  {
    hide Faithful, Sound, TopReads;
    TopReadsConcat(s.log, es);
    assert TopReads(es) == Range(0, |cx.rem.pages|);
    forall i: nat, c | Listed(cx.rem, None, i, c)
      ensures Mirrors(Replay(cx, s.rows, es), cx.post, None, c)
    {
      assert TopReads(es)[i] == i;
      ReadsAreLogged(es, i);
      ReplayMirrors(cx, s.rows, es, None, i, c);
    }
  }
}
