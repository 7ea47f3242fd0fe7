// What a sync promises against a fixed, faithful remote, stated about the
// whole call and about every table committed on the way.
module CommentTheorems {
  import opened Common
  import opened CommentModel
  import opened CommentSafety
  import opened CommentRuns

  // The table committed when a sync starting at s had logged k events.
  function TableAfter(cx: Ctx, s: St, log: seq<Event>, k: nat): Table
    requires |s.log| <= k <= |log|
  {
    Replay(cx, s.rows, log[|s.log|..k])
  }

  // Nothing still on the remote is deleted, no reply loses its parent and no
  // other post is touched: at the end of any sync and at every commit before.
  lemma SyncIsSafe(cx: Ctx, diff: bool, post: Post, s: St)
    requires Faithful(cx.rem) && Sound(cx, s.rows)
    ensures var o := Sync(cx, diff, post, s);
            && |s.log| <= |o.st.log|
            && TableAfter(cx, s, o.st.log, |o.st.log|) == o.st.rows
            && forall k :: |s.log| <= k <= |o.st.log| ==>
                 && Sound(cx, TableAfter(cx, s, o.st.log, k))
                 && Keeps(cx, s.rows, TableAfter(cx, s, o.st.log, k))
  {
    hide Sync, Faithful, Sound, Keeps, Replay, Allowed;
    var es := SyncRun(cx, diff, post, s);
    var o := Sync(cx, diff, post, s);
    assert o.st.log[|s.log|..] == es;
    forall k | |s.log| <= k <= |o.st.log|
      ensures Sound(cx, TableAfter(cx, s, o.st.log, k)) && Keeps(cx, s.rows, TableAfter(cx, s, o.st.log, k))
    {
      var n := k - |s.log|;
      assert o.st.log[|s.log|..k] == es[..n] && es[..n] + es[n..] == es;
      ReplayConcat(cx, s.rows, es[..n], es[n..]);
      ReplayKeeps(cx, s.rows, es[..n]);
    }
    assert o.st.log[|s.log|..|o.st.log|] == es;
  }

  // ---------- what is mirrored ----------

  // c is stored under `parent` with the remote's content.
  ghost predicate Mirrors(rows: Table, post: PostId, parent: Option<Id>, c: Comment) {
    && c.id in rows && rows[c.id].post == post && rows[c.id].parent == parent
    && rows[c.id].body == c.body && rows[c.id].childCount == c.childCount
  }

  function PagesUnder(rem: Remote, parent: Option<Id>): seq<seq<Comment>> {
    match parent case None => rem.pages case Some(p) => ThreadPages(rem, p)
  }

  // c is on page i of the visible list `parent`.
  ghost predicate Listed(rem: Remote, parent: Option<Id>, i: nat, c: Comment) {
    && (parent.Some? ==> parent.value in TopIds(rem))
    && c in PageAt(PagesUnder(rem, parent), i)
  }

  lemma ListedPlace(rem: Remote, parent: Option<Id>, i: nat, c: Comment)
    requires Faithful(rem) && Listed(rem, parent, i, c)
    ensures c.id != "" && Place(rem, c.id, parent) && OnRemote(rem, c.id)
    ensures FaithfulPages(PagesUnder(rem, parent))
    ensures DistinctIds(PageAt(PagesUnder(rem, parent), i))
    ensures c.id in Ids(PageAt(PagesUnder(rem, parent), i)) && c.id in PageIds(PagesUnder(rem, parent))
  {
    PageAtIds(PagesUnder(rem, parent), i);
    assert c.id in Ids(PageAt(PagesUnder(rem, parent), i));
    assert c.id in PageIds(PagesUnder(rem, parent));
  }

  // One id, one comment.
  lemma ListedOnce(rem: Remote, p: Option<Id>, i: nat, c: Comment, q: Option<Id>, j: nat, d: Comment)
    requires Faithful(rem) && Listed(rem, p, i, c) && Listed(rem, q, j, d) && c.id == d.id
    ensures p == q && i == j && c == d
  {
    hide Faithful, Place, OnRemote;
    ListedPlace(rem, p, i, c);
    ListedPlace(rem, q, j, d);
    PlaceIsUnique(rem, c.id, p, q);
    var pages := PagesUnder(rem, p);
    assert i < |pages| && j < |pages|;
    var x :| 0 <= x < |pages[i]| && pages[i][x] == c;
    var y :| 0 <= y < |pages[i]| && pages[i][y] == d;
  }

  // Writing a page mirrors every comment on it.
  lemma PageMirrors(cx: Ctx, rows: Table, parent: Option<Id>, i: nat, c: Comment)
    requires Faithful(cx.rem) && Sound(cx, rows) && Listed(cx.rem, parent, i, c)
    ensures Mirrors(Upsert(rows, cx.post, parent, PageAt(PagesUnder(cx.rem, parent), i)), cx.post, parent, c)
  {
    hide Faithful, OnRemote, Place;
    var cs := PageAt(PagesUnder(cx.rem, parent), i);
    ListedPlace(cx.rem, parent, i, c);
    PageAtIds(PagesUnder(cx.rem, parent), i);
    UpsertEffect(rows, cx.post, parent, cs);
  }

  // Content once mirrored stays mirrored: a later write can only repeat it.
  lemma StepMirrors(cx: Ctx, rows: Table, e: Event, parent: Option<Id>, i: nat, c: Comment)
    requires Faithful(cx.rem) && Sound(cx, rows) && Enabled(cx, rows, e)
    requires Listed(cx.rem, parent, i, c) && Mirrors(rows, cx.post, parent, c)
    ensures Mirrors(Apply(cx, rows, e), cx.post, parent, c)
  {
    ListedPlace(cx.rem, parent, i, c);
    StepKeeps(cx, rows, e);
    if e.TopPage? || e.ReplyPage? {
      var under := if e.TopPage? then None else Some(e.parent);
      var cs := PageAt(PagesUnder(cx.rem, under), e.index);
      hide Sound, Keeps, Faithful, OnRemote, Place;
      if c.id in Ids(cs) {
        var d :| d in cs && d.id == c.id;
        assert Listed(cx.rem, under, e.index, d);
        ListedOnce(cx.rem, parent, i, c, under, e.index, d);
        PageMirrors(cx, rows, parent, i, c);
      } else {
        UpsertElsewhere(rows, cx.post, under, cs, c.id);
      }
    } else {
      assert c.id in Apply(cx, rows, e);
    }
  }

  lemma {:induction false} ReplayMirrors(cx: Ctx, rows: Table, es: seq<Event>, parent: Option<Id>, i: nat, c: Comment)
    requires Faithful(cx.rem) && Sound(cx, rows) && Allowed(cx, rows, es) && Listed(cx.rem, parent, i, c)
    requires Mirrors(rows, cx.post, parent, c)
          || (parent == None && TopPage(i) in es) || (parent.Some? && ReplyPage(parent.value, i) in es)
    ensures Mirrors(Replay(cx, rows, es), cx.post, parent, c)
    decreases |es|
  {
    if es != [] {
      var e, next := es[0], Apply(cx, rows, es[0]);
      assert es == [e] + es[1..];
      StepKeeps(cx, rows, e);
      hide Sound, Keeps, Faithful, OnRemote, Place, Listed, Upsert;
      if Mirrors(rows, cx.post, parent, c) {
        StepMirrors(cx, rows, e, parent, i, c);
      } else if (parent == None && e == TopPage(i)) || (parent.Some? && e == ReplyPage(parent.value, i)) {
        PageMirrors(cx, rows, parent, i, c);
      }
      ReplayMirrors(cx, next, es[1..], parent, i, c);
    }
  }

  // ---------- walks that end have read every page ----------

  // A thread is swept only after all its pages were read.
  ghost predicate SweptAfterReading(rem: Remote, es: seq<Event>) {
    forall k, i :: 0 <= k < |es| && es[k].Swept? && 0 <= i < |ThreadPages(rem, es[k].parent)| ==>
      ReplyPage(es[k].parent, i) in es[..k]
  }

  lemma SweptConcat(rem: Remote, a: seq<Event>, b: seq<Event>)
    requires SweptAfterReading(rem, a) && SweptAfterReading(rem, b)
    ensures SweptAfterReading(rem, a + b)
  {
    var es := a + b;
    forall k, i | 0 <= k < |es| && es[k].Swept? && 0 <= i < |ThreadPages(rem, es[k].parent)|
      ensures ReplyPage(es[k].parent, i) in es[..k]
    {
      if k < |a| {
        assert es[k] == a[k] && es[..k] == a[..k];
      } else {
        assert es[k] == b[k - |a|] && es[..k] == a + b[..k - |a|];
      }
    }
  }

  lemma EmptyEndsTheList(pages: seq<seq<Comment>>, i: nat)
    requires FaithfulPages(pages)
    ensures i < |pages| && pages[i] == [] ==> i + 1 == |pages|
  {
  }

  lemma {:induction false} RepliesLogged(cx: Ctx, p: Id, i: nat, fuel: nat, s: St, seen: set<Id>, total: nat)
    returns (es: seq<Event>)
    requires FaithfulPages(ThreadPages(cx.rem, p))
    ensures var w := ReplyPages(cx, p, i, fuel, s, seen, total);
            && w.st.log == s.log + es
            && (forall e :: e in es ==> e == Failed || (e.ReplyPage? && e.parent == p))
            && (w.end == Complete ==> forall j :: i <= j < |ThreadPages(cx.rem, p)| ==> ReplyPage(p, j) in es)
    decreases fuel
  {
    hide ReplyPages, Upsert, Ids, CountStored, FaithfulPages;
    ReplyUnfold(cx, p, i, fuel, s, seen, total);
    var thread := ThreadPages(cx.rem, p);
    if fuel == 0 || Full(cx, s.rows) {
      es := [];
    } else if cx.net(|s.log|) {
      es := [Failed];
    } else if !HasMore(thread, i) || thread[i] == [] {
      EmptyEndsTheList(thread, i);
      es := [ReplyPage(p, i)];
    } else {
      var s' := s.Put(Upsert(s.rows, cx.post, Some(p), thread[i]), ReplyPage(p, i));
      var rest := RepliesLogged(cx, p, i + 1, fuel - 1, s', seen + Ids(thread[i]), total + |thread[i]|);
      es := [ReplyPage(p, i)] + rest;
    }
  }

  predicate OfThread(e: Event, p: Id) {
    e == Failed || e == Swept(p) || (e.ReplyPage? && e.parent == p)
  }

  lemma SyncRepliesLogged(cx: Ctx, p: Id, s: St) returns (es: seq<Event>)
    requires FaithfulPages(ThreadPages(cx.rem, p))
    ensures SyncReplies(cx, p, s).st.log == s.log + es
    ensures SweptAfterReading(cx.rem, es)
    ensures forall e :: e in es ==> OfThread(e, p)
    ensures SyncReplies(cx, p, s).end == Complete ==>
              es != [] && es[|es| - 1] == Swept(p) &&
              forall i :: 0 <= i < |ThreadPages(cx.rem, p)| ==> ReplyPage(p, i) in es[..|es| - 1]
  {
    hide ReplyPages, FaithfulPages, DeleteMissing;
    var w := ReplyPages(cx, p, 0, MAX_REPLY_PAGES, s, {}, 0);
    es := RepliesLogged(cx, p, 0, MAX_REPLY_PAGES, s, {}, 0);
    if w.end == Complete {
      var e := if cx.net(|w.st.log|) then Failed else Swept(p);
      var all := es + [e];
      assert forall k :: 0 <= k < |all| && all[k].Swept? ==> k == |es| && all[..k] == es;
      es := all;
    }
  }

  lemma {:induction false} ThreadsLogged(cx: Ctx, diff: bool, cs: seq<Comment>, prev: map<Id, nat>, s: St, total: nat)
    returns (es: seq<Event>)
    requires Faithful(cx.rem)
    ensures SyncThreads(cx, diff, cs, prev, s, total).st.log == s.log + es
    ensures SweptAfterReading(cx.rem, es)
    ensures forall e :: e in es ==> !e.TopPage?
    decreases |cs|
  {
    hide SyncThreads, SyncReplies;
    ThreadsUnfold(cx, diff, cs, prev, s, total);
    if cs == [] {
      es := [];
    } else if !NeedsWalk(cs[0], prev, diff) {
      es := ThreadsLogged(cx, diff, cs[1..], prev, s, total);
    } else {
      var w := SyncReplies(cx, cs[0].id, s);
      es := SyncRepliesLogged(cx, cs[0].id, s);
      if w.end != Raised {
        var rest := ThreadsLogged(cx, diff, cs[1..], prev, w.st, total + w.total);
        SweptConcat(cx.rem, es, rest);
        es := es + rest;
      }
    }
  }

  lemma {:induction false} TopLogged(cx: Ctx, diff: bool, after: Option<nat>, fuel: nat, s: St, seen: set<Id>, total: nat)
    returns (es: seq<Event>)
    requires Faithful(cx.rem)
    ensures TopPages(cx, diff, after, fuel, s, seen, total).st.log == s.log + es
    ensures SweptAfterReading(cx.rem, es)
    decreases fuel
  {
    hide Faithful, TopPages, SyncThreads, Upsert, Ids;
    TopUnfold(cx, diff, after, fuel, s, seen, total);
    var i, pages := PageIndex(after), cx.rem.pages;
    var page := PageAt(pages, i);
    if fuel == 0 || Full(cx, s.rows) {
      es := [];
    } else if cx.net(|s.log|) {
      es := [Failed];
    } else if page == [] {
      es := [TopPage(i)];
    } else {
      var prev := PreviousChildCounts(s.rows, page);
      var s1 := s.Put(Upsert(s.rows, cx.post, None, page), TopPage(i));
      var pass := SyncThreads(cx, diff, page, prev, s1, total + |page|);
      var walks := ThreadsLogged(cx, diff, page, prev, s1, total + |page|);
      SweptConcat(cx.rem, [TopPage(i)], walks);
      es := [TopPage(i)] + walks;
      if !pass.raised && HasMore(pages, i) {
        var rest := TopLogged(cx, diff, Some(i + 1), fuel - 1, pass.st, seen + Ids(page), pass.total);
        SweptConcat(cx.rem, es, rest);
        es := es + rest;
      }
    }
  }

  // A top-level walk that ends has read every page from its cursor on.
  lemma {:induction false} TopReadsPage(cx: Ctx, diff: bool, after: Option<nat>, fuel: nat, s: St, seen: set<Id>,
                                        total: nat, j: nat, es: seq<Event>)
    requires Faithful(cx.rem)
    requires PageIndex(after) <= j < |cx.rem.pages|
    requires TopPages(cx, diff, after, fuel, s, seen, total).end == Complete
    requires TopPages(cx, diff, after, fuel, s, seen, total).st.log == s.log + es
    ensures TopPage(j) in es
    decreases fuel
  {
    hide TopPages, SyncThreads, Upsert, Ids, SweptAfterReading, Faithful;
    TopUnfold(cx, diff, after, fuel, s, seen, total);
    var i := PageIndex(after);
    var page := PageAt(cx.rem.pages, i);
    if page == [] {
      OnlyLastIsEmpty(cx.rem, i);
      assert es == (s.log + es)[|s.log|..] == [TopPage(i)];
    } else {
      var prev := PreviousChildCounts(s.rows, page);
      var s1 := s.Put(Upsert(s.rows, cx.post, None, page), TopPage(i));
      var pass := SyncThreads(cx, diff, page, prev, s1, total + |page|);
      var walks := ThreadsLogged(cx, diff, page, prev, s1, total + |page|);
      var seen', n := seen + Ids(page), fuel - 1;
      if HasMore(cx.rem.pages, i) {
        var later := TopLogged(cx, diff, Some(i + 1), n, pass.st, seen', pass.total);
        if j > i {
          TopReadsPage(cx, diff, Some(i + 1), n, pass.st, seen', pass.total, j, later);
        }
        assert es == (s.log + es)[|s.log|..] == [TopPage(i)] + walks + later;
      } else {
        assert es == (s.log + es)[|s.log|..] == [TopPage(i)] + walks;
      }
    }
  }

  lemma OnlyLastIsEmpty(rem: Remote, i: nat)
    requires Faithful(rem) && PageAt(rem.pages, i) == []
    ensures |rem.pages| <= i + 1
  {
  }

  lemma SyncLogged(cx: Ctx, diff: bool, post: Post, s: St) returns (es: seq<Event>)
    requires Faithful(cx.rem)
    ensures var o := Sync(cx, diff, post, s);
            && o.st.log == s.log + es
            && SweptAfterReading(cx.rem, es)
            && (o.end == Complete && post.cursor == None ==>
                  es != [] && es[|es| - 1] == Closed(true) &&
                  forall j :: 0 <= j < |cx.rem.pages| ==> TopPage(j) in es[..|es| - 1])
  {
    hide Faithful, TopPages, DeleteMissing;
    var w := TopPages(cx, diff, post.cursor, MAX_COMMENT_PAGES, s, {}, 0);
    es := TopLogged(cx, diff, post.cursor, MAX_COMMENT_PAGES, s, {}, 0);
    if w.end == Complete && post.cursor == None {
      forall j | 0 <= j < |cx.rem.pages|
        ensures TopPage(j) in es
      {
        TopReadsPage(cx, diff, post.cursor, MAX_COMMENT_PAGES, s, {}, 0, j, es);
      }
    }
    if w.end != Raised {
      var e := if cx.net(|w.st.log|) then Failed else Closed(post.cursor.None? && w.end == Complete);
      SweptConcat(cx.rem, es, [e]);
      assert (es + [e])[..|es|] == es;
      es := es + [e];
    }
  }

  // ---------- completeness ----------

  function StoredTops(rows: Table, post: PostId): set<Id> {
    set id | id in rows && StoredTop(rows, post, id)
  }

  function StoredReplies(rows: Table, p: Id): set<Id> {
    set id | id in rows && rows[id].parent == Some(p)
  }

  // The stored thread of p is the remote's, reply by reply.
  ghost predicate ThreadExact(cx: Ctx, rows: Table, p: Id) {
    && StoredReplies(rows, p) == ThreadIds(cx.rem, p)
    && forall i, c :: Listed(cx.rem, Some(p), i, c) ==> Mirrors(rows, cx.post, Some(p), c)
  }

  // The closing tombstones leave no top-level row off the remote.
  lemma ClosedTops(cx: Ctx, rows: Table)
    ensures StoredTops(Apply(cx, rows, Closed(true)), cx.post) <= TopIds(cx.rem)
  {
    hide TopIds;
  }

  // Once every listed top-level comment is mirrored, every id is stored.
  lemma MirroredTops(cx: Ctx, rows: Table)
    requires forall i, c :: Listed(cx.rem, None, i, c) ==> Mirrors(rows, cx.post, None, c)
    ensures TopIds(cx.rem) <= StoredTops(rows, cx.post)
  {
    hide IdsUpTo;
    forall id | id in TopIds(cx.rem)
      ensures StoredTop(rows, cx.post, id)
    {
      var i := IdsUpToPage(cx.rem.pages, |cx.rem.pages|, id);
      var c :| c in cx.rem.pages[i] && c.id == id;
      assert Listed(cx.rem, None, i, c) && Mirrors(rows, cx.post, None, c);
    }
  }

  // A run that read every top-level page mirrors every top-level comment.
  lemma ReadPagesAreMirrored(cx: Ctx, rows: Table, es: seq<Event>)
    requires Faithful(cx.rem) && Sound(cx, rows) && Allowed(cx, rows, es)
    requires forall j :: 0 <= j < |cx.rem.pages| ==> TopPage(j) in es
    ensures forall i, c :: Listed(cx.rem, None, i, c) ==> Mirrors(Replay(cx, rows, es), cx.post, None, c)
  {
    hide Faithful, Sound, Replay, Allowed, Mirrors;
    forall i, c | Listed(cx.rem, None, i, c)
      ensures Mirrors(Replay(cx, rows, es), cx.post, None, c)
    {
      assert TopPage(i) in es;
      ReplayMirrors(cx, rows, es, None, i, c);
    }
  }

  lemma LastReplayed(cx: Ctx, rows: Table, es: seq<Event>)
    requires es != []
    ensures Replay(cx, rows, es) == Apply(cx, Replay(cx, rows, es[..|es| - 1]), es[|es| - 1])
  {
    hide Replay, Apply;
    var n := |es| - 1;
    assert es == es[..n] + [es[n]];
    ReplayConcat(cx, rows, es[..n], [es[n]]);
    ReplayOne(cx, Replay(cx, rows, es[..n]), es[n]);
  }

  // A fresh sync that ends by itself leaves exactly the remote's top-level
  // comments, with the remote's content.
  lemma FreshSyncMirrorsTop(cx: Ctx, diff: bool, post: Post, s: St)
    requires Faithful(cx.rem) && Sound(cx, s.rows)
    requires post.cursor == None && Sync(cx, diff, post, s).end == Complete
    ensures var o := Sync(cx, diff, post, s);
            && StoredTops(o.st.rows, cx.post) == TopIds(cx.rem)
            && forall i, c :: Listed(cx.rem, None, i, c) ==> Mirrors(o.st.rows, cx.post, None, c)
  {
    hide Sync, Faithful, Sound, Replay, Allowed, Apply, StoredTops, TopIds, SweptAfterReading;
    var o := Sync(cx, diff, post, s);
    var es := SyncRun(cx, diff, post, s);
    var es' := SyncLogged(cx, diff, post, s);
    assert es' == o.st.log[|s.log|..] == es;
    assert forall j :: 0 <= j < |cx.rem.pages| ==> TopPage(j) in es[..|es| - 1] && TopPage(j) in es;
    ReadPagesAreMirrored(cx, s.rows, es);
    MirroredTops(cx, o.st.rows);
    LastReplayed(cx, s.rows, es);
    ClosedTops(cx, Replay(cx, s.rows, es[..|es| - 1]));
  }

  lemma SweepIsExact(cx: Ctx, rows: Table, p: Id)
    requires Faithful(cx.rem) && Sound(cx, rows) && p in TopIds(cx.rem)
    requires forall i, c :: Listed(cx.rem, Some(p), i, c) ==> Mirrors(rows, cx.post, Some(p), c)
    ensures ThreadExact(cx, Apply(cx, rows, Swept(p)), p)
  {
    var rows' := Apply(cx, rows, Swept(p));
    var thread := ThreadPages(cx.rem, p);
    SweepKeeps(cx, rows, p);
    hide Faithful, Keeps;
    forall i, c | Listed(cx.rem, Some(p), i, c)
      ensures Mirrors(rows', cx.post, Some(p), c)
    {
      ListedPlace(cx.rem, Some(p), i, c);
    }
    forall id | id in ThreadIds(cx.rem, p)
      ensures id in StoredReplies(rows', p)
    {
      var i := IdsUpToPage(thread, |thread|, id);
      var c: Comment :| c in thread[i] && c.id == id;
      assert Listed(cx.rem, Some(p), i, c);
    }
    forall id | id in StoredReplies(rows', p)
      ensures id in ThreadIds(cx.rem, p)
    {
      assert Place(cx.rem, p, None);
      assert rows'[id].post == cx.post by {
        assert p in rows' && StoredTop(rows', rows'[id].post, p);
      }
    }
  }

  lemma StepKeepsExact(cx: Ctx, rows: Table, e: Event, p: Id)
    requires Faithful(cx.rem) && Sound(cx, rows) && Enabled(cx, rows, e)
    requires p in TopIds(cx.rem) && ThreadExact(cx, rows, p)
    ensures ThreadExact(cx, Apply(cx, rows, e), p)
  {
    hide Faithful, Sound, Apply, IdsUpTo;
    var rows' := Apply(cx, rows, e);
    StepKeeps(cx, rows, e);
    forall i, c | Listed(cx.rem, Some(p), i, c)
      ensures Mirrors(rows', cx.post, Some(p), c)
    {
      StepMirrors(cx, rows, e, Some(p), i, c);
    }
    forall id | id in StoredReplies(rows', p)
      ensures id in ThreadIds(cx.rem, p)
    {
      if id !in rows {
        OffRemote(cx, rows', id);
      }
    }
    var thread := ThreadPages(cx.rem, p);
    forall id | id in ThreadIds(cx.rem, p)
      ensures id in StoredReplies(rows', p)
    {
      var i := IdsUpToPage(thread, |thread|, id);
      var c: Comment :| c in thread[i] && c.id == id;
      assert Listed(cx.rem, Some(p), i, c);
    }
  }

  lemma {:induction false} ReplayKeepsExact(cx: Ctx, rows: Table, es: seq<Event>, p: Id)
    requires Faithful(cx.rem) && Sound(cx, rows) && Allowed(cx, rows, es)
    requires p in TopIds(cx.rem) && ThreadExact(cx, rows, p)
    ensures ThreadExact(cx, Replay(cx, rows, es), p)
    decreases |es|
  {
    hide Faithful, Sound, Apply, Keeps, ThreadExact;
    if es != [] {
      StepKeepsExact(cx, rows, es[0], p);
      StepKeeps(cx, rows, es[0]);
      ReplayKeepsExact(cx, Apply(cx, rows, es[0]), es[1..], p);
    }
  }

  // In a run that reads every page of p's thread before it sweeps p, the
  // thread is exact from the sweep on.
  lemma SweptRunIsExact(cx: Ctx, rows: Table, before: seq<Event>, p: Id, later: seq<Event>)
    requires Faithful(cx.rem) && Sound(cx, rows) && Allowed(cx, rows, before + ([Swept(p)] + later))
    requires forall i :: 0 <= i < |ThreadPages(cx.rem, p)| ==> ReplyPage(p, i) in before
    ensures ThreadExact(cx, Replay(cx, rows, before + ([Swept(p)] + later)), p)
  {
    hide Faithful, Sound, Keeps, Apply, Mirrors, Replay, Allowed;
    var middle := Replay(cx, rows, before);
    ReplayConcat(cx, rows, before, [Swept(p)] + later);
    ReplayFirst(cx, middle, Swept(p), later);
    ReplayKeeps(cx, rows, before);
    forall i, c | Listed(cx.rem, Some(p), i, c)
      ensures Mirrors(middle, cx.post, Some(p), c)
    {
      ReplayMirrors(cx, rows, before, Some(p), i, c);
    }
    SweepIsExact(cx, middle, p);
    StepKeeps(cx, middle, Swept(p));
    ReplayKeepsExact(cx, Apply(cx, middle, Swept(p)), later, p);
  }

  // Every thread walked to its end in this call equals the remote's thread
  // when the call is over, however the call ended.
  lemma WalkedThreadIsExact(cx: Ctx, diff: bool, post: Post, s: St, p: Id)
    requires Faithful(cx.rem) && Sound(cx, s.rows)
    requires |s.log| <= |Sync(cx, diff, post, s).st.log|
    requires Swept(p) in Sync(cx, diff, post, s).st.log[|s.log|..]
    ensures ThreadExact(cx, Sync(cx, diff, post, s).st.rows, p)
  {
    hide Sync, Faithful, Sound, ThreadExact, Replay, Allowed;
    var o := Sync(cx, diff, post, s);
    var es := SyncRun(cx, diff, post, s);
    var es' := SyncLogged(cx, diff, post, s);
    assert es' == o.st.log[|s.log|..] == es;
    var k :| 0 <= k < |es| && es[k] == Swept(p);
    assert es == es[..k] + ([Swept(p)] + es[k + 1..]);
    SweptRunIsExact(cx, s.rows, es[..k], p, es[k + 1..]);
  }

  // ---------- the cap ----------

  ghost predicate PagesWithin(pages: seq<seq<Comment>>, size: nat) {
    forall i :: 0 <= i < |pages| ==> |pages[i]| <= size
  }

  ghost predicate PageSize(rem: Remote, size: nat) {
    PagesWithin(rem.pages, size) && forall p :: p in rem.threads ==> PagesWithin(rem.threads[p], size)
  }

  lemma {:induction false} UpsertCount(rows: Table, post: PostId, parent: Option<Id>, cs: seq<Comment>)
    ensures CountStored(Upsert(rows, post, parent, cs), post) <= CountStored(rows, post) + |cs|
    decreases |cs|
  {
    if cs != [] {
      if cs[0].id == "" {
        UpsertCount(rows, post, parent, cs[1..]);
      } else {
        var mid := rows[cs[0].id := Merged(rows, post, parent, cs[0])];
        FewerIds(StoredIds(mid, post), StoredIds(rows, post) + {cs[0].id});
        UpsertCount(mid, post, parent, cs[1..]);
      }
    }
  }

  lemma {:induction false} FewerIds(a: set<Id>, b: set<Id>)
    requires a <= b
    ensures |a| <= |b|
    decreases a
  {
    if a != {} {
      var x :| x in a;
      FewerIds(a - {x}, b - {x});
    }
  }

  lemma StepWithinCap(cx: Ctx, rows: Table, e: Event, size: nat)
    requires PageSize(cx.rem, size) && cx.cap > 0 && Enabled(cx, rows, e)
    ensures CountStored(Apply(cx, rows, e), cx.post) <= Max(CountStored(rows, cx.post), cx.cap - 1 + size)
  {
    match e
    case TopPage(i) => UpsertCount(rows, cx.post, None, PageAt(cx.rem.pages, i));
    case ReplyPage(p, i) => UpsertCount(rows, cx.post, Some(p), PageAt(ThreadPages(cx.rem, p), i));
    case Swept(p) => FewerIds(StoredIds(Apply(cx, rows, e), cx.post), StoredIds(rows, cx.post));
    case Closed(_) => FewerIds(StoredIds(Apply(cx, rows, e), cx.post), StoredIds(rows, cx.post));
    case Failed =>
  }

  lemma {:induction false} ReplayWithinCap(cx: Ctx, rows: Table, es: seq<Event>, size: nat)
    requires PageSize(cx.rem, size) && cx.cap > 0 && Allowed(cx, rows, es)
    ensures CountStored(Replay(cx, rows, es), cx.post) <= Max(CountStored(rows, cx.post), cx.cap - 1 + size)
    decreases |es|
  {
    hide CountStored, Apply, PageSize, Enabled;
    if es != [] {
      StepWithinCap(cx, rows, es[0], size);
      ReplayWithinCap(cx, Apply(cx, rows, es[0]), es[1..], size);
    }
  }

  // ---------- any number of syncs ----------

  // Consecutive syncs of one post; each may meet failing requests of its own.
  function SyncMany(cxs: seq<Ctx>, post: Post, s: St): (Post, St)
    decreases |cxs|
  {
    if cxs == [] then (post, s)
    else var o := Sync(cxs[0], true, post, s); SyncMany(cxs[1..], o.post, o.st)
  }

  ghost predicate SamePost(cxs: seq<Ctx>, cx: Ctx) {
    forall c :: c in cxs ==> c.rem == cx.rem && c.post == cx.post && c.cap == cx.cap
  }

  // With a cap M and pages of at most K comments the post never holds more
  // than max(what it held, M - 1 + K) rows: at every commit of every sync.
  lemma CapHoldsAtEveryCommit(cx: Ctx, post: Post, s: St, size: nat)
    requires Faithful(cx.rem) && Sound(cx, s.rows) && PageSize(cx.rem, size) && cx.cap > 0
    ensures var o := Sync(cx, true, post, s);
            && |s.log| <= |o.st.log|
            && TableAfter(cx, s, o.st.log, |o.st.log|) == o.st.rows
            && forall k :: |s.log| <= k <= |o.st.log| ==>
                 CountStored(TableAfter(cx, s, o.st.log, k), cx.post)
                 <= Max(CountStored(s.rows, cx.post), cx.cap - 1 + size)
  {
    hide Sync, Faithful, Sound, CountStored, PageSize;
    SyncIsSafe(cx, true, post, s);
    var o := Sync(cx, true, post, s);
    var es := SyncRun(cx, true, post, s);
    assert o.st.log[|s.log|..] == es;
    forall k | |s.log| <= k <= |o.st.log|
      ensures CountStored(TableAfter(cx, s, o.st.log, k), cx.post)
           <= Max(CountStored(s.rows, cx.post), cx.cap - 1 + size)
    {
      var n := k - |s.log|;
      assert o.st.log[|s.log|..k] == es[..n] && es[..n] + es[n..] == es;
      ReplayConcat(cx, s.rows, es[..n], es[n..]);
      ReplayWithinCap(cx, s.rows, es[..n], size);
    }
  }

  // Failures aside, runs of the same post and remote are the same runs.
  lemma {:induction false} SameRun(c: Ctx, cx: Ctx, rows: Table, es: seq<Event>)
    requires c.rem == cx.rem && c.post == cx.post && c.cap == cx.cap
    ensures Replay(c, rows, es) == Replay(cx, rows, es) && (Allowed(c, rows, es) <==> Allowed(cx, rows, es))
    decreases |es|
  {
    hide Upsert, DeleteMissing, CountStored;
    if es != [] {
      SameRun(c, cx, Apply(c, rows, es[0]), es[1..]);
    }
  }

  // Any series of syncs is one run, sync after sync.
  lemma {:induction false} SyncManyRun(cxs: seq<Ctx>, cx: Ctx, post: Post, s: St) returns (es: seq<Event>)
    requires Faithful(cx.rem) && Sound(cx, s.rows) && SamePost(cxs, cx)
    ensures var r := SyncMany(cxs, post, s);
            && r.1.log == s.log + es
            && r.1.rows == Replay(cx, s.rows, es)
            && Allowed(cx, s.rows, es)
    decreases |cxs|
  {
    hide Sync, Faithful, Sound, Keeps, Replay, Allowed;
    if cxs == [] {
      es := [];
      ReplayNone(cx, s.rows);
    } else {
      var c := cxs[0];
      var o := Sync(c, true, post, s);
      SoundDependsOn(c, cx, s.rows, s.rows);
      es := SyncRun(c, true, post, s);
      SameRun(c, cx, s.rows, es);
      ReplayKeeps(cx, s.rows, es);
      var rest := SyncManyRun(cxs[1..], cx, o.post, o.st);
      ReplayConcat(cx, s.rows, es, rest);
      es := es + rest;
    }
  }

  // Any number of syncs, failing or cut short where they may: at every commit
  // of every one of them the table is safe and the post within its cap.
  lemma ManySyncsStaySafe(cxs: seq<Ctx>, cx: Ctx, post: Post, s: St, size: nat)
    requires Faithful(cx.rem) && Sound(cx, s.rows) && PageSize(cx.rem, size) && SamePost(cxs, cx)
    ensures var r := SyncMany(cxs, post, s).1;
            && |s.log| <= |r.log|
            && TableAfter(cx, s, r.log, |r.log|) == r.rows
            && forall k :: |s.log| <= k <= |r.log| ==>
                 && Sound(cx, TableAfter(cx, s, r.log, k))
                 && Keeps(cx, s.rows, TableAfter(cx, s, r.log, k))
                 && (cx.cap > 0 ==> CountStored(TableAfter(cx, s, r.log, k), cx.post)
                                    <= Max(CountStored(s.rows, cx.post), cx.cap - 1 + size))
  {
    hide SyncMany, Faithful, Sound, Keeps, PageSize, CountStored, Replay, Allowed;
    var es := SyncManyRun(cxs, cx, post, s);
    var r := SyncMany(cxs, post, s).1;
    forall k | |s.log| <= k <= |r.log|
      ensures Sound(cx, TableAfter(cx, s, r.log, k)) && Keeps(cx, s.rows, TableAfter(cx, s, r.log, k))
      ensures cx.cap > 0 ==> CountStored(TableAfter(cx, s, r.log, k), cx.post)
                             <= Max(CountStored(s.rows, cx.post), cx.cap - 1 + size)
    {
      var n := k - |s.log|;
      assert r.log[|s.log|..k] == es[..n] && es[..n] + es[n..] == es;
      ReplayConcat(cx, s.rows, es[..n], es[n..]);
      ReplayKeeps(cx, s.rows, es[..n]);
      if cx.cap > 0 {
        ReplayWithinCap(cx, s.rows, es[..n], size);
      }
    }
    assert r.log[|s.log|..|r.log|] == es;
  }

  lemma SoundDependsOn(c: Ctx, cx: Ctx, a: Table, b: Table)
    requires c.rem == cx.rem && c.post == cx.post
    ensures Sound(c, b) <==> Sound(cx, b)
    ensures Keeps(c, a, b) <==> Keeps(cx, a, b)
  {
  }
}
