// What becomes of a comment's replies: the sync that first stores the comment
// decides, by the reply pages it reads, whether the thread is ever complete
// while the reply count stays as it is.
module CommentThreads {
  import opened Common
  import opened CommentModel
  import opened CommentSafety
  import opened CommentRuns
  import opened CommentTheorems
  import opened CommentProgress
  import opened CommentRefinement

  // ---------- an unmoved count freezes a thread ----------

  // Events that touch the stored replies of p.
  predicate Touches(e: Event, p: Id) {
    e == Swept(p) || (e.ReplyPage? && e.parent == p)
  }

  ghost predicate Untouched(es: seq<Event>, p: Id) {
    forall e :: e in es ==> !Touches(e, p)
  }

  lemma {:induction false} PassLeavesAlone(cx: Ctx, cs: seq<Comment>, prev: map<Id, nat>, s: St, total: nat, p: Id)
    returns (es: seq<Event>)
    requires Faithful(cx.rem)
    requires forall c :: c in cs && c.id == p ==> !NeedsWalk(c, prev, true)
    ensures SyncThreads(cx, true, cs, prev, s, total).st.log == s.log + es
    ensures Untouched(es, p)
    decreases |cs|
  {
    hide SyncThreads, SyncReplies, Faithful, FaithfulPages, SweptAfterReading;
    ThreadsUnfold(cx, true, cs, prev, s, total);
    if cs == [] {
      es := [];
    } else if !NeedsWalk(cs[0], prev, true) {
      es := PassLeavesAlone(cx, cs[1..], prev, s, total, p);
    } else {
      var w := SyncReplies(cx, cs[0].id, s);
      ListsAreFaithful(cx.rem, cs[0].id);
      es := SyncRepliesLogged(cx, cs[0].id, s);
      assert forall e :: e in es ==> !Touches(e, p);
      if w.end != Raised {
        var rest := PassLeavesAlone(cx, cs[1..], prev, w.st, total + w.total, p);
        es := es + rest;
      }
    }
  }

  // While the stored reply count of a listed comment equals the remote's, the
  // top-level walk never touches its thread.
  lemma {:induction false} TopLeavesAlone(cx: Ctx, after: Option<nat>, fuel: nat, s: St, seen: set<Id>, total: nat,
                                          at: nat, c: Comment)
    returns (es: seq<Event>)
    requires Faithful(cx.rem) && Sound(cx, s.rows) && Listed(cx.rem, None, at, c)
    requires c.id in s.rows && s.rows[c.id].childCount == c.childCount
    ensures TopPages(cx, true, after, fuel, s, seen, total).st.log == s.log + es
    ensures Untouched(es, c.id)
    decreases fuel
  {
    hide TopPages, SyncThreads, Faithful, Sound, Upsert, Keeps, Listed, Replay, Allowed, Untouched;
    TopUnfold(cx, true, after, fuel, s, seen, total);
    var i, page := PageIndex(after), PageAt(cx.rem.pages, PageIndex(after));
    NoneTouch(c.id, i);
    if fuel == 0 || Full(cx, s.rows) {
      es := [];
    } else if cx.net(|s.log|) {
      es := [Failed];
    } else if page == [] {
      es := [TopPage(i)];
    } else {
      var prev, rows := PreviousChildCounts(s.rows, page), Upsert(s.rows, cx.post, None, page);
      var s1, n := s.Put(rows, TopPage(i)), total + |page|;
      var pass := SyncThreads(cx, true, page, prev, s1, n);
      forall d | d in page && d.id == c.id
        ensures !NeedsWalk(d, prev, true)
      {
        OnPage(cx.rem, i);
        ListedOnce(cx.rem, None, at, c, None, i, d);
      }
      var walks := PassLeavesAlone(cx, page, prev, s1, n, c.id);
      UntouchedConcat([TopPage(i)], walks, c.id);
      es := [TopPage(i)] + walks;
      if !pass.raised && HasMore(cx.rem.pages, i) {
        StepKeeps(cx, s.rows, TopPage(i));
        PageIsStored(cx, s.rows, i);
        var run := SyncThreadsRun(cx, true, page, prev, s1, n);
        ReplayKeeps(cx, rows, run);
        CountStays(cx, s.rows, TopPage(i), run, at, c);
        var rest := TopLeavesAlone(cx, Some(i + 1), fuel - 1, pass.st, seen + Ids(page), pass.total, at, c);
        UntouchedConcat(es, rest, c.id);
        es := es + rest;
      }
    }
  }

  lemma NoneTouch(p: Id, i: nat)
    ensures Untouched([], p) && Untouched([Failed], p) && Untouched([TopPage(i)], p)
    ensures Untouched([Closed(true)], p) && Untouched([Closed(false)], p)
  {
  }

  lemma UntouchedConcat(a: seq<Event>, b: seq<Event>, p: Id)
    requires Untouched(a, p) && Untouched(b, p)
    ensures Untouched(a + b, p)
  {
  }

  // An equal count stays equal: later writes repeat the remote's.
  lemma CountStays(cx: Ctx, rows: Table, e: Event, es: seq<Event>, at: nat, c: Comment)
    requires Faithful(cx.rem) && Sound(cx, rows) && e.TopPage? && Enabled(cx, rows, e)
    requires Allowed(cx, Apply(cx, rows, e), es) && Listed(cx.rem, None, at, c)
    requires c.id in rows && rows[c.id].childCount == c.childCount
    ensures var r := Replay(cx, Apply(cx, rows, e), es);
            c.id in r && r[c.id].childCount == c.childCount
  {
    hide Faithful, Keeps, Upsert, Sound, Replay, Allowed;
    ReplayFirst(cx, rows, e, es);
    ReplayCounts(cx, rows, [e] + es, at, c);
  }

  lemma {:induction false} ReplayCounts(cx: Ctx, rows: Table, es: seq<Event>, at: nat, c: Comment)
    requires Faithful(cx.rem) && Sound(cx, rows) && Allowed(cx, rows, es) && Listed(cx.rem, None, at, c)
    requires c.id in rows && rows[c.id].childCount == c.childCount
    ensures var r := Replay(cx, rows, es); c.id in r && r[c.id].childCount == c.childCount
    decreases |es|
  {
    hide Faithful, Sound, Keeps, Listed, Apply, Enabled;
    if es != [] {
      StepKeeps(cx, rows, es[0]);
      StepCounts(cx, rows, es[0], at, c);
      ReplayCounts(cx, Apply(cx, rows, es[0]), es[1..], at, c);
    }
  }

  lemma StepCounts(cx: Ctx, rows: Table, e: Event, at: nat, c: Comment)
    requires Faithful(cx.rem) && Sound(cx, rows) && Enabled(cx, rows, e) && Listed(cx.rem, None, at, c)
    requires c.id in rows && rows[c.id].childCount == c.childCount
    ensures var r := Apply(cx, rows, e); c.id in r && r[c.id].childCount == c.childCount
  {
    hide Faithful, Upsert;
    ListedPlace(cx.rem, None, at, c);
    StepKeeps(cx, rows, e);
    if e.TopPage? || e.ReplyPage? {
      var under := if e.TopPage? then None else Some(e.parent);
      var cs := PageAt(PagesUnder(cx.rem, under), e.index);
      if c.id in Ids(cs) {
        var x :| x in cs && x.id == c.id;
        assert Listed(cx.rem, under, e.index, x);
        ListedOnce(cx.rem, None, at, c, under, e.index, x);
        PageMirrors(cx, rows, None, at, c);
      } else {
        UpsertElsewhere(rows, cx.post, under, cs, c.id);
      }
    }
  }

  // The stored replies of p, with their content.
  function ThreadRows(rows: Table, p: Id): map<Id, Row> {
    map id | id in rows && rows[id].parent == Some(p) :: rows[id]
  }

  lemma StepFreezes(cx: Ctx, rows: Table, e: Event, p: Id)
    requires Faithful(cx.rem) && Sound(cx, rows) && Enabled(cx, rows, e) && !Touches(e, p) && p in TopIds(cx.rem)
    ensures ThreadRows(Apply(cx, rows, e), p) == ThreadRows(rows, p)
  {
    hide Faithful, Upsert, Listed;
    var rows' := Apply(cx, rows, e);
    match e
    case TopPage(i) => SameReplies(cx, rows, i);
    case ReplyPage(q, i) =>
      StepOutside(cx, rows, e, q);
    case Swept(q) =>
    case Closed(_) =>
    case Failed =>
  }

  lemma {:induction false} ReplayFreezes(cx: Ctx, rows: Table, es: seq<Event>, p: Id)
    requires Faithful(cx.rem) && Sound(cx, rows) && Allowed(cx, rows, es) && Untouched(es, p) && p in TopIds(cx.rem)
    ensures ThreadRows(Replay(cx, rows, es), p) == ThreadRows(rows, p)
    decreases |es|
  {
    hide Faithful, Sound, Keeps, Apply, Enabled, ThreadRows, Touches;
    if es != [] {
      StepKeeps(cx, rows, es[0]);
      StepFreezes(cx, rows, es[0], p);
      ReplayFreezes(cx, Apply(cx, rows, es[0]), es[1..], p);
    }
  }

  // A thread whose stored count equals the remote's is left exactly as it is
  // by every sync, complete or not: a reply walk that was cut short after the
  // count had been stored is not made up for until the count moves.
  lemma UnmovedCountFreezesThread(cx: Ctx, post: Post, s: St, at: nat, c: Comment)
    requires Faithful(cx.rem) && Sound(cx, s.rows) && Listed(cx.rem, None, at, c)
    requires c.id in s.rows && s.rows[c.id].childCount == c.childCount
    ensures ThreadRows(Sync(cx, true, post, s).st.rows, c.id) == ThreadRows(s.rows, c.id)
  {
    hide TopPages, Faithful, Sound, Listed, Replay, Allowed, Untouched, DeleteMissing, ThreadRows;
    var o := Sync(cx, true, post, s);
    var run := SyncRun(cx, true, post, s);
    var w := TopPages(cx, true, post.cursor, MAX_COMMENT_PAGES, s, {}, 0);
    var es := TopLeavesAlone(cx, post.cursor, MAX_COMMENT_PAGES, s, {}, 0, at, c);
    NoneTouch(c.id, 0);
    if w.end != Raised {
      var e := if cx.net(|w.st.log|) then Failed else Closed(post.cursor.None? && w.end == Complete);
      UntouchedConcat(es, [e], c.id);
      es := es + [e];
    }
    assert es == o.st.log[|s.log|..] == run;
    ListedPlace(cx.rem, None, at, c);
    ReplayFreezes(cx, s.rows, run, c.id);
  }

  // The same remote and post; failures and caps as they may be.
  ghost predicate SameRemote(cxs: seq<Ctx>, cx: Ctx) {
    forall c :: c in cxs ==> c.rem == cx.rem && c.post == cx.post
  }

  // However many syncs follow, of whatever kind.
  lemma {:induction false} ManySyncsFreezeThread(cxs: seq<Ctx>, cx: Ctx, post: Post, s: St, at: nat, c: Comment)
    requires SameRemote(cxs, cx) && Faithful(cx.rem) && Sound(cx, s.rows) && Listed(cx.rem, None, at, c)
    requires c.id in s.rows && s.rows[c.id].childCount == c.childCount
    ensures ThreadRows(SyncMany(cxs, post, s).1.rows, c.id) == ThreadRows(s.rows, c.id)
    decreases |cxs|
  {
    hide Sync, Faithful, Sound, Keeps, Listed, Replay, Allowed, ThreadRows;
    if cxs != [] {
      var d := cxs[0];
      var o := Sync(d, true, post, s);
      SoundDependsOn(d, cx, s.rows, s.rows);
      UnmovedCountFreezesThread(d, post, s, at, c);
      var es := SyncRun(d, true, post, s);
      ReplayCounts(d, s.rows, es, at, c);
      ReplayKeeps(d, s.rows, es);
      SoundDependsOn(d, cx, s.rows, o.st.rows);
      ManySyncsFreezeThread(cxs[1..], cx, o.post, o.st, at, c);
    }
  }

  // ---------- the replies a run stores ----------

  function PageRead(rem: Remote, e: Event, p: Id): set<Id> {
    if e.ReplyPage? && e.parent == p then Ids(PageAt(ThreadPages(rem, p), e.index)) else {}
  }

  // The ids on the reply pages of p that were read.
  function RepliesRead(rem: Remote, es: seq<Event>, p: Id): set<Id>
    decreases |es|
  {
    if es == [] then {} else PageRead(rem, es[0], p) + RepliesRead(rem, es[1..], p)
  }

  lemma {:induction false} RepliesReadHas(rem: Remote, es: seq<Event>, p: Id, id: Id)
    ensures id in RepliesRead(rem, es, p) <==>
            exists i: nat :: ReplyPage(p, i) in es && id in Ids(PageAt(ThreadPages(rem, p), i))
    decreases |es|
  {
    hide Ids, PageAt;
    if es != [] {
      RepliesReadHas(rem, es[1..], p, id);
      assert forall e :: e in es <==> e == es[0] || e in es[1..];
      if id in PageRead(rem, es[0], p) {
        assert ReplyPage(p, es[0].index) in es;
      }
    }
  }

  lemma StepReplies(cx: Ctx, rows: Table, e: Event, p: Id)
    requires Faithful(cx.rem) && Sound(cx, rows) && Enabled(cx, rows, e) && p in TopIds(cx.rem)
    requires StoredReplies(rows, p) <= ThreadIds(cx.rem, p)
    ensures StoredReplies(Apply(cx, rows, e), p) == StoredReplies(rows, p) + PageRead(cx.rem, e, p)
    ensures StoredReplies(Apply(cx, rows, e), p) <= ThreadIds(cx.rem, p)
  {
    hide Faithful, Sound, Upsert, IdsUpTo, Ids, TopIds;
    var rows' := Apply(cx, rows, e);
    if !Touches(e, p) {
      StepFreezes(cx, rows, e, p);
      FrozenReplies(rows, rows', p);
    } else if e.ReplyPage? {
      ReplyPageWrites(cx, rows, p, e.index);
    } else {
      NothingToSweep(cx, rows, p);
    }
  }

  lemma FrozenReplies(a: Table, b: Table, p: Id)
    requires ThreadRows(a, p) == ThreadRows(b, p)
    ensures StoredReplies(a, p) == StoredReplies(b, p)
    ensures forall post, c :: Mirrors(a, post, Some(p), c) <==> Mirrors(b, post, Some(p), c)
  {
    assert ThreadRows(a, p).Keys == StoredReplies(a, p) && ThreadRows(b, p).Keys == StoredReplies(b, p);
    forall id | id in StoredReplies(a, p)
      ensures id in b && a[id] == b[id]
    {
      assert ThreadRows(a, p)[id] == ThreadRows(b, p)[id];
    }
  }

  lemma ReplyPageWrites(cx: Ctx, rows: Table, p: Id, i: nat)
    requires Faithful(cx.rem) && Sound(cx, rows) && p in TopIds(cx.rem)
    ensures var rows', ids := Apply(cx, rows, ReplyPage(p, i)), Ids(PageAt(ThreadPages(cx.rem, p), i));
            StoredReplies(rows', p) == StoredReplies(rows, p) + ids && ids <= ThreadIds(cx.rem, p)
  {
    hide Upsert, Sound, IdsUpTo;
    var cs := PageAt(ThreadPages(cx.rem, p), i);
    ListsAreFaithful(cx.rem, p);
    PageAtIds(ThreadPages(cx.rem, p), i);
    assert Agrees(rows, cx.rem, cx.post) by {
      SoundAgrees(cx, rows);
    }
    assert p in cx.rem.threads;
    UpsertWrote(cx, rows, Some(p), cs);
    WroteReplies(rows, cx.post, p, Ids(cs), Apply(cx, rows, ReplyPage(p, i)));
  }

  lemma SoundAgrees(cx: Ctx, rows: Table)
    requires Sound(cx, rows)
    ensures Agrees(rows, cx.rem, cx.post)
  {
  }

  lemma WroteReplies(rows: Table, post: PostId, p: Id, ids: set<Id>, rows': Table)
    requires Wrote(rows, post, Some(p), ids, rows')
    ensures StoredReplies(rows', p) == StoredReplies(rows, p) + ids
  {
    forall id
      ensures id in StoredReplies(rows', p) <==> id in StoredReplies(rows, p) || id in ids
    {
      if id in rows && id !in ids {
        assert rows'[id] == rows[id];
      }
    }
  }

  lemma NothingToSweep(cx: Ctx, rows: Table, p: Id)
    requires StoredReplies(rows, p) <= ThreadIds(cx.rem, p)
    ensures Apply(cx, rows, Swept(p)) == rows
  {
    hide ThreadIds;
    assert Missing(rows, cx.post, Some(p), ThreadIds(cx.rem, p)) == {};
  }

  lemma {:induction false} ReplayReplies(cx: Ctx, rows: Table, es: seq<Event>, p: Id)
    requires Faithful(cx.rem) && Sound(cx, rows) && Allowed(cx, rows, es) && p in TopIds(cx.rem)
    requires StoredReplies(rows, p) <= ThreadIds(cx.rem, p)
    ensures StoredReplies(Replay(cx, rows, es), p) == StoredReplies(rows, p) + RepliesRead(cx.rem, es, p)
    decreases |es|
  {
    hide Faithful, Sound, Keeps, Apply, Enabled, StoredReplies, PageRead, ThreadIds, TopIds;
    if es != [] {
      StepKeeps(cx, rows, es[0]);
      StepReplies(cx, rows, es[0], p);
      ReplayReplies(cx, Apply(cx, rows, es[0]), es[1..], p);
    }
  }

  // ---------- the sync that first stores a comment decides ----------

  lemma NoRepliesYet(cx: Ctx, rows: Table, p: Id)
    requires Sound(cx, rows) && p !in rows
    ensures StoredReplies(rows, p) == {}
  {
  }

  // Every reply read is mirrored.
  lemma ReadIsMirrored(cx: Ctx, rows: Table, es: seq<Event>, p: Id, i: nat, x: Comment)
    requires Faithful(cx.rem) && Sound(cx, rows) && Allowed(cx, rows, es)
    requires Listed(cx.rem, Some(p), i, x) && x.id in RepliesRead(cx.rem, es, p)
    ensures Mirrors(Replay(cx, rows, es), cx.post, Some(p), x)
  {
    hide Faithful, Sound, Replay, Allowed, Mirrors, RepliesRead;
    RepliesReadHas(cx.rem, es, p, x.id);
    var j: nat :| ReplyPage(p, j) in es && x.id in Ids(PageAt(ThreadPages(cx.rem, p), j));
    var y: Comment :| y in PageAt(ThreadPages(cx.rem, p), j) && y.id == x.id;
    assert Listed(cx.rem, Some(p), j, y);
    ListedOnce(cx.rem, Some(p), i, x, Some(p), j, y);
    ReplayMirrors(cx, rows, es, Some(p), i, x);
  }

  lemma ExactIffAllRead(cx: Ctx, rows: Table, es: seq<Event>, p: Id)
    requires Faithful(cx.rem) && Sound(cx, rows) && Allowed(cx, rows, es) && p in TopIds(cx.rem) && p !in rows
    ensures StoredReplies(Replay(cx, rows, es), p) == RepliesRead(cx.rem, es, p)
    ensures ThreadExact(cx, Replay(cx, rows, es), p) <==> RepliesRead(cx.rem, es, p) == ThreadIds(cx.rem, p)
  {
    hide Faithful, Sound, Replay, Allowed, Mirrors, RepliesRead, StoredReplies, ThreadIds, TopIds;
    NoRepliesYet(cx, rows, p);
    ReplayReplies(cx, rows, es, p);
    if RepliesRead(cx.rem, es, p) == ThreadIds(cx.rem, p) {
      forall i, x | Listed(cx.rem, Some(p), i, x)
        ensures Mirrors(Replay(cx, rows, es), cx.post, Some(p), x)
      {
        ListedPlace(cx.rem, Some(p), i, x);
        ReadIsMirrored(cx, rows, es, p, i, x);
      }
    }
  }

  lemma FrozenExact(cx: Ctx, a: Table, b: Table, p: Id)
    requires ThreadRows(a, p) == ThreadRows(b, p)
    ensures ThreadExact(cx, a, p) <==> ThreadExact(cx, b, p)
  {
    hide Listed, Mirrors, ThreadRows, StoredReplies;
    FrozenReplies(a, b, p);
  }

  // Take the sync, of whatever kind, that reads a comment's page for the first
  // time. However many syncs of whatever kind follow: of the comment's replies
  // exactly those on the reply pages that sync read are stored, and the thread
  // is complete if and only if they are all.
  lemma FirstSyncDecidesThread(cx: Ctx, cxs: seq<Ctx>, post: Post, s: St, at: nat, c: Comment)
    requires Faithful(cx.rem) && Sound(cx, s.rows) && Listed(cx.rem, None, at, c) && c.id !in s.rows
    requires var log := Sync(cx, true, post, s).st.log; |s.log| <= |log| && TopPage(at) in log[|s.log|..]
    requires SameRemote(cxs, cx)
    ensures var o := Sync(cx, true, post, s);
            var read, rows := RepliesRead(cx.rem, o.st.log[|s.log|..], c.id), SyncMany(cxs, o.post, o.st).1.rows;
            && StoredReplies(rows, c.id) == read
            && (ThreadExact(cx, rows, c.id) <==> read == ThreadIds(cx.rem, c.id))
  {
    hide Sync, SyncMany, Faithful, Sound, Keeps, Replay, Allowed, RepliesRead, StoredReplies, ThreadExact, ThreadRows,
         ThreadIds, Listed, TopIds;
    var o := Sync(cx, true, post, s);
    var es := SyncRun(cx, true, post, s);
    assert o.st.log[|s.log|..] == es;
    TopIsVisible(cx.rem, at, c);
    ExactIffAllRead(cx, s.rows, es, c.id);
    ReplayMirrors(cx, s.rows, es, None, at, c);
    ReplayKeeps(cx, s.rows, es);
    ManySyncsFreezeThread(cxs, cx, o.post, o.st, at, c);
    var rows := SyncMany(cxs, o.post, o.st).1.rows;
    FrozenReplies(o.st.rows, rows, c.id);
    FrozenExact(cx, o.st.rows, rows, c.id);
  }

  lemma TopIsVisible(rem: Remote, at: nat, c: Comment)
    requires Faithful(rem) && Listed(rem, None, at, c)
    ensures c.id in TopIds(rem)
  {
    hide Faithful, IdsUpTo;
    ListedPlace(rem, None, at, c);
  }

  // ---------- undisturbed syncs ----------

  // Reply pages are read only of comments that claim replies, and only the
  // first MAX_REPLY_PAGES of them.
  ghost predicate Claimed(rem: Remote, e: Event) {
    e.ReplyPage? ==>
      e.index < MAX_REPLY_PAGES && exists i: nat, d :: Listed(rem, None, i, d) && d.id == e.parent && d.childCount > 0
  }

  ghost predicate AllClaimed(rem: Remote, es: seq<Event>) {
    forall e :: e in es ==> Claimed(rem, e)
  }

  lemma ClaimedConcat(rem: Remote, a: seq<Event>, b: seq<Event>)
    requires AllClaimed(rem, a) && AllClaimed(rem, b)
    ensures AllClaimed(rem, a + b)
  {
    hide Claimed;
  }

  lemma NoneClaimed(rem: Remote, i: nat, p: Id)
    ensures AllClaimed(rem, []) && AllClaimed(rem, [Failed]) && AllClaimed(rem, [TopPage(i)]) && AllClaimed(rem, [Swept(p)])
    ensures AllClaimed(rem, [Closed(true)]) && AllClaimed(rem, [Closed(false)])
  {
  }

  // What a reply walk reads: of the thread p only, within its fuel; and, if
  // nothing disturbs it, every page within its fuel.
  ghost predicate ReplyReads(cx: Ctx, p: Id, i: nat, fuel: nat, es: seq<Event>) {
    && (forall e :: e in es ==> OfThread(e, p) && (e.ReplyPage? ==> i <= e.index < i + fuel))
    && (Calm(cx) ==> forall j :: i <= j < i + fuel && j < |ThreadPages(cx.rem, p)| ==> ReplyPage(p, j) in es)
  }

  lemma CalmGoesOn(cx: Ctx, s: St)
    ensures Calm(cx) ==> !Full(cx, s.rows) && !cx.net(|s.log|)
  {
  }

  lemma {:induction false} RepliesReadPages(cx: Ctx, p: Id, i: nat, fuel: nat, s: St, seen: set<Id>, total: nat)
    returns (es: seq<Event>)
    requires FaithfulPages(ThreadPages(cx.rem, p))
    ensures ReplyPages(cx, p, i, fuel, s, seen, total).st.log == s.log + es
    ensures ReplyReads(cx, p, i, fuel, es)
    decreases fuel
  {
    hide ReplyPages, Upsert, Ids, CountStored, FaithfulPages, Calm;
    ReplyUnfold(cx, p, i, fuel, s, seen, total);
    var thread := ThreadPages(cx.rem, p);
    CalmGoesOn(cx, s);
    if fuel == 0 || Full(cx, s.rows) {
      es := [];
    } else if cx.net(|s.log|) {
      es := [Failed];
    } else if !HasMore(thread, i) || thread[i] == [] {
      EmptyEndsTheList(thread, i);
      es := [ReplyPage(p, i)];
    } else {
      var s' := s.Put(Upsert(s.rows, cx.post, Some(p), thread[i]), ReplyPage(p, i));
      var rest := RepliesReadPages(cx, p, i + 1, fuel - 1, s', seen + Ids(thread[i]), total + |thread[i]|);
      es := [ReplyPage(p, i)] + rest;
    }
  }

  lemma ThreadReadPages(cx: Ctx, p: Id, s: St) returns (es: seq<Event>)
    requires FaithfulPages(ThreadPages(cx.rem, p))
    ensures SyncReplies(cx, p, s).st.log == s.log + es
    ensures ReplyReads(cx, p, 0, MAX_REPLY_PAGES, es)
    ensures Calm(cx) ==> SyncReplies(cx, p, s).end != Raised
  {
    hide ReplyPages, FaithfulPages, DeleteMissing;
    var w := ReplyPages(cx, p, 0, MAX_REPLY_PAGES, s, {}, 0);
    es := RepliesReadPages(cx, p, 0, MAX_REPLY_PAGES, s, {}, 0);
    if Calm(cx) {
      CalmReplies(cx, p, 0, MAX_REPLY_PAGES, s, {}, 0);
    }
    if w.end == Complete {
      es := es + [if cx.net(|w.st.log|) then Failed else Swept(p)];
    }
  }

  // One page of top-level comments: c, if it is on it and its count moved, is
  // walked.
  lemma {:induction false} PassReads(cx: Ctx, i: nat, cs: seq<Comment>, prev: map<Id, nat>, s: St, total: nat, c: Comment)
    returns (es: seq<Event>)
    requires Faithful(cx.rem) && forall d :: d in cs ==> Listed(cx.rem, None, i, d)
    ensures SyncThreads(cx, true, cs, prev, s, total).st.log == s.log + es
    ensures AllClaimed(cx.rem, es) && forall e :: e in es ==> !e.TopPage?
    ensures Calm(cx) ==> !SyncThreads(cx, true, cs, prev, s, total).raised
    ensures Calm(cx) && c in cs && NeedsWalk(c, prev, true) ==>
              forall j :: 0 <= j < MAX_REPLY_PAGES && j < |ThreadPages(cx.rem, c.id)| ==> ReplyPage(c.id, j) in es
    decreases |cs|
  {
    hide SyncThreads, SyncReplies, Faithful, FaithfulPages, Claimed, Calm, Listed;
    ThreadsUnfold(cx, true, cs, prev, s, total);
    if cs == [] {
      es := [];
    } else if !NeedsWalk(cs[0], prev, true) {
      es := PassReads(cx, i, cs[1..], prev, s, total, c);
    } else {
      var w := SyncReplies(cx, cs[0].id, s);
      ListsAreFaithful(cx.rem, cs[0].id);
      es := ThreadReadPages(cx, cs[0].id, s);
      WalkIsClaimed(cx, i, cs[0], es);
      if w.end != Raised {
        var rest := PassReads(cx, i, cs[1..], prev, w.st, total + w.total, c);
        ClaimedConcat(cx.rem, es, rest);
        es := es + rest;
      }
    }
  }

  lemma WalkIsClaimed(cx: Ctx, i: nat, d: Comment, es: seq<Event>)
    requires ReplyReads(cx, d.id, 0, MAX_REPLY_PAGES, es) && Listed(cx.rem, None, i, d) && d.childCount > 0
    ensures AllClaimed(cx.rem, es)
  {
    hide Calm;
    forall e | e in es
      ensures Claimed(cx.rem, e)
    {
      assert e.ReplyPage? ==> e.parent == d.id && Listed(cx.rem, None, i, d);
    }
  }

  // A top-level walk that gets to the page of c, not stored yet, walks c's
  // thread if c claims replies.
  ghost predicate ReachReads(cx: Ctx, at: nat, c: Comment, es: seq<Event>) {
    && TopPage(at) in es
    && (c.childCount > 0 ==>
          forall j :: 0 <= j < MAX_REPLY_PAGES && j < |ThreadPages(cx.rem, c.id)| ==> ReplyPage(c.id, j) in es)
  }

  lemma {:induction false} TopReadsThreads(cx: Ctx, after: Option<nat>, fuel: nat, s: St, seen: set<Id>, total: nat,
                                           at: nat, c: Comment)
    returns (es: seq<Event>)
    requires Faithful(cx.rem) && Sound(cx, s.rows) && Listed(cx.rem, None, at, c)
    ensures TopPages(cx, true, after, fuel, s, seen, total).st.log == s.log + es
    ensures AllClaimed(cx.rem, es)
    ensures Calm(cx) && c.id !in s.rows && PageIndex(after) <= at < PageIndex(after) + fuel ==> ReachReads(cx, at, c, es)
    decreases fuel
  {
    hide TopPages, SyncThreads, Faithful, Sound, Keeps, Upsert, Ids, Listed, Replay, Allowed, AllClaimed, CountStored,
         PreviousChildCounts;
    TopUnfold(cx, true, after, fuel, s, seen, total);
    var i, page := PageIndex(after), PageAt(cx.rem.pages, PageIndex(after));
    NoneClaimed(cx.rem, i, c.id);
    if fuel == 0 || Full(cx, s.rows) {
      es := [];
    } else if cx.net(|s.log|) {
      es := [Failed];
    } else if page == [] {
      es := [TopPage(i)];
      EmptyIsLast(cx.rem, i, at, c);
    } else {
      var prev, rows := PreviousChildCounts(s.rows, page), Upsert(s.rows, cx.post, None, page);
      var s1, n := s.Put(rows, TopPage(i)), total + |page|;
      var pass := SyncThreads(cx, true, page, prev, s1, n);
      OnPage(cx.rem, i);
      var walks := PassReads(cx, i, page, prev, s1, n, c);
      ClaimedConcat(cx.rem, [TopPage(i)], walks);
      es := [TopPage(i)] + walks;
      if at == i {
        NewNeedsWalk(cx.rem, s.rows, i, c);
      }
      if !pass.raised && HasMore(cx.rem.pages, i) {
        StepKeeps(cx, s.rows, TopPage(i));
        PageIsStored(cx, s.rows, i);
        var run := SyncThreadsRun(cx, true, page, prev, s1, n);
        ReplayKeeps(cx, rows, run);
        assert run == (s1.log + run)[|s1.log|..] == (s1.log + walks)[|s1.log|..] == walks;
        if c.id !in s.rows && at != i {
          ReplayFirst(cx, s.rows, TopPage(i), walks);
          StaysUnstored(cx, s.rows, [TopPage(i)] + walks, at, c);
        }
        var rest := TopReadsThreads(cx, Some(i + 1), fuel - 1, pass.st, seen + Ids(page), pass.total, at, c);
        ClaimedConcat(cx.rem, es, rest);
        es := es + rest;
      } else if !HasMore(cx.rem.pages, i) {
        LastPage(cx.rem, i, at, c);
      }
    }
  }

  lemma NewNeedsWalk(rem: Remote, rows: Table, i: nat, c: Comment)
    requires Listed(rem, None, i, c)
    ensures c in PageAt(rem.pages, i)
    ensures c.id !in rows && c.childCount > 0 ==> NeedsWalk(c, PreviousChildCounts(rows, PageAt(rem.pages, i)), true)
  {
  }

  lemma LastPage(rem: Remote, i: nat, at: nat, c: Comment)
    requires Listed(rem, None, at, c) && !HasMore(rem.pages, i)
    ensures at <= i
  {
  }

  lemma EmptyIsLast(rem: Remote, i: nat, at: nat, c: Comment)
    requires Faithful(rem) && Listed(rem, None, at, c) && PageAt(rem.pages, i) == []
    ensures at < i
  {
  }

  // A comment is first stored by its own page.
  lemma StepUnstored(cx: Ctx, rows: Table, e: Event, at: nat, c: Comment)
    requires Faithful(cx.rem) && Sound(cx, rows) && Enabled(cx, rows, e) && Listed(cx.rem, None, at, c)
    requires c.id !in rows && e != TopPage(at)
    ensures c.id !in Apply(cx, rows, e)
  {
    hide Faithful, Upsert, Ids;
    if e.TopPage? || e.ReplyPage? {
      var under := if e.TopPage? then None else Some(e.parent);
      var cs := PageAt(PagesUnder(cx.rem, under), e.index);
      ListsAreFaithful(cx.rem, if under.Some? then under.value else "");
      PageAtIds(PagesUnder(cx.rem, under), e.index);
      if c.id in Ids(cs) {
        var x := FindId(cs, c.id);
        assert Listed(cx.rem, under, e.index, x);
        ListedOnce(cx.rem, None, at, c, under, e.index, x);
      }
      UpsertKeys(rows, cx.post, under, cs);
    }
  }

  lemma FindId(cs: seq<Comment>, id: Id) returns (x: Comment)
    requires id in Ids(cs)
    ensures x in cs && x.id == id
  {
    x :| x in cs && x.id == id;
  }

  lemma {:induction false} StaysUnstored(cx: Ctx, rows: Table, es: seq<Event>, at: nat, c: Comment)
    requires Faithful(cx.rem) && Sound(cx, rows) && Allowed(cx, rows, es) && Listed(cx.rem, None, at, c)
    requires c.id !in rows && TopPage(at) !in es
    ensures c.id !in Replay(cx, rows, es)
    decreases |es|
  {
    hide Faithful, Sound, Keeps, Listed, Apply, Enabled;
    if es != [] {
      StepKeeps(cx, rows, es[0]);
      StepUnstored(cx, rows, es[0], at, c);
      StaysUnstored(cx, Apply(cx, rows, es[0]), es[1..], at, c);
    }
  }

  // The ids an undisturbed walk of c's thread sees.
  function Walkable(rem: Remote, c: Comment): set<Id> {
    var pages := ThreadPages(rem, c.id);
    if c.childCount > 0 then IdsUpTo(pages, Min(MAX_REPLY_PAGES, |pages|)) else {}
  }

  lemma ReadIsWalkable(cx: Ctx, at: nat, c: Comment, es: seq<Event>)
    requires Faithful(cx.rem) && Listed(cx.rem, None, at, c)
    requires AllClaimed(cx.rem, es) && ReachReads(cx, at, c, es)
    ensures RepliesRead(cx.rem, es, c.id) == Walkable(cx.rem, c)
  {
    hide Faithful, Ids, IdsUpTo, RepliesRead, Listed;
    var pages := ThreadPages(cx.rem, c.id);
    var m := Min(MAX_REPLY_PAGES, |pages|);
    forall id
      ensures id in RepliesRead(cx.rem, es, c.id) <==> id in Walkable(cx.rem, c)
    {
      RepliesReadHas(cx.rem, es, c.id, id);
      if id in RepliesRead(cx.rem, es, c.id) {
        var j: nat :| ReplyPage(c.id, j) in es && id in Ids(PageAt(pages, j));
        ClaimIsTrue(cx.rem, ReplyPage(c.id, j), at, c);
        OffTheEnd(pages, j, id);
        IdsUpToHas(pages, j, m);
      }
      if id in Walkable(cx.rem, c) {
        var j := IdsUpToPage(pages, m, id);
        assert ReplyPage(c.id, j) in es;
      }
    }
  }

  lemma ClaimIsTrue(rem: Remote, e: Event, at: nat, c: Comment)
    requires Faithful(rem) && Listed(rem, None, at, c) && Claimed(rem, e) && e.ReplyPage? && e.parent == c.id
    ensures e.index < MAX_REPLY_PAGES && c.childCount > 0
  {
    hide Faithful, Listed;
    var i: nat, d :| Listed(rem, None, i, d) && d.id == e.parent && d.childCount > 0;
    ListedOnce(rem, None, at, c, None, i, d);
  }

  lemma OffTheEnd(pages: seq<seq<Comment>>, j: nat, id: Id)
    requires id in Ids(PageAt(pages, j))
    ensures j < |pages|
  {
  }

  // An undisturbed sync that gets to a comment not stored yet, and however
  // many syncs of whatever kind after it: the thread is complete if and only
  // if the comment claims replies or has none, and its first MAX_REPLY_PAGES
  // pages hold them all.
  lemma UndisturbedThreadIff(cx: Ctx, cxs: seq<Ctx>, post: Post, s: St, at: nat, c: Comment)
    requires Calm(cx) && Faithful(cx.rem) && Sound(cx, s.rows) && Listed(cx.rem, None, at, c) && c.id !in s.rows
    requires PageIndex(post.cursor) <= at < PageIndex(post.cursor) + MAX_COMMENT_PAGES
    requires SameRemote(cxs, cx)
    ensures var o := Sync(cx, true, post, s);
            var rows := SyncMany(cxs, o.post, o.st).1.rows;
            && StoredReplies(rows, c.id) == Walkable(cx.rem, c)
            && (ThreadExact(cx, rows, c.id) <==> Walkable(cx.rem, c) == ThreadIds(cx.rem, c.id))
  {
    hide TopPages, SyncMany, Faithful, Sound, RepliesRead, StoredReplies, ThreadExact, ThreadIds, Walkable, Listed,
         AllClaimed, ReachReads, DeleteMissing, CountStored, Calm;
    var o := Sync(cx, true, post, s);
    var w := TopPages(cx, true, post.cursor, MAX_COMMENT_PAGES, s, {}, 0);
    var es := TopReadsThreads(cx, post.cursor, MAX_COMMENT_PAGES, s, {}, 0, at, c);
    NoneClaimed(cx.rem, 0, c.id);
    if w.end != Raised {
      var e := if cx.net(|w.st.log|) then Failed else Closed(post.cursor.None? && w.end == Complete);
      ClaimedConcat(cx.rem, es, [e]);
      StillReached(cx, at, c, es, e);
      es := es + [e];
    }
    assert o.st.log[|s.log|..] == es;
    StillRead(cx, at, c, es);
    ReadIsWalkable(cx, at, c, es);
    FirstSyncDecidesThread(cx, cxs, post, s, at, c);
  }

  lemma StillReached(cx: Ctx, at: nat, c: Comment, es: seq<Event>, e: Event)
    requires ReachReads(cx, at, c, es)
    ensures ReachReads(cx, at, c, es + [e])
  {
  }

  lemma StillRead(cx: Ctx, at: nat, c: Comment, es: seq<Event>)
    requires ReachReads(cx, at, c, es)
    ensures TopPage(at) in es
  {
  }

  // ---------- walks that are cut: concrete inputs ----------

  // A thread longer than one walk: what lies beyond the first MAX_REPLY_PAGES
  // pages is never stored.
  lemma LongThreadStaysIncomplete(cx: Ctx, cxs: seq<Ctx>, post: Post, s: St, at: nat, c: Comment)
    requires Calm(cx) && Faithful(cx.rem) && Sound(cx, s.rows) && Listed(cx.rem, None, at, c) && c.id !in s.rows
    requires PageIndex(post.cursor) <= at < PageIndex(post.cursor) + MAX_COMMENT_PAGES
    requires SameRemote(cxs, cx)
    requires var pages := ThreadPages(cx.rem, c.id); |pages| > MAX_REPLY_PAGES && pages[MAX_REPLY_PAGES] != []
    ensures var o := Sync(cx, true, post, s);
            !ThreadExact(cx, SyncMany(cxs, o.post, o.st).1.rows, c.id)
  {
    hide Sync, SyncMany, Sound, ThreadExact, Listed, Calm, Faithful, IdsUpTo;
    UndisturbedThreadIff(cx, cxs, post, s, at, c);
    var pages := ThreadPages(cx.rem, c.id);
    var x: Comment := pages[MAX_REPLY_PAGES][0];
    ListsAreFaithful(cx.rem, c.id);
    BeyondIsUnseen(pages, MAX_REPLY_PAGES, x.id);
    IdsUpToHas(pages, MAX_REPLY_PAGES, |pages|);
  }

  lemma BeyondIsUnseen(pages: seq<seq<Comment>>, n: nat, id: Id)
    requires FaithfulPages(pages) && n < |pages| && id in Ids(pages[n])
    ensures id !in IdsUpTo(pages, n)
  {
    hide IdsUpTo;
    if id in IdsUpTo(pages, n) {
      var j := IdsUpToPage(pages, n, id);
    }
  }

  // Ids of one letter, more and more of them.
  function Named(n: nat): Comment {
    Comment(seq(n + 1, _ => 'r'), "", "", 0)
  }

  // One comment that claims n replies, and has them one to a page.
  function OneThread(n: nat): Remote {
    Remote([[Comment("c", "", "", n)]], map["c" := seq(n, i requires 0 <= i < n => [Named(i)])])
  }

  lemma OneThreadPages(n: nat)
    ensures var pages := ThreadPages(OneThread(n), "c");
            |pages| == n && (forall i :: 0 <= i < n ==> pages[i] == [Named(i)]) && FaithfulPages(pages)
    ensures forall id :: id in ThreadIds(OneThread(n), "c") <==> exists i :: 0 <= i < n && id == Named(i).id
  {
    hide IdsUpTo;
    var pages := ThreadPages(OneThread(n), "c");
    assert forall i :: 0 <= i < n ==> Ids(pages[i]) == {Named(i).id};
    assert forall i :: 0 <= i < n ==> |Named(i).id| == i + 1;
    forall id
      ensures id in PageIds(pages) <==> exists i :: 0 <= i < n && id == Named(i).id
    {
      if id in PageIds(pages) {
        var i := IdsUpToPage(pages, |pages|, id);
      }
      if i :| 0 <= i < n && id == Named(i).id {
        IdsUpToHas(pages, i, |pages|);
      }
    }
  }

  lemma OnePageIds(page: seq<Comment>)
    ensures PageIds([page]) == Ids(page)
  {
    assert IdsUpTo([page], 0) == {} && IdsUpTo([page], 1) == {} + Ids(page);
  }

  lemma OneThreadIsFaithful(n: nat)
    ensures Faithful(OneThread(n)) && Listed(OneThread(n), None, 0, Comment("c", "", "", n))
  {
    hide IdsUpTo;
    var rem := OneThread(n);
    OneThreadPages(n);
    assert rem.threads.Keys == {"c"};
    assert Ids(rem.pages[0]) == {"c"};
    OnePageIds(rem.pages[0]);
    assert forall i :: 0 <= i < n ==> Named(i).id[0] == 'r';
  }

  // One page too many: the thread stays a page short whatever follows.
  lemma TwentyOnePagesAreCut(cxs: seq<Ctx>, post: PostId)
    requires var cx := Undisturbed(OneThread(MAX_REPLY_PAGES + 1), post); SameRemote(cxs, cx)
    ensures var cx := Undisturbed(OneThread(MAX_REPLY_PAGES + 1), post);
            var o := Sync(cx, true, Post(None, 0), St(map[], []));
            !ThreadExact(cx, SyncMany(cxs, o.post, o.st).1.rows, "c")
  {
    hide Sync, SyncMany, ThreadExact, Faithful, OneThread, Listed, IdsUpTo;
    var n := MAX_REPLY_PAGES + 1;
    var cx := Undisturbed(OneThread(n), post);
    OneThreadIsFaithful(n);
    OneThreadPages(n);
    UndisturbedIsCalm(cx.rem, post);
    LongThreadStaysIncomplete(cx, cxs, Post(None, 0), St(map[], []), 0, Comment("c", "", "", n));
  }

  // One failing reply request: the count is stored, the reply never is.
  lemma FailedRequestLosesThread(cxs: seq<Ctx>, post: PostId)
    requires SameRemote(cxs, Ctx(OneThread(1), (n: nat) => n == 1, post, 0))
    ensures var cx := Ctx(OneThread(1), (n: nat) => n == 1, post, 0);
            var o := Sync(cx, true, Post(None, 0), St(map[], []));
            var rows := SyncMany(cxs, o.post, o.st).1.rows;
            && o.end == Raised
            && StoredReplies(rows, "c") == {} && !ThreadExact(cx, rows, "c")
            && "c" in o.st.rows && o.st.rows["c"].childCount == 1
  {
    hide SyncMany, ThreadExact, Faithful, Listed, IdsUpTo, TopPages, SyncThreads, ReplyPages, FaithfulPages;
    var cx := Ctx(OneThread(1), (n: nat) => n == 1, post, 0);
    var c, s := Comment("c", "", "", 1), St(map[], []);
    OneThreadIsFaithful(1);
    OneThreadPages(1);
    var prev, rows := PreviousChildCounts(map[], [c]), Upsert(map[], post, None, [c]);
    var s1 := s.Put(rows, TopPage(0));
    TopUnfold(cx, true, None, MAX_COMMENT_PAGES, s, {}, 0);
    ThreadsUnfold(cx, true, [c], prev, s1, 1);
    ReplyUnfold(cx, "c", 0, MAX_REPLY_PAGES, s1, {}, 0);
    var o := Sync(cx, true, Post(None, 0), s);
    assert o.st == s1.Add(Failed);
    assert o.st.log[|s.log|..] == [TopPage(0), Failed];
    FirstSyncDecidesThread(cx, cxs, Post(None, 0), s, 0, c);
    RepliesReadHas(cx.rem, [TopPage(0), Failed], "c", Named(0).id);
  }
}
