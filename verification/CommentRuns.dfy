// Every sync is a run: the replay of the events it logs, each one enabled.
module CommentRuns {
  import opened Common
  import opened CommentModel
  import opened CommentSafety

  // ---------- every sync replays as its log ----------

  // A walk that meets an empty page, or a page with nothing after it, has
  // seen every id of the list.
  lemma WalkedToTheEnd(pages: seq<seq<Comment>>, i: nat)
    requires FaithfulPages(pages) && i <= |pages|
    ensures PageAt(pages, i) == [] ==> IdsUpTo(pages, i) == PageIds(pages)
    ensures i < |pages| && !HasMore(pages, i) ==> IdsUpTo(pages, i) + Ids(pages[i]) == PageIds(pages)
    ensures i < |pages| ==> IdsUpTo(pages, i + 1) == IdsUpTo(pages, i) + Ids(pages[i])
  {
    assert PageAt(pages, i) == [] && i < |pages| ==> i == |pages| - 1;
  }

  // A reply walk that ends by itself has seen the whole thread.
  lemma {:induction false} RepliesSeen(cx: Ctx, p: Id, i: nat, fuel: nat, s: St, seen: set<Id>, total: nat)
    requires FaithfulPages(ThreadPages(cx.rem, p))
    requires i <= |ThreadPages(cx.rem, p)| && seen == IdsUpTo(ThreadPages(cx.rem, p), i)
    ensures var w := ReplyPages(cx, p, i, fuel, s, seen, total);
            w.end == Complete ==> w.seen == ThreadIds(cx.rem, p)
    decreases fuel
  {
    hide FaithfulPages, ReplyPages, Upsert, IdsUpTo, Ids;
    var thread := ThreadPages(cx.rem, p);
    WalkedToTheEnd(thread, i);
    ReplyUnfold(cx, p, i, fuel, s, seen, total);
    if fuel != 0 && !Full(cx, s.rows) && !cx.net(|s.log|) && HasMore(thread, i) && thread[i] != [] {
      RepliesSeen(cx, p, i + 1, fuel - 1, s.Put(Upsert(s.rows, cx.post, Some(p), thread[i]), ReplyPage(p, i)),
                  seen + Ids(thread[i]), total + |thread[i]|);
    }
  }

  // A top-level walk from the first page that ends by itself has seen every
  // top-level comment.
  lemma {:induction false} TopSeen(cx: Ctx, diff: bool, after: Option<nat>, fuel: nat, s: St, seen: set<Id>, total: nat)
    requires FaithfulPages(cx.rem.pages)
    requires PageIndex(after) <= |cx.rem.pages| && seen == IdsUpTo(cx.rem.pages, PageIndex(after))
    ensures var w := TopPages(cx, diff, after, fuel, s, seen, total);
            w.end == Complete ==> w.seen == TopIds(cx.rem)
    decreases fuel
  {
    hide FaithfulPages, TopPages, SyncThreads, Upsert, IdsUpTo, Ids;
    var i, pages := PageIndex(after), cx.rem.pages;
    WalkedToTheEnd(pages, i);
    TopUnfold(cx, diff, after, fuel, s, seen, total);
    if fuel != 0 && !Full(cx, s.rows) && !cx.net(|s.log|) && HasMore(pages, i) && pages[i] != [] {
      var prev := PreviousChildCounts(s.rows, pages[i]);
      var s1 := s.Put(Upsert(s.rows, cx.post, None, pages[i]), TopPage(i));
      var pass := SyncThreads(cx, diff, pages[i], prev, s1, total + |pages[i]|);
      TopSeen(cx, diff, Some(i + 1), fuel - 1, pass.st, seen + Ids(pages[i]), pass.total);
    }
  }

  lemma {:induction false} ReplyPagesRun(cx: Ctx, p: Id, i: nat, fuel: nat, s: St, seen: set<Id>, total: nat)
    returns (es: seq<Event>)
    requires Faithful(cx.rem) && Sound(cx, s.rows)
    requires p in TopIds(cx.rem) && StoredTop(s.rows, cx.post, p)
    ensures var w := ReplyPages(cx, p, i, fuel, s, seen, total);
            && w.st.log == s.log + es
            && w.st.rows == Replay(cx, s.rows, es)
            && Allowed(cx, s.rows, es)
    decreases fuel
  {
    hide Faithful, Sound, Upsert, ReplyPages, Replay, Allowed, Keeps;
    var thread := ThreadPages(cx.rem, p);
    ReplyUnfold(cx, p, i, fuel, s, seen, total);
    ReplayNone(cx, s.rows);
    ReplayOne(cx, s.rows, Failed);
    if fuel == 0 || Full(cx, s.rows) {
      es := [];
    } else if cx.net(|s.log|) {
      es := [Failed];
    } else {
      ReplayOne(cx, s.rows, ReplyPage(p, i));
      var e := ReplyPage(p, i);
      var replies := PageAt(thread, i);
      if replies == [] {
        es := [e];
        UpsertNothing(s.rows, cx.post, Some(p));
      } else {
        StepKeeps(cx, s.rows, e);
        var s' := s.Put(Apply(cx, s.rows, e), e);
        if !HasMore(thread, i) {
          es := [e];
        } else {
          StaysStored(cx, s.rows, s'.rows, p);
          var rest := ReplyPagesRun(cx, p, i + 1, fuel - 1, s', seen + Ids(replies), total + |replies|);
          ReplayFirst(cx, s.rows, e, rest);
          es := [e] + rest;
        }
      }
    }
  }

  lemma UpsertNothing(rows: Table, post: PostId, parent: Option<Id>)
    ensures Upsert(rows, post, parent, []) == rows
  {
  }

  lemma StaysStored(cx: Ctx, a: Table, b: Table, p: Id)
    requires Keeps(cx, a, b) && p in TopIds(cx.rem) && StoredTop(a, cx.post, p)
    ensures StoredTop(b, cx.post, p)
  {
  }

  lemma SyncRepliesRun(cx: Ctx, p: Id, s: St) returns (es: seq<Event>)
    requires Faithful(cx.rem) && Sound(cx, s.rows)
    requires p in TopIds(cx.rem) && StoredTop(s.rows, cx.post, p)
    ensures var w := SyncReplies(cx, p, s);
            && w.st.log == s.log + es
            && w.st.rows == Replay(cx, s.rows, es)
            && Allowed(cx, s.rows, es)
  {
    hide ReplyPages, Sound, Faithful, FaithfulPages, DeleteMissing, Replay, Allowed;
    var w := ReplyPages(cx, p, 0, MAX_REPLY_PAGES, s, {}, 0);
    es := ReplyPagesRun(cx, p, 0, MAX_REPLY_PAGES, s, {}, 0);
    ListsAreFaithful(cx.rem, p);
    RepliesSeen(cx, p, 0, MAX_REPLY_PAGES, s, {}, 0);
    if w.end == Complete {
      var e := if cx.net(|w.st.log|) then Failed else Swept(p);
      ReplayConcat(cx, s.rows, es, [e]);
      ReplayOne(cx, w.st.rows, e);
      es := es + [e];
    }
  }

  lemma ListsAreFaithful(rem: Remote, p: Id)
    requires Faithful(rem)
    ensures FaithfulPages(rem.pages) && FaithfulPages(ThreadPages(rem, p))
  {
  }

  lemma ReplayNone(cx: Ctx, rows: Table)
    ensures Replay(cx, rows, []) == rows && Allowed(cx, rows, [])
  {
  }

  lemma ReplayOne(cx: Ctx, rows: Table, e: Event)
    ensures Replay(cx, rows, [e]) == Apply(cx, rows, e)
    ensures Allowed(cx, rows, [e]) <==> Enabled(cx, rows, e)
  {
    assert [e][1..] == [];
  }

  lemma {:induction false} SyncThreadsRun(cx: Ctx, diff: bool, cs: seq<Comment>, prev: map<Id, nat>, s: St, total: nat)
    returns (es: seq<Event>)
    requires Faithful(cx.rem) && Sound(cx, s.rows)
    requires forall c :: c in cs ==> c.id in TopIds(cx.rem) && StoredTop(s.rows, cx.post, c.id)
    ensures var r := SyncThreads(cx, diff, cs, prev, s, total);
            && r.st.log == s.log + es
            && r.st.rows == Replay(cx, s.rows, es)
            && Allowed(cx, s.rows, es)
    decreases |cs|
  {
    hide Sound, Faithful, SyncReplies, SyncThreads, Replay, Allowed, Keeps;
    ThreadsUnfold(cx, diff, cs, prev, s, total);
    ReplayNone(cx, s.rows);
    if cs == [] {
      es := [];
    } else if !NeedsWalk(cs[0], prev, diff) {
      es := SyncThreadsRun(cx, diff, cs[1..], prev, s, total);
    } else {
      var w := SyncReplies(cx, cs[0].id, s);
      es := SyncRepliesRun(cx, cs[0].id, s);
      if w.end != Raised {
        ReplayKeeps(cx, s.rows, es);
        forall c | c in cs[1..]
          ensures StoredTop(w.st.rows, cx.post, c.id)
        {
          StaysStored(cx, s.rows, w.st.rows, c.id);
        }
        var rest := SyncThreadsRun(cx, diff, cs[1..], prev, w.st, total + w.total);
        ReplayConcat(cx, s.rows, es, rest);
        es := es + rest;
      }
    }
  }

  lemma {:induction false} TopPagesRun(cx: Ctx, diff: bool, after: Option<nat>, fuel: nat, s: St,
                                       seen: set<Id>, total: nat)
    returns (es: seq<Event>)
    requires Faithful(cx.rem) && Sound(cx, s.rows)
    ensures var w := TopPages(cx, diff, after, fuel, s, seen, total);
            && w.st.log == s.log + es
            && w.st.rows == Replay(cx, s.rows, es)
            && Allowed(cx, s.rows, es)
    decreases fuel
  {
    hide Faithful, Sound, Upsert, SyncThreads, TopPages, Replay, Allowed, Keeps;
    var i := PageIndex(after);
    TopUnfold(cx, diff, after, fuel, s, seen, total);
    ReplayNone(cx, s.rows);
    ReplayOne(cx, s.rows, Failed);
    if fuel == 0 || Full(cx, s.rows) {
      es := [];
    } else if cx.net(|s.log|) {
      es := [Failed];
    } else {
      ReplayOne(cx, s.rows, TopPage(i));
      var e := TopPage(i);
      var comments := PageAt(cx.rem.pages, i);
      if comments == [] {
        es := [e];
        UpsertNothing(s.rows, cx.post, None);
      } else {
        var s1 := s.Put(Apply(cx, s.rows, e), e);
        StepKeeps(cx, s.rows, e);
        PageIsStored(cx, s.rows, i);
        var prev := PreviousChildCounts(s.rows, comments);
        var pass := SyncThreads(cx, diff, comments, prev, s1, total + |comments|);
        var walks := SyncThreadsRun(cx, diff, comments, prev, s1, total + |comments|);
        ReplayFirst(cx, s.rows, e, walks);
        es := [e] + walks;
        if !pass.raised && HasMore(cx.rem.pages, i) {
          ReplayKeeps(cx, s1.rows, walks);
          var rest := TopPagesRun(cx, diff, Some(i + 1), fuel - 1, pass.st, seen + Ids(comments), pass.total);
          ReplayConcat(cx, s.rows, es, rest);
          es := es + rest;
        }
      }
    }
  }

  lemma ReplayFirst(cx: Ctx, rows: Table, e: Event, es: seq<Event>)
    ensures Replay(cx, rows, [e] + es) == Replay(cx, Apply(cx, rows, e), es)
    ensures Allowed(cx, rows, [e] + es) <==> Enabled(cx, rows, e) && Allowed(cx, Apply(cx, rows, e), es)
  {
    assert ([e] + es)[1..] == es;
  }

  lemma PageIsStored(cx: Ctx, rows: Table, i: nat)
    requires Faithful(cx.rem) && Sound(cx, rows)
    ensures forall c :: c in PageAt(cx.rem.pages, i) ==>
              c.id in TopIds(cx.rem) && StoredTop(Apply(cx, rows, TopPage(i)), cx.post, c.id)
  {
    var cs := PageAt(cx.rem.pages, i);
    PageAtIds(cx.rem.pages, i);
    UpsertWrote(cx, rows, None, cs);
    hide Upsert, Sound, Faithful;
    forall c | c in cs
      ensures c.id in Ids(cs)
    {
    }
  }

  // A sync is the replay of the events it logs.
  lemma SyncRun(cx: Ctx, diff: bool, post: Post, s: St) returns (es: seq<Event>)
    requires Faithful(cx.rem) && Sound(cx, s.rows)
    ensures var o := Sync(cx, diff, post, s);
            && o.st.log == s.log + es
            && o.st.rows == Replay(cx, s.rows, es)
            && Allowed(cx, s.rows, es)
  {
    hide TopPages, Sound, Faithful, FaithfulPages, DeleteMissing, Replay, Allowed, CountStored;
    var w := TopPages(cx, diff, post.cursor, MAX_COMMENT_PAGES, s, {}, 0);
    es := TopPagesRun(cx, diff, post.cursor, MAX_COMMENT_PAGES, s, {}, 0);
    if post.cursor.None? {
      ListsAreFaithful(cx.rem, "");
      TopSeen(cx, diff, post.cursor, MAX_COMMENT_PAGES, s, {}, 0);
    }
    if w.end != Raised {
      var e := if cx.net(|w.st.log|) then Failed else Closed(post.cursor.None? && w.end == Complete);
      ReplayConcat(cx, s.rows, es, [e]);
      ReplayOne(cx, w.st.rows, e);
      es := es + [e];
    }
  }
}
