// What a sync returns and leaves in the post's columns, for every failure
// pattern, cap and cursor: where it went on reading, why it ended, how much it
// read, and what the stored count counts.
module CommentOutcome {
  import opened Common
  import opened CommentModel
  import opened CommentSafety
  import opened CommentRuns
  import opened CommentTheorems
  import opened CommentProgress

  // How many comments of the post the table holds, top level and replies.
  ghost function Held(rows: Table, post: PostId): nat {
    |set id | id in rows && rows[id].post == post|
  }

  lemma CountIsHeld(rows: Table, post: PostId)
    ensures CountStored(rows, post) == Held(rows, post)
  {
    assert StoredIds(rows, post) == set id | id in rows && rows[id].post == post;
  }

  // ---------- failures ----------

  // From log position `base` on, an entry is a failure exactly where the
  // network fails.
  ghost predicate Faults(cx: Ctx, base: nat, es: seq<Event>) {
    forall k :: 0 <= k < |es| ==> (es[k] == Failed <==> cx.net(base + k))
  }

  lemma FaultsConcat(cx: Ctx, base: nat, a: seq<Event>, b: seq<Event>)
    requires Faults(cx, base, a) && Faults(cx, base + |a|, b)
    ensures Faults(cx, base, a + b)
  {
    forall k | 0 <= k < |a + b|
      ensures (a + b)[k] == Failed <==> cx.net(base + k)
    {
      if k >= |a| {
        assert (a + b)[k] == b[k - |a|] && base + k == base + |a| + (k - |a|);
      }
    }
  }

  lemma FaultsOne(cx: Ctx, base: nat, e: Event)
    requires e == Failed <==> cx.net(base)
    ensures Faults(cx, base, [e])
  {
  }

  // Nothing failed, or only the last entry did.
  ghost predicate EndsWell(es: seq<Event>, raised: bool) {
    && (raised <==> Failed in es)
    && (raised ==> es[|es| - 1] == Failed)
  }

  lemma EndsWellConcat(a: seq<Event>, b: seq<Event>, raised: bool)
    requires EndsWell(a, false) && EndsWell(b, raised)
    ensures EndsWell(a + b, raised)
  {
  }

  // ---------- how much was read ----------

  function SizeOf(rem: Remote, e: Event): nat {
    match e
    case TopPage(i) => |PageAt(rem.pages, i)|
    case ReplyPage(p, i) => |PageAt(ThreadPages(rem, p), i)|
    case _ => 0
  }

  // The comments on all pages that were read.
  function ReadIn(rem: Remote, es: seq<Event>): nat {
    if es == [] then 0 else ReadIn(rem, es[..|es| - 1]) + SizeOf(rem, es[|es| - 1])
  }

  lemma {:induction false} ReadConcat(rem: Remote, a: seq<Event>, b: seq<Event>)
    ensures ReadIn(rem, a + b) == ReadIn(rem, a) + ReadIn(rem, b)
    decreases |b|
  {
    if b == [] {
      assert a + b == a;
    } else {
      assert (a + b)[..|a + b| - 1] == a + b[..|b| - 1];
      ReadConcat(rem, a, b[..|b| - 1]);
    }
  }

  lemma ReadOne(rem: Remote, e: Event)
    ensures ReadIn(rem, [e]) == SizeOf(rem, e) && ReadIn(rem, []) == 0
  {
    assert [e][..0] == [];
  }

  // ---------- reply walks ----------

  // Pages i, i + 1, ... of p's thread, n of them.
  function ReplyReadsOf(p: Id, i: nat, n: nat): seq<Event> {
    seq(n, k requires 0 <= k < n => ReplyPage(p, i + k))
  }

  // A reply walk from page i: it reads pages in order, counts what it reads,
  // and is cut only by its page limit or a full post.
  ghost predicate ReplyShape(cx: Ctx, p: Id, i: nat, fuel: nat, s: St, total: nat, w: Walk, es: seq<Event>, n: nat) {
    && w.st.log == s.log + es && n <= fuel
    && es == ReplyReadsOf(p, i, n) + (if w.end == Raised then [Failed] else [])
    && Faults(cx, |s.log|, es)
    && w.total == total + ReadIn(cx.rem, es)
    && (w.end == Cut ==> n == fuel || (cx.cap > 0 && Held(w.st.rows, cx.post) >= cx.cap))
    && (w.end == Complete ==> n > 0 && (PageAt(ThreadPages(cx.rem, p), i + n - 1) == [] || |ThreadPages(cx.rem, p)| <= i + n))
  }

  // A walk that stops before or at page i.
  lemma ReplyStops(cx: Ctx, p: Id, i: nat, fuel: nat, s: St, seen: set<Id>, total: nat) returns (es: seq<Event>, n: nat)
    requires fuel == 0 || Full(cx, s.rows) || cx.net(|s.log|)
          || PageAt(ThreadPages(cx.rem, p), i) == [] || !HasMore(ThreadPages(cx.rem, p), i)
    ensures ReplyShape(cx, p, i, fuel, s, total, ReplyPages(cx, p, i, fuel, s, seen, total), es, n)
  {
    hide ReplyPages, Upsert, Ids, CountStored, Held, ReadIn;
    ReplyUnfold(cx, p, i, fuel, s, seen, total);
    CountIsHeld(s.rows, cx.post);
    ReadOne(cx.rem, Failed);
    ReadOne(cx.rem, ReplyPage(p, i));
    if fuel == 0 || Full(cx, s.rows) {
      es, n := [], 0;
    } else if cx.net(|s.log|) {
      es, n := [Failed], 0;
      assert ReplyReadsOf(p, i, 0) + [Failed] == [Failed];
    } else {
      es, n := [ReplyPage(p, i)], 1;
      assert ReplyReadsOf(p, i, 1) + [] == [ReplyPage(p, i)];
    }
  }

  // One more page before the rest of the walk.
  lemma ReplyOneMore(cx: Ctx, p: Id, i: nat, fuel: nat, s: St, s': St, total: nat, w: Walk, rest: seq<Event>, m: nat)
    requires fuel > 0 && !cx.net(|s.log|) && s'.log == s.log + [ReplyPage(p, i)]
    requires ReplyShape(cx, p, i + 1, fuel - 1, s', total + |PageAt(ThreadPages(cx.rem, p), i)|, w, rest, m)
    ensures ReplyShape(cx, p, i, fuel, s, total, w, [ReplyPage(p, i)] + rest, m + 1)
  {
    hide Held, ReadIn, Faults;
    assert [ReplyPage(p, i)] + ReplyReadsOf(p, i + 1, m) == ReplyReadsOf(p, i, m + 1);
    FaultsOne(cx, |s.log|, ReplyPage(p, i));
    FaultsConcat(cx, |s.log|, [ReplyPage(p, i)], rest);
    ReadConcat(cx.rem, [ReplyPage(p, i)], rest);
    ReadOne(cx.rem, ReplyPage(p, i));
    assert s.log + ([ReplyPage(p, i)] + rest) == s'.log + rest;
    if w.end == Raised {
      assert [ReplyPage(p, i)] + (ReplyReadsOf(p, i + 1, m) + [Failed]) == ReplyReadsOf(p, i, m + 1) + [Failed];
    } else {
      assert [ReplyPage(p, i)] + (ReplyReadsOf(p, i + 1, m) + []) == ReplyReadsOf(p, i, m + 1) + [];
    }
  }

  lemma {:induction false} ReplyWalkShape(cx: Ctx, p: Id, i: nat, fuel: nat, s: St, seen: set<Id>, total: nat)
    returns (es: seq<Event>, n: nat)
    ensures ReplyShape(cx, p, i, fuel, s, total, ReplyPages(cx, p, i, fuel, s, seen, total), es, n)
    decreases fuel
  {
    hide ReplyPages, Upsert, Ids, CountStored, ReplyShape;
    var thread := ThreadPages(cx.rem, p);
    if fuel == 0 || Full(cx, s.rows) || cx.net(|s.log|) || PageAt(thread, i) == [] || !HasMore(thread, i) {
      es, n := ReplyStops(cx, p, i, fuel, s, seen, total);
    } else {
      ReplyUnfold(cx, p, i, fuel, s, seen, total);
      var s' := s.Put(Upsert(s.rows, cx.post, Some(p), thread[i]), ReplyPage(p, i));
      var rest, m := ReplyWalkShape(cx, p, i + 1, fuel - 1, s', seen + Ids(thread[i]), total + |thread[i]|);
      ReplyOneMore(cx, p, i, fuel, s, s', total, ReplyPages(cx, p, i, fuel, s, seen, total), rest, m);
      es, n := [ReplyPage(p, i)] + rest, m + 1;
    }
  }

  lemma NoFailure(p: Id, i: nat, n: nat)
    ensures Failed !in ReplyReadsOf(p, i, n)
  {
  }

  // The walk of one thread: pages 0, 1, ..., n - 1, then the sweep if the walk
  // got to the end.
  ghost predicate ThreadShape(cx: Ctx, p: Id, s: St, w: Walk, es: seq<Event>, n: nat) {
    && w.st.log == s.log + es && n <= MAX_REPLY_PAGES
    && ReplyReadsOf(p, 0, n) <= es
    && Faults(cx, |s.log|, es) && EndsWell(es, w.end == Raised)
    && w.total == ReadIn(cx.rem, es)
    && (Swept(p) in es <==> w.end == Complete)
    && (w.end == Cut ==> n == MAX_REPLY_PAGES || (cx.cap > 0 && Held(w.st.rows, cx.post) >= cx.cap))
  }

  // A reply walk is cut short only by its twenty pages, a full post or a
  // failure, and returns the number of replies it read.
  lemma ThreadWalkShape(cx: Ctx, p: Id, s: St) returns (es: seq<Event>, n: nat)
    ensures ThreadShape(cx, p, s, SyncReplies(cx, p, s), es, n)
  {
    hide ReplyPages, DeleteMissing, Held, ReadIn;
    var w := ReplyPages(cx, p, 0, MAX_REPLY_PAGES, s, {}, 0);
    es, n := ReplyWalkShape(cx, p, 0, MAX_REPLY_PAGES, s, {}, 0);
    NoFailure(p, 0, n);
    if w.end == Complete {
      var e := if cx.net(|w.st.log|) then Failed else Swept(p);
      FaultsOne(cx, |w.st.log|, e);
      FaultsConcat(cx, |s.log|, es, [e]);
      ReadConcat(cx.rem, es, [e]);
      ReadOne(cx.rem, e);
      es := es + [e];
    }
  }

  // ---------- one page's threads ----------

  ghost predicate PassShape(cx: Ctx, s: St, total: nat, r: Pass, es: seq<Event>) {
    && r.st.log == s.log + es
    && Faults(cx, |s.log|, es) && EndsWell(es, r.raised)
    && TopReads(es) == []
    && (!r.raised ==> r.total == total + ReadIn(cx.rem, es))
  }

  lemma PassAfterWalk(cx: Ctx, p: Id, s: St, total: nat, w: Walk, es: seq<Event>, n: nat, r: Pass, rest: seq<Event>)
    requires ThreadShape(cx, p, s, w, es, n) && TopReads(es) == [] && w.end != Raised
    requires PassShape(cx, w.st, total + w.total, r, rest)
    ensures PassShape(cx, s, total, r, es + rest)
  {
    hide Faults, EndsWell, TopReads, ReadIn, Held, ReplyReadsOf;
    FaultsConcat(cx, |s.log|, es, rest);
    EndsWellConcat(es, rest, r.raised);
    ReadConcat(cx.rem, es, rest);
    TopReadsConcat(es, rest);
  }

  lemma RaisedPass(cx: Ctx, p: Id, s: St, total: nat, w: Walk, es: seq<Event>, n: nat)
    requires ThreadShape(cx, p, s, w, es, n) && TopReads(es) == [] && w.end == Raised
    ensures PassShape(cx, s, total, Pass(w.st, total, true), es)
  {
    hide Faults, EndsWell, TopReads, ReadIn, Held, ReplyReadsOf;
  }

  // The walk of one thread reads no top-level page.
  lemma WalkOfThread(cx: Ctx, p: Id, s: St) returns (es: seq<Event>, n: nat)
    requires Faithful(cx.rem)
    ensures ThreadShape(cx, p, s, SyncReplies(cx, p, s), es, n) && TopReads(es) == []
  {
    hide SyncReplies, Faithful, FaithfulPages, SweptAfterReading, TopReads, ThreadShape;
    ListsAreFaithful(cx.rem, p);
    var logged := SyncRepliesLogged(cx, p, s);
    es, n := ThreadWalkShape(cx, p, s);
    LoggedBy(cx, p, s, es, n);
    assert es == (s.log + es)[|s.log|..] == (s.log + logged)[|s.log|..] == logged;
    NoTopReads(es);
  }

  lemma LoggedBy(cx: Ctx, p: Id, s: St, es: seq<Event>, n: nat)
    requires ThreadShape(cx, p, s, SyncReplies(cx, p, s), es, n)
    ensures SyncReplies(cx, p, s).st.log == s.log + es
  {
    hide SyncReplies, Held, ReadIn, ReplyReadsOf;
  }

  lemma {:induction false} ThreadsShape(cx: Ctx, diff: bool, cs: seq<Comment>, prev: map<Id, nat>, s: St, total: nat)
    returns (es: seq<Event>)
    requires Faithful(cx.rem)
    ensures PassShape(cx, s, total, SyncThreads(cx, diff, cs, prev, s, total), es)
    decreases |cs|
  {
    hide SyncThreads, SyncReplies, Faithful, ThreadShape, PassShape;
    ThreadsUnfold(cx, diff, cs, prev, s, total);
    if cs == [] {
      es := [];
      EmptyPass(cx, s, total);
    } else if !NeedsWalk(cs[0], prev, diff) {
      es := ThreadsShape(cx, diff, cs[1..], prev, s, total);
    } else {
      var w := SyncReplies(cx, cs[0].id, s);
      var n: nat;
      es, n := WalkOfThread(cx, cs[0].id, s);
      if w.end == Raised {
        RaisedPass(cx, cs[0].id, s, total, w, es, n);
      } else {
        var rest := ThreadsShape(cx, diff, cs[1..], prev, w.st, total + w.total);
        PassAfterWalk(cx, cs[0].id, s, total, w, es, n, SyncThreads(cx, diff, cs[1..], prev, w.st, total + w.total), rest);
        es := es + rest;
      }
    }
  }

  lemma EmptyPass(cx: Ctx, s: St, total: nat)
    ensures PassShape(cx, s, total, Pass(s, total, false), [])
  {
  }

  lemma NothingRead(rem: Remote)
    ensures TopReads([]) == [] && ReadIn(rem, []) == 0
  {
  }

  // ---------- the top-level walk ----------

  // From page i on: n pages in order, no page twice and none left out; cut
  // only by the page limit or a full post, with the cursor at the first page
  // not read.
  ghost predicate TopShape(cx: Ctx, after: Option<nat>, fuel: nat, s: St, total: nat, w: TopWalk, es: seq<Event>, n: nat) {
    var i := PageIndex(after);
    && w.st.log == s.log + es && n <= fuel
    && TopReads(es) == Range(i, i + n)
    && Faults(cx, |s.log|, es) && EndsWell(es, w.end == Raised)
    && (w.end != Raised ==> w.total == total + ReadIn(cx.rem, es))
    && (w.end == Cut ==>
          && (n == fuel || (cx.cap > 0 && Held(w.st.rows, cx.post) >= cx.cap))
          && w.after == (if n == 0 then after else Some(i + n)))
    && (w.end == Complete ==> n > 0 && (PageAt(cx.rem.pages, i + n - 1) == [] || |cx.rem.pages| <= i + n))
  }

  lemma TopStops(cx: Ctx, diff: bool, after: Option<nat>, fuel: nat, s: St, seen: set<Id>, total: nat) returns (es: seq<Event>)
    requires fuel == 0 || Full(cx, s.rows) || cx.net(|s.log|) || PageAt(cx.rem.pages, PageIndex(after)) == []
    ensures TopShape(cx, after, fuel, s, total, TopPages(cx, diff, after, fuel, s, seen, total), es, |TopReads(es)|)
  {
    hide TopPages, Upsert, Ids, CountStored, SyncThreads, PreviousChildCounts, Held, ReadIn;
    TopUnfold(cx, diff, after, fuel, s, seen, total);
    CountIsHeld(s.rows, cx.post);
    var i := PageIndex(after);
    if fuel == 0 || Full(cx, s.rows) {
      es := [];
      NothingRead(cx.rem);
      RangeOne(i);
    } else {
      var e := if cx.net(|s.log|) then Failed else TopPage(i);
      es := [e];
      assert [e][..0] == [];
      ReadOne(cx.rem, e);
      RangeOne(i);
      FaultsOne(cx, |s.log|, e);
    }
  }

  lemma {:induction false} TopWalkShape(cx: Ctx, diff: bool, after: Option<nat>, fuel: nat, s: St, seen: set<Id>, total: nat)
    returns (es: seq<Event>, n: nat)
    requires Faithful(cx.rem)
    ensures TopShape(cx, after, fuel, s, total, TopPages(cx, diff, after, fuel, s, seen, total), es, n)
    decreases fuel
  {
    hide TopPages, SyncThreads, Faithful, Upsert, Ids, CountStored, PreviousChildCounts, TopReads, ReadIn, Held, Faults,
         EndsWell;
    var i := PageIndex(after);
    var page := PageAt(cx.rem.pages, i);
    if fuel == 0 || Full(cx, s.rows) || cx.net(|s.log|) || page == [] {
      es := TopStops(cx, diff, after, fuel, s, seen, total);
      n := |TopReads(es)|;
    } else {
      TopUnfold(cx, diff, after, fuel, s, seen, total);
      var prev := PreviousChildCounts(s.rows, page);
      var s1 := s.Put(Upsert(s.rows, cx.post, None, page), TopPage(i));
      var pass := SyncThreads(cx, diff, page, prev, s1, total + |page|);
      var walks := ThreadsShape(cx, diff, page, prev, s1, total + |page|);
      es, n := [TopPage(i)] + walks, 1;
      OnePageShape(cx, s, i, walks, pass.raised);
      assert s.log + es == s1.log + walks;
      RangeOne(i);
      if !pass.raised && HasMore(cx.rem.pages, i) {
        var rest, m := TopWalkShape(cx, diff, Some(i + 1), fuel - 1, pass.st, seen + Ids(page), pass.total);
        FaultsConcat(cx, |s.log|, es, rest);
        TopReadsConcat(es, rest);
        ReadConcat(cx.rem, es, rest);
        RangeSplit(i, i + 1, i + 1 + m);
        var raised := TopPages(cx, diff, Some(i + 1), fuel - 1, pass.st, seen + Ids(page), pass.total).end == Raised;
        EndsWellConcat(es, rest, raised);
        es, n := es + rest, m + 1;
      }
    }
  }

  lemma OnePageShape(cx: Ctx, s: St, i: nat, walks: seq<Event>, raised: bool)
    requires !cx.net(|s.log|) && Faults(cx, |s.log| + 1, walks) && EndsWell(walks, raised) && TopReads(walks) == []
    ensures Faults(cx, |s.log|, [TopPage(i)] + walks) && EndsWell([TopPage(i)] + walks, raised)
    ensures TopReads([TopPage(i)] + walks) == [i]
    ensures ReadIn(cx.rem, [TopPage(i)] + walks) == |PageAt(cx.rem.pages, i)| + ReadIn(cx.rem, walks)
  {
    hide ReadIn, Faults, EndsWell;
    FaultsOne(cx, |s.log|, TopPage(i));
    FaultsConcat(cx, |s.log|, [TopPage(i)], walks);
    OneTop(i);
    EndsWellConcat([TopPage(i)], walks, raised);
    TopReadsConcat([TopPage(i)], walks);
    ReadConcat(cx.rem, [TopPage(i)], walks);
    ReadOne(cx.rem, TopPage(i));
  }

  lemma OneTop(i: nat)
    ensures TopReads([TopPage(i)]) == [i] && EndsWell([TopPage(i)], false)
  {
    assert [TopPage(i)][..0] == [];
  }

  // ---------- the whole sync ----------

  // What a sync comes to, whatever failed and whatever its cap and cursor:
  // - it fails exactly where the network does, at its last request or commit,
  //   and then leaves the post's columns as they were;
  // - it reads top-level pages in order from its cursor, n of them;
  // - it is cut only by the fifty pages or a full post, and then saves the
  //   first page not read; otherwise the cursor is cleared;
  // - it returns the number of comments on the pages it read;
  // - the stored count is the number of comments the table then holds.
  ghost predicate Accounted(cx: Ctx, post: Post, s: St, o: Outcome, es: seq<Event>, n: nat) {
    var i := PageIndex(post.cursor);
    && o.st.log == s.log + es && n <= MAX_COMMENT_PAGES
    && Faults(cx, |s.log|, es) && EndsWell(es, o.end == Raised)
    && TopReads(es) == Range(i, i + n)
    && (o.end == Raised ==> o.post == post)
    && (o.end != Raised ==> o.total == ReadIn(cx.rem, es) && o.post.synced == Held(o.st.rows, cx.post))
    && (o.end == Cut ==>
          && (n == MAX_COMMENT_PAGES || (cx.cap > 0 && Held(o.st.rows, cx.post) >= cx.cap))
          && o.post.cursor == (if n == 0 then post.cursor else Some(i + n)))
    && (o.end == Complete ==>
          && o.post.cursor == None
          && n > 0 && (PageAt(cx.rem.pages, i + n - 1) == [] || |cx.rem.pages| <= i + n))
  }

  lemma SyncIsAccounted(cx: Ctx, diff: bool, post: Post, s: St) returns (es: seq<Event>, n: nat)
    requires Faithful(cx.rem)
    ensures Accounted(cx, post, s, Sync(cx, diff, post, s), es, n)
    ensures Sync(cx, diff, post, s).end != Raised <==> es != [] && es[|es| - 1].Closed?
  {
    hide TopPages, Faithful, DeleteMissing, CountStored, Held, ReadIn, TopReads, Faults;
    var w := TopPages(cx, diff, post.cursor, MAX_COMMENT_PAGES, s, {}, 0);
    es, n := TopWalkShape(cx, diff, post.cursor, MAX_COMMENT_PAGES, s, {}, 0);
    CountIsHeld(Sync(cx, diff, post, s).st.rows, cx.post);
    if w.end != Raised {
      var e := if cx.net(|w.st.log|) then Failed else Closed(post.cursor.None? && w.end == Complete);
      FaultsOne(cx, |w.st.log|, e);
      FaultsConcat(cx, |s.log|, es, [e]);
      ReadConcat(cx.rem, es, [e]);
      ReadOne(cx.rem, e);
      TopReadsConcat(es, [e]);
      NoTopReads([e]);
      es := es + [e];
    }
  }

  // ---------- any number of syncs ----------

  // The last closing commit of a log; -1 if there is none.
  function LastClose(es: seq<Event>): (k: int)
    ensures -1 <= k < |es|
    ensures k >= 0 ==> es[k].Closed?
    ensures forall j :: k < j < |es| ==> !es[j].Closed?
  {
    if es == [] then -1 else if es[|es| - 1].Closed? then |es| - 1 else LastClose(es[..|es| - 1])
  }

  function UpToClose(es: seq<Event>): seq<Event> {
    es[..LastClose(es) + 1]
  }

  // The synced column after a run from `rows`: the comments held at the last
  // closing commit, or what it was if no sync got to close.
  ghost predicate Counts(cx: Ctx, rows: Table, es: seq<Event>, was: Post, post: Post) {
    if LastClose(es) == -1 then post == was else post.synced == Held(Replay(cx, rows, UpToClose(es)), cx.post)
  }

  lemma CountsOne(cx: Ctx, rows: Table, es: seq<Event>, was: Post, o: Outcome)
    requires o.st.rows == Replay(cx, rows, es)
    requires o.end == Raised ==> o.post == was && LastClose(es) == -1
    requires o.end != Raised ==> o.post.synced == Held(o.st.rows, cx.post) && es != [] && es[|es| - 1].Closed?
    ensures Counts(cx, rows, es, was, o.post)
  {
    if o.end != Raised {
      assert es[..|es|] == es;
    }
  }

  lemma {:induction false} LastCloseConcat(a: seq<Event>, b: seq<Event>)
    ensures LastClose(a + b) == if LastClose(b) >= 0 then |a| + LastClose(b) else LastClose(a)
    decreases |b|
  {
    if b == [] {
      assert a + b == a;
    } else {
      assert (a + b)[..|a + b| - 1] == a + b[..|b| - 1];
      LastCloseConcat(a, b[..|b| - 1]);
    }
  }

  lemma UpToCloseConcat(a: seq<Event>, b: seq<Event>)
    ensures LastClose(a + b) == -1 <==> LastClose(a) == -1 && LastClose(b) == -1
    ensures UpToClose(a + b) == if LastClose(b) == -1 then UpToClose(a) else a + UpToClose(b)
  {
    LastCloseConcat(a, b);
    if LastClose(b) == -1 {
      assert (a + b)[..LastClose(a) + 1] == a[..LastClose(a) + 1];
    } else {
      assert (a + b)[..|a| + LastClose(b) + 1] == a + b[..LastClose(b) + 1];
    }
  }

  lemma CountsConcat(cx: Ctx, rows: Table, a: seq<Event>, b: seq<Event>, p: Post, q: Post, r: Post)
    requires Counts(cx, rows, a, p, q) && Counts(cx, Replay(cx, rows, a), b, q, r)
    ensures Counts(cx, rows, a + b, p, r)
  {
    hide Replay, Held, LastClose, UpToClose;
    UpToCloseConcat(a, b);
    ReplayConcat(cx, rows, a, UpToClose(b));
  }

  // A failing sync closes nothing.
  lemma RaisedNeverCloses(cx: Ctx, diff: bool, post: Post, s: St, es: seq<Event>)
    requires Faithful(cx.rem) && Sync(cx, diff, post, s).st.log == s.log + es && Sync(cx, diff, post, s).end == Raised
    ensures LastClose(es) == -1
  {
    hide TopPages, Faithful, DeleteMissing, CountStored;
    var w := TopPages(cx, diff, post.cursor, MAX_COMMENT_PAGES, s, {}, 0);
    var walk := TopNeverCloses(cx, diff, post.cursor, MAX_COMMENT_PAGES, s, {}, 0);
    var all := if w.end == Raised then walk else walk + [Failed];
    assert es == (s.log + es)[|s.log|..] == (s.log + all)[|s.log|..] == all;
  }

  lemma {:induction false} ThreadsNeverClose(cx: Ctx, diff: bool, cs: seq<Comment>, prev: map<Id, nat>, s: St, total: nat)
    returns (es: seq<Event>)
    requires Faithful(cx.rem)
    ensures SyncThreads(cx, diff, cs, prev, s, total).st.log == s.log + es && forall e :: e in es ==> !e.Closed?
    decreases |cs|
  {
    hide SyncThreads, SyncReplies, Faithful, FaithfulPages, SweptAfterReading;
    ThreadsUnfold(cx, diff, cs, prev, s, total);
    if cs == [] {
      es := [];
    } else if !NeedsWalk(cs[0], prev, diff) {
      es := ThreadsNeverClose(cx, diff, cs[1..], prev, s, total);
    } else {
      var w := SyncReplies(cx, cs[0].id, s);
      ListsAreFaithful(cx.rem, cs[0].id);
      es := SyncRepliesLogged(cx, cs[0].id, s);
      if w.end != Raised {
        var rest := ThreadsNeverClose(cx, diff, cs[1..], prev, w.st, total + w.total);
        es := es + rest;
      }
    }
  }

  lemma {:induction false} TopNeverCloses(cx: Ctx, diff: bool, after: Option<nat>, fuel: nat, s: St, seen: set<Id>, total: nat)
    returns (es: seq<Event>)
    requires Faithful(cx.rem)
    ensures TopPages(cx, diff, after, fuel, s, seen, total).st.log == s.log + es && forall e :: e in es ==> !e.Closed?
    decreases fuel
  {
    hide TopPages, SyncThreads, Faithful, Upsert, Ids, CountStored, PreviousChildCounts;
    TopUnfold(cx, diff, after, fuel, s, seen, total);
    var i := PageIndex(after);
    var page := PageAt(cx.rem.pages, i);
    if fuel == 0 || Full(cx, s.rows) {
      es := [];
    } else if cx.net(|s.log|) || page == [] {
      es := [if cx.net(|s.log|) then Failed else TopPage(i)];
    } else {
      var prev := PreviousChildCounts(s.rows, page);
      var s1 := s.Put(Upsert(s.rows, cx.post, None, page), TopPage(i));
      var pass := SyncThreads(cx, diff, page, prev, s1, total + |page|);
      var walks := ThreadsNeverClose(cx, diff, page, prev, s1, total + |page|);
      es := [TopPage(i)] + walks;
      if !pass.raised && HasMore(cx.rem.pages, i) {
        var rest := TopNeverCloses(cx, diff, Some(i + 1), fuel - 1, pass.st, seen + Ids(page), pass.total);
        es := es + rest;
      }
    }
  }

  // Over any series of syncs, each failing or cut where it may: the synced
  // column is the number of comments held at the last closing commit.
  lemma {:induction false} SyncedIsHeldAtLastClose(cxs: seq<Ctx>, cx: Ctx, post: Post, s: St) returns (es: seq<Event>)
    requires Faithful(cx.rem) && Sound(cx, s.rows) && SamePost(cxs, cx)
    ensures var r := SyncMany(cxs, post, s);
            && r.1.log == s.log + es && r.1.rows == Replay(cx, s.rows, es)
            && Counts(cx, s.rows, es, post, r.0)
    decreases |cxs|
  {
    hide Sync, Faithful, Sound, Keeps, Replay, Allowed, Held, Counts, ReadIn, TopReads, Faults, LastClose;
    if cxs == [] {
      es := [];
      ReplayNone(cx, s.rows);
      CountsNone(cx, s.rows, post);
    } else {
      var c := cxs[0];
      var o := Sync(c, true, post, s);
      SoundDependsOn(c, cx, s.rows, s.rows);
      es := SyncRun(c, true, post, s);
      var logged, n := SyncIsAccounted(c, true, post, s);
      assert es == (s.log + es)[|s.log|..] == (s.log + logged)[|s.log|..] == logged;
      SameRun(c, cx, s.rows, es);
      if o.end == Raised {
        RaisedNeverCloses(c, true, post, s, es);
      }
      CountsOne(cx, s.rows, es, post, o);
      ReplayKeeps(cx, s.rows, es);
      var rest := SyncedIsHeldAtLastClose(cxs[1..], cx, o.post, o.st);
      CountsConcat(cx, s.rows, es, rest, post, o.post, SyncMany(cxs[1..], o.post, o.st).0);
      ReplayConcat(cx, s.rows, es, rest);
      es := es + rest;
    }
  }

  lemma CountsNone(cx: Ctx, rows: Table, post: Post)
    ensures Counts(cx, rows, [], post, post)
  {
  }

  // ---------- columns written once ----------

  // Whoever a comment is first seen from stays its author.
  ghost predicate Signed(cx: Ctx, start: Table, rows: Table) {
    forall p, i, c :: Listed(cx.rem, p, i, c) && c.id in rows ==>
      rows[c.id].author == if c.id in start then start[c.id].author else c.author
  }

  lemma StepSigned(cx: Ctx, start: Table, rows: Table, e: Event, p: Option<Id>, i: nat, c: Comment)
    requires Faithful(cx.rem) && Sound(cx, rows) && Enabled(cx, rows, e) && Listed(cx.rem, p, i, c)
    requires c.id in start ==> c.id in rows
    requires c.id in rows ==> rows[c.id].author == if c.id in start then start[c.id].author else c.author
    ensures var r := Apply(cx, rows, e);
            c.id in r ==> r[c.id].author == if c.id in start then start[c.id].author else c.author
  {
    hide Faithful, Upsert, Ids, Sound;
    StepKeeps(cx, rows, e);
    if c.id !in rows && (e.TopPage? || e.ReplyPage?) {
      var under := if e.TopPage? then None else Some(e.parent);
      var cs := PageAt(PagesUnder(cx.rem, under), e.index);
      ListsAreFaithful(cx.rem, if under.Some? then under.value else "");
      PageAtIds(PagesUnder(cx.rem, under), e.index);
      UpsertEffect(rows, cx.post, under, cs);
      if c.id in Ids(cs) {
        var x := IdOnPage(cs, c.id);
        assert Listed(cx.rem, under, e.index, x);
        ListedOnce(cx.rem, p, i, c, under, e.index, x);
        NewRowIs(rows, cx.post, under, c);
      }
    }
  }

  lemma IdOnPage(cs: seq<Comment>, id: Id) returns (x: Comment)
    requires id in Ids(cs)
    ensures x in cs && x.id == id
  {
    x :| x in cs && x.id == id;
  }

  lemma NewRowIs(rows: Table, post: PostId, parent: Option<Id>, c: Comment)
    requires c.id !in rows
    ensures Merged(rows, post, parent, c) == Row(post, parent, c.author, c.body, c.childCount)
  {
  }

  lemma {:induction false} ReplaySigned(cx: Ctx, start: Table, rows: Table, es: seq<Event>, p: Option<Id>, i: nat, c: Comment)
    requires Faithful(cx.rem) && Sound(cx, rows) && Allowed(cx, rows, es) && Listed(cx.rem, p, i, c)
    requires c.id in start ==> c.id in rows
    requires c.id in rows ==> rows[c.id].author == if c.id in start then start[c.id].author else c.author
    ensures var r := Replay(cx, rows, es);
            c.id in r ==> r[c.id].author == if c.id in start then start[c.id].author else c.author
    decreases |es|
  {
    hide Faithful, Sound, Keeps, Apply, Listed, Enabled;
    if es != [] {
      StepKeeps(cx, rows, es[0]);
      ListedStays(cx, rows, Apply(cx, rows, es[0]), p, i, c);
      StepSigned(cx, start, rows, es[0], p, i, c);
      ReplaySigned(cx, start, Apply(cx, rows, es[0]), es[1..], p, i, c);
    }
  }

  lemma ListedStays(cx: Ctx, a: Table, b: Table, p: Option<Id>, i: nat, c: Comment)
    requires Faithful(cx.rem) && Listed(cx.rem, p, i, c) && Keeps(cx, a, b)
    ensures c.id in a ==> c.id in b
  {
    hide Faithful;
    ListedPlace(cx.rem, p, i, c);
  }

  // A comment a sync stores for the first time has the remote's author; one
  // stored before keeps the author it had.
  lemma SyncSigns(cx: Ctx, diff: bool, post: Post, s: St)
    requires Faithful(cx.rem) && Sound(cx, s.rows)
    ensures Signed(cx, s.rows, Sync(cx, diff, post, s).st.rows)
  {
    hide Sync, Faithful, Sound, Listed, Replay, Allowed;
    var es := SyncRun(cx, diff, post, s);
    forall p, i, c | Listed(cx.rem, p, i, c) && c.id in Sync(cx, diff, post, s).st.rows
      ensures Sync(cx, diff, post, s).st.rows[c.id].author == if c.id in s.rows then s.rows[c.id].author else c.author
    {
      ReplaySigned(cx, s.rows, s.rows, es, p, i, c);
    }
  }
}
