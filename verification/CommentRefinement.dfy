// The diffing sync, which walks a thread only when its reply count changed,
// stores exactly what a sync that walks every thread would store, as long as
// threads only grow and no reply walk that was due is cut short. Top-level
// requests and closing commits may fail, and the cap may end a sync, anywhere.
module CommentRefinement {
  import opened Common
  import opened CommentModel
  import opened CommentSafety
  import opened CommentRuns
  import opened CommentTheorems
  import opened CommentProgress

  // ---------- threads as lists ----------

  function Flat(pages: seq<seq<Comment>>, n: nat): seq<Comment>
    requires n <= |pages|
  {
    if n == 0 then [] else Flat(pages, n - 1) + pages[n - 1]
  }

  function Thread(rem: Remote, p: Id): seq<Comment> {
    var pages := ThreadPages(rem, p);
    Flat(pages, |pages|)
  }

  lemma {:induction false} FlatIds(pages: seq<seq<Comment>>, n: nat)
    requires n <= |pages|
    ensures Ids(Flat(pages, n)) == IdsUpTo(pages, n)
  {
    if n > 0 {
      FlatIds(pages, n - 1);
      IdsConcat(Flat(pages, n - 1), pages[n - 1]);
    }
  }

  lemma IdsConcat(a: seq<Comment>, b: seq<Comment>)
    ensures Ids(a + b) == Ids(a) + Ids(b)
  {
    assert forall c :: c in a + b <==> c in a || c in b;
  }

  lemma {:induction false} FlatHas(pages: seq<seq<Comment>>, n: nat, c: Comment) returns (i: nat)
    requires n <= |pages| && c in Flat(pages, n)
    ensures i < n && c in pages[i]
  {
    if c in pages[n - 1] {
      i := n - 1;
    } else {
      i := FlatHas(pages, n - 1, c);
    }
  }

  lemma ThreadListed(rem: Remote, p: Id, c: Comment) returns (i: nat)
    requires p in TopIds(rem) && c in Thread(rem, p)
    ensures Listed(rem, Some(p), i, c)
  {
    i := FlatHas(ThreadPages(rem, p), |ThreadPages(rem, p)|, c);
  }

  // ---------- the invariant ----------

  // The stored thread of p is cs, reply by reply.
  ghost predicate Stored(rows: Table, post: PostId, p: Id, cs: seq<Comment>) {
    StoredReplies(rows, p) == Ids(cs) && forall c :: c in cs ==> Mirrors(rows, post, Some(p), c)
  }

  // A stored comment with count n has the first n replies of its thread.
  ghost predicate FirstN(rows: Table, rem: Remote, post: PostId, p: Id)
    requires p in rows
  {
    && p in rem.threads
    && rows[p].childCount <= |Thread(rem, p)|
    && Stored(rows, post, p, Thread(rem, p)[..rows[p].childCount])
  }

  ghost predicate Prefixes(rows: Table, rem: Remote, post: PostId) {
    forall p :: StoredTop(rows, post, p) ==> FirstN(rows, rem, post, p)
  }

  // Other posts' rows are no business of this remote.
  ghost predicate Foreign(rows: Table, rem: Remote, post: PostId) {
    forall id, parent :: id in rows && rows[id].post != post ==> !Place(rem, id, parent)
  }

  ghost predicate Mirror(rows: Table, rem: Remote, post: PostId) {
    NoOrphans(rows) && Prefixes(rows, rem, post) && Foreign(rows, rem, post)
  }

  // Reply counts are true.
  ghost predicate Counted(rem: Remote) {
    forall i: nat, c :: Listed(rem, None, i, c) ==> c.childCount == |Thread(rem, c.id)|
  }

  // Every visible thread fits in one reply walk.
  ghost predicate Fits(rem: Remote) {
    forall i: nat, c :: Listed(rem, None, i, c) ==> |ThreadPages(rem, c.id)| <= MAX_REPLY_PAGES
  }

  lemma MirrorIsSound(cx: Ctx, rows: Table)
    requires Faithful(cx.rem) && Mirror(rows, cx.rem, cx.post)
    ensures Sound(cx, rows)
  {
    forall id, at | id in rows && Place(cx.rem, id, at)
      ensures rows[id].post == cx.post && rows[id].parent == at
    {
      assert rows[id].post == cx.post;
      StoredInPlace(cx, rows, id);
      PlaceIsUnique(cx.rem, id, rows[id].parent, at);
    }
  }

  lemma StoredInPlace(cx: Ctx, rows: Table, id: Id)
    requires Mirror(rows, cx.rem, cx.post) && id in rows && rows[id].post == cx.post
    ensures Place(cx.rem, id, rows[id].parent)
  {
    if rows[id].parent.Some? {
      var p := rows[id].parent.value;
      assert StoredTop(rows, cx.post, p) && FirstN(rows, cx.rem, cx.post, p);
      var thread, pages := Thread(cx.rem, p), ThreadPages(cx.rem, p);
      assert id in StoredReplies(rows, p);
      var c: Comment :| c in thread[..rows[p].childCount] && c.id == id;
      FlatIds(pages, |pages|);
      assert c in thread;
    } else {
      assert StoredTop(rows, cx.post, id);
    }
  }

  // ---------- one reply walk ----------

  // Rows outside p's thread are the same in both tables.
  ghost predicate SameOutside(a: Table, b: Table, p: Id) {
    && (forall id :: id in a && a[id].parent != Some(p) ==> id in b && b[id] == a[id])
    && (forall id :: id in b && b[id].parent != Some(p) ==> id in a && b[id] == a[id])
  }

  lemma StepOutside(cx: Ctx, rows: Table, e: Event, p: Id)
    requires Faithful(cx.rem) && Sound(cx, rows) && Enabled(cx, rows, e) && OfThread(e, p)
    ensures SameOutside(rows, Apply(cx, rows, e), p)
  {
    if e.ReplyPage? {
      var cs := PageAt(ThreadPages(cx.rem, p), e.index);
      PageAtIds(ThreadPages(cx.rem, p), e.index);
      UpsertWrote(cx, rows, Some(p), cs);
      WroteOutside(cx, rows, p, Ids(cs), Apply(cx, rows, e));
    }
  }

  lemma WroteOutside(cx: Ctx, rows: Table, p: Id, ids: set<Id>, rows': Table)
    requires Agrees(rows, cx.rem, cx.post)
    requires forall id :: id in ids ==> Place(cx.rem, id, Some(p))
    requires Wrote(rows, cx.post, Some(p), ids, rows')
    ensures SameOutside(rows, rows', p)
  {
    hide Place;
  }

  lemma {:induction false} ReplayOutside(cx: Ctx, rows: Table, es: seq<Event>, p: Id)
    requires Faithful(cx.rem) && Sound(cx, rows) && Allowed(cx, rows, es)
    requires forall e :: e in es ==> OfThread(e, p)
    ensures SameOutside(rows, Replay(cx, rows, es), p)
    decreases |es|
  {
    hide Faithful, Sound, Apply, Keeps, OfThread;
    if es != [] {
      var next := Apply(cx, rows, es[0]);
      StepKeeps(cx, rows, es[0]);
      StepOutside(cx, rows, es[0], p);
      ReplayOutside(cx, next, es[1..], p);
    }
  }

  // A walk that reaches the end of the thread makes it exact and touches
  // nothing else.
  lemma WholeWalk(cx: Ctx, p: Id, s: St)
    requires Faithful(cx.rem) && Sound(cx, s.rows)
    requires p in TopIds(cx.rem) && StoredTop(s.rows, cx.post, p)
    requires SyncReplies(cx, p, s).end == Complete
    ensures var w := SyncReplies(cx, p, s);
            && Sound(cx, w.st.rows) && Keeps(cx, s.rows, w.st.rows)
            && SameOutside(s.rows, w.st.rows, p)
            && Stored(w.st.rows, cx.post, p, Thread(cx.rem, p))
  {
    hide SyncReplies, Sound, Keeps, SameOutside, Stored, Replay, Allowed, Faithful, FaithfulPages;
    var w := SyncReplies(cx, p, s);
    var es := SyncRepliesRun(cx, p, s);
    ListsAreFaithful(cx.rem, p);
    var es' := SyncRepliesLogged(cx, p, s);
    assert es' == w.st.log[|s.log|..] == es;
    var before := es[..|es| - 1];
    assert es == before + ([Swept(p)] + []);
    SweptRunIsExact(cx, s.rows, before, p, []);
    ReplayKeeps(cx, s.rows, es);
    ReplayOutside(cx, s.rows, es, p);
    ExactIsStored(cx, w.st.rows, p);
  }

  lemma ExactIsStored(cx: Ctx, rows: Table, p: Id)
    requires p in TopIds(cx.rem) && ThreadExact(cx, rows, p)
    ensures Stored(rows, cx.post, p, Thread(cx.rem, p))
  {
    FlatIds(ThreadPages(cx.rem, p), |ThreadPages(cx.rem, p)|);
    forall c | c in Thread(cx.rem, p)
      ensures Mirrors(rows, cx.post, Some(p), c)
    {
      var i := ThreadListed(cx.rem, p, c);
    }
  }

  // Walking a thread already stored in full changes no row.
  lemma WalkOfWholeThread(cx: Ctx, p: Id, a: Table, b: Table)
    requires Keeps(cx, a, b) && SameOutside(a, b, p)
    requires Stored(a, cx.post, p, Thread(cx.rem, p)) && Stored(b, cx.post, p, Thread(cx.rem, p))
    ensures a == b
  {
    var cs := Thread(cx.rem, p);
    forall id | id in StoredReplies(a, p)
      ensures id in b && a[id] == b[id]
    {
      var c :| c in cs && c.id == id;
      assert Mirrors(a, cx.post, Some(p), c) && Mirrors(b, cx.post, Some(p), c);
    }
    forall id
      ensures id in a <==> id in b
      ensures id in a ==> a[id] == b[id]
    {
      if id in a && a[id].parent == Some(p) {
        assert id in StoredReplies(a, p);
      }
      if id in b && b[id].parent == Some(p) {
        assert id in StoredReplies(b, p);
      }
    }
    assert a.Keys == b.Keys;
  }

  lemma {:induction false} FlatContains(pages: seq<seq<Comment>>, n: nat, i: nat, c: Comment)
    requires i < n <= |pages| && c in pages[i]
    ensures c in Flat(pages, n)
  {
    if i < n - 1 {
      FlatContains(pages, n - 1, i, c);
    }
  }

  lemma StoredIsExact(cx: Ctx, rows: Table, p: Id)
    requires p in TopIds(cx.rem) && Stored(rows, cx.post, p, Thread(cx.rem, p))
    ensures ThreadExact(cx, rows, p)
  {
    var pages := ThreadPages(cx.rem, p);
    FlatIds(pages, |pages|);
    forall i, x | Listed(cx.rem, Some(p), i, x)
      ensures Mirrors(rows, cx.post, Some(p), x)
    {
      FlatContains(pages, |pages|, i, x);
    }
  }

  // Walking a thread stored in full, to its end or not, changes no row.
  lemma WalkOfStoredThread(cx: Ctx, p: Id, s: St)
    requires Faithful(cx.rem) && Sound(cx, s.rows)
    requires p in TopIds(cx.rem) && StoredTop(s.rows, cx.post, p)
    requires Stored(s.rows, cx.post, p, Thread(cx.rem, p))
    ensures SyncReplies(cx, p, s).st.rows == s.rows
  {
    hide SyncReplies, Sound, Keeps, SameOutside, Stored, Replay, Allowed, Faithful, FaithfulPages, ThreadExact;
    var w := SyncReplies(cx, p, s);
    var es := SyncRepliesRun(cx, p, s);
    ListsAreFaithful(cx.rem, p);
    var es' := SyncRepliesLogged(cx, p, s);
    assert es' == w.st.log[|s.log|..] == es;
    StoredIsExact(cx, s.rows, p);
    ReplayKeepsExact(cx, s.rows, es, p);
    ExactIsStored(cx, w.st.rows, p);
    ReplayKeeps(cx, s.rows, es);
    ReplayOutside(cx, s.rows, es, p);
    WalkOfWholeThread(cx, p, s.rows, w.st.rows);
  }

  // The same post on the same remote; failures and caps may differ.
  predicate SamePlace(c1: Ctx, c2: Ctx) {
    c1.rem == c2.rem && c1.post == c2.post
  }

  // Two walks of a thread that both reach its end store the same.
  lemma {:induction false} EndedWalksAgree(c1: Ctx, c2: Ctx, p: Id, i: nat, fuel: nat, s1: St, s2: St,
                                           seen: set<Id>, t1: nat, t2: nat)
    requires SamePlace(c1, c2) && s1.rows == s2.rows
    requires ReplyPages(c1, p, i, fuel, s1, seen, t1).end == Complete
    requires ReplyPages(c2, p, i, fuel, s2, seen, t2).end == Complete
    ensures var w1, w2 := ReplyPages(c1, p, i, fuel, s1, seen, t1), ReplyPages(c2, p, i, fuel, s2, seen, t2);
            w1.st.rows == w2.st.rows && w1.seen == w2.seen
    decreases fuel
  {
    hide ReplyPages, Upsert, Ids, CountStored;
    ReplyUnfold(c1, p, i, fuel, s1, seen, t1);
    ReplyUnfold(c2, p, i, fuel, s2, seen, t2);
    var thread := ThreadPages(c1.rem, p);
    if HasMore(thread, i) && thread[i] != [] {
      var rows := Upsert(s1.rows, c1.post, Some(p), thread[i]);
      var e, n := ReplyPage(p, i), |thread[i]|;
      EndedWalksAgree(c1, c2, p, i + 1, fuel - 1, s1.Put(rows, e), s2.Put(rows, e), seen + Ids(thread[i]), t1 + n, t2 + n);
    }
  }

  lemma EndedSyncsAgree(c1: Ctx, c2: Ctx, p: Id, s1: St, s2: St)
    requires SamePlace(c1, c2) && s1.rows == s2.rows
    requires SyncReplies(c1, p, s1).end == Complete && SyncReplies(c2, p, s2).end == Complete
    ensures SyncReplies(c1, p, s1).st.rows == SyncReplies(c2, p, s2).st.rows
  {
    hide ReplyPages, DeleteMissing;
    EndedWalksAgree(c1, c2, p, 0, MAX_REPLY_PAGES, s1, s2, {}, 0, 0);
  }

  // ---------- the threads of one page ----------

  // Only replies to comments in ps differ.
  ghost predicate SameBeyond(a: Table, b: Table, ps: set<Id>) {
    && (forall id :: id in a && (a[id].parent.None? || a[id].parent.value !in ps) ==> id in b && b[id] == a[id])
    && (forall id :: id in b && (b[id].parent.None? || b[id].parent.value !in ps) ==> id in a && b[id] == a[id])
  }

  lemma StoredBeyond(a: Table, b: Table, ps: set<Id>, post: PostId, p: Id, cs: seq<Comment>)
    requires SameBeyond(a, b, ps) && p !in ps && Stored(a, post, p, cs)
    ensures Stored(b, post, p, cs)
  {
    assert StoredReplies(a, p) == StoredReplies(b, p);
  }

  lemma BeyondTransitive(a: Table, b: Table, c: Table, ps: set<Id>, qs: set<Id>)
    requires SameBeyond(a, b, ps) && SameBeyond(b, c, qs)
    ensures SameBeyond(a, c, ps + qs)
  {
  }

  function PreviousCount(prev: map<Id, nat>, c: Comment): nat {
    if c.id in prev then prev[c.id] else 0
  }

  // c was just upserted; of its replies the first PreviousCount are stored.
  ghost predicate Waiting(cx: Ctx, rows: Table, prev: map<Id, nat>, i: nat, c: Comment) {
    && Listed(cx.rem, None, i, c) && c.id in TopIds(cx.rem)
    && StoredTop(rows, cx.post, c.id)
    && PreviousCount(prev, c) <= |Thread(cx.rem, c.id)|
    && Stored(rows, cx.post, c.id, Thread(cx.rem, c.id)[..PreviousCount(prev, c)])
  }

  // The walk of c's thread, if the sync makes one, was not cut short. A walk
  // that only a full sync makes may be, since it has nothing to store.
  ghost predicate WalkUncut(cx: Ctx, diff: bool, c: Comment, prev: map<Id, nat>, s: St) {
    NeedsWalk(c, prev, diff) ==>
      var w := SyncReplies(cx, c.id, s);
      w.end == Complete || (w.end == Cut && !NeedsWalk(c, prev, true))
  }

  // The table after c's thread was walked, or skipped.
  function Walked(cx: Ctx, diff: bool, c: Comment, prev: map<Id, nat>, s: St): St {
    if NeedsWalk(c, prev, diff) then SyncReplies(cx, c.id, s).st else s
  }

  // Where no walk is due the thread is stored in full.
  lemma NotDue(cx: Ctx, i: nat, c: Comment, prev: map<Id, nat>, rows: Table)
    requires Counted(cx.rem) && Waiting(cx, rows, prev, i, c) && !NeedsWalk(c, prev, true)
    ensures Stored(rows, cx.post, c.id, Thread(cx.rem, c.id))
  {
    hide Stored, Thread;
    assert c.childCount == |Thread(cx.rem, c.id)|;
    assert Thread(cx.rem, c.id)[..|Thread(cx.rem, c.id)|] == Thread(cx.rem, c.id);
  }

  // Whichever sync comes to c's thread leaves it exact.
  lemma OneWalk(cx: Ctx, diff: bool, i: nat, c: Comment, prev: map<Id, nat>, s: St)
    requires Faithful(cx.rem) && Counted(cx.rem) && Sound(cx, s.rows)
    requires Waiting(cx, s.rows, prev, i, c) && WalkUncut(cx, diff, c, prev, s)
    ensures var r := Walked(cx, diff, c, prev, s).rows;
            && Sound(cx, r) && Keeps(cx, s.rows, r) && SameBeyond(s.rows, r, {c.id})
            && Stored(r, cx.post, c.id, Thread(cx.rem, c.id))
            && (!NeedsWalk(c, prev, true) ==> r == s.rows)
  {
    hide SyncReplies, Faithful, Sound, Keeps, Stored, Counted, Thread;
    KeepsItself(cx, s.rows, Failed);
    if !NeedsWalk(c, prev, true) {
      NotDue(cx, i, c, prev, s.rows);
      WalkOfStoredThread(cx, c.id, s);
    } else {
      WholeWalk(cx, c.id, s);
    }
  }

  // Two syncs that come to c's thread with the same table leave the same.
  lemma OneThread(c1: Ctx, d1: bool, c2: Ctx, d2: bool, i: nat, c: Comment, prev: map<Id, nat>, s1: St, s2: St)
    requires SamePlace(c1, c2) && s1.rows == s2.rows
    requires Faithful(c1.rem) && Counted(c1.rem) && Sound(c1, s1.rows) && Waiting(c1, s1.rows, prev, i, c)
    requires WalkUncut(c1, d1, c, prev, s1) && WalkUncut(c2, d2, c, prev, s2)
    ensures Walked(c1, d1, c, prev, s1).rows == Walked(c2, d2, c, prev, s2).rows
  {
    hide SyncReplies, Faithful, Keeps, Stored, Counted, Thread;
    OneWalk(c1, d1, i, c, prev, s1);
    OneWalk(c2, d2, i, c, prev, s2);
    if NeedsWalk(c, prev, true) {
      EndedSyncsAgree(c1, c2, c.id, s1, s2);
    }
  }

  lemma StillWaiting(cx: Ctx, a: Table, b: Table, prev: map<Id, nat>, i: nat, p: Id, d: Comment)
    requires Waiting(cx, a, prev, i, d) && SameBeyond(a, b, {p}) && d.id != p
    ensures Waiting(cx, b, prev, i, d)
  {
    StoredBeyond(a, b, {p}, cx.post, d.id, Thread(cx.rem, d.id)[..PreviousCount(prev, d)]);
  }

  // No walk of the page that was due is cut short.
  ghost predicate PassUncut(cx: Ctx, diff: bool, cs: seq<Comment>, prev: map<Id, nat>, s: St)
    decreases |cs|
  {
    cs == [] || (WalkUncut(cx, diff, cs[0], prev, s) && PassUncut(cx, diff, cs[1..], prev, Walked(cx, diff, cs[0], prev, s)))
  }

  // One comment of the page after another.
  lemma PassStep(cx: Ctx, diff: bool, cs: seq<Comment>, prev: map<Id, nat>, s: St, total: nat) returns (t: nat)
    requires cs != [] && PassUncut(cx, diff, cs, prev, s)
    ensures WalkUncut(cx, diff, cs[0], prev, s) && PassUncut(cx, diff, cs[1..], prev, Walked(cx, diff, cs[0], prev, s))
    ensures SyncThreads(cx, diff, cs, prev, s, total) == SyncThreads(cx, diff, cs[1..], prev, Walked(cx, diff, cs[0], prev, s), t)
  {
    hide SyncThreads, SyncReplies;
    ThreadsUnfold(cx, diff, cs, prev, s, total);
    t := if NeedsWalk(cs[0], prev, diff) then total + SyncReplies(cx, cs[0].id, s).total else total;
  }

  lemma {:induction false} PassesAgree(c1: Ctx, d1: bool, c2: Ctx, d2: bool, i: nat, cs: seq<Comment>, prev: map<Id, nat>,
                                       s1: St, s2: St, t1: nat, t2: nat)
    requires SamePlace(c1, c2) && s1.rows == s2.rows && DistinctIds(cs)
    requires Faithful(c1.rem) && Counted(c1.rem) && Sound(c1, s1.rows)
    requires forall c :: c in cs ==> Waiting(c1, s1.rows, prev, i, c)
    requires PassUncut(c1, d1, cs, prev, s1) && PassUncut(c2, d2, cs, prev, s2)
    ensures var r1, r2 := SyncThreads(c1, d1, cs, prev, s1, t1), SyncThreads(c2, d2, cs, prev, s2, t2);
            && !r1.raised && !r2.raised
            && r1.st.rows == r2.st.rows
            && Sound(c1, r1.st.rows) && Keeps(c1, s1.rows, r1.st.rows)
            && SameBeyond(s1.rows, r1.st.rows, Ids(cs))
            && forall c :: c in cs ==> Stored(r1.st.rows, c1.post, c.id, Thread(c1.rem, c.id))
    decreases |cs|
  {
    hide SyncThreads, SyncReplies, Walked, WalkUncut, PassUncut, Faithful, Sound, Keeps, Stored, Counted, Waiting,
         SameBeyond, NeedsWalk, Thread;
    if cs == [] {
      ThreadsUnfold(c1, d1, cs, prev, s1, t1);
      ThreadsUnfold(c2, d2, cs, prev, s2, t2);
      KeepsItself(c1, s1.rows, Failed);
      BeyondItself(s1.rows);
      assert Ids(cs) == {};
    } else {
      var c, rest := cs[0], cs[1..];
      var u1 := PassStep(c1, d1, cs, prev, s1, t1);
      var u2 := PassStep(c2, d2, cs, prev, s2, t2);
      OneThread(c1, d1, c2, d2, i, c, prev, s1, s2);
      OneWalk(c1, d1, i, c, prev, s1);
      var m1, m2 := Walked(c1, d1, c, prev, s1), Walked(c2, d2, c, prev, s2);
      RestIsDistinct(cs);
      forall d | d in rest
        ensures Waiting(c1, m1.rows, prev, i, d)
      {
        StillWaiting(c1, s1.rows, m1.rows, prev, i, c.id, d);
      }
      PassesAgree(c1, d1, c2, d2, i, rest, prev, m1, m2, u1, u2);
      var r := SyncThreads(c1, d1, rest, prev, m1, u1).st.rows;
      KeepsTransitive(c1, s1.rows, m1.rows, r);
      BeyondTransitive(s1.rows, m1.rows, r, {c.id}, Ids(rest));
      StoredBeyond(m1.rows, r, Ids(rest), c1.post, c.id, Thread(c1.rem, c.id));
    }
  }

  lemma BeyondItself(a: Table)
    ensures SameBeyond(a, a, {})
  {
  }

  lemma RestIsDistinct(cs: seq<Comment>)
    requires cs != [] && DistinctIds(cs)
    ensures DistinctIds(cs[1..]) && cs[0].id !in Ids(cs[1..])
    ensures Ids(cs) == {cs[0].id} + Ids(cs[1..])
    ensures forall d :: d in cs[1..] ==> d in cs && d.id != cs[0].id
    ensures forall d :: d in cs ==> d == cs[0] || d in cs[1..]
  {
    var rest := cs[1..];
    assert cs == [cs[0]] + rest;
    forall d | d in rest
      ensures d.id != cs[0].id
    {
      var k :| 0 <= k < |rest| && rest[k] == d;
      assert cs[k + 1] == d;
    }
  }

  // ---------- one page, one sync ----------

  // Upserting page i leaves its comments waiting for their walks, and every
  // other stored comment with the prefix it had.
  lemma PageWaits(cx: Ctx, rows: Table, i: nat)
    requires Faithful(cx.rem) && Counted(cx.rem) && Mirror(rows, cx.rem, cx.post)
    ensures var page := PageAt(cx.rem.pages, i);
            var prev, rows' := PreviousChildCounts(rows, page), Upsert(rows, cx.post, None, page);
            && Sound(cx, rows) && Sound(cx, rows') && Keeps(cx, rows, rows')
            && (forall c :: c in page ==> c.id in rows' && Waiting(cx, rows', prev, i, c) && rows'[c.id].childCount == c.childCount)
            && (forall p :: StoredTop(rows', cx.post, p) && p !in Ids(page) ==> FirstN(rows', cx.rem, cx.post, p))
  {
    hide Faithful, Sound, Upsert, Keeps, Foreign;
    var page := PageAt(cx.rem.pages, i);
    var prev, rows' := PreviousChildCounts(rows, page), Upsert(rows, cx.post, None, page);
    MirrorIsSound(cx, rows);
    TopPageKeeps(cx, rows, i);
    assert rows' == Apply(cx, rows, TopPage(i));
    SameReplies(cx, rows, i);
    forall c | c in page
      ensures Waiting(cx, rows', prev, i, c) && rows'[c.id].childCount == c.childCount
    {
      assert Listed(cx.rem, None, i, c);
      PageMirrors(cx, rows, None, i, c);
      WaitingAfterUpsert(cx, rows, rows', i, c);
    }
    forall p | StoredTop(rows', cx.post, p) && p !in Ids(page)
      ensures FirstN(rows', cx.rem, cx.post, p)
    {
      assert StoredTop(rows, cx.post, p) && rows'[p] == rows[p];
      SameStored(rows, rows', cx.post, p, Thread(cx.rem, p)[..rows[p].childCount]);
    }
  }

  // A top-level upsert leaves the stored replies alone.
  lemma SameReplies(cx: Ctx, rows: Table, i: nat)
    requires Faithful(cx.rem) && Sound(cx, rows)
    ensures var rows' := Upsert(rows, cx.post, None, PageAt(cx.rem.pages, i));
            && (forall id :: id in rows && rows[id].parent.Some? ==> id in rows' && rows'[id] == rows[id])
            && (forall id :: id in rows' && rows'[id].parent.Some? ==> id in rows && rows'[id] == rows[id])
            && (forall id :: id in rows' && id !in Ids(PageAt(cx.rem.pages, i)) ==> id in rows && rows'[id] == rows[id])
  {
    var page := PageAt(cx.rem.pages, i);
    PageAtIds(cx.rem.pages, i);
    UpsertWrote(cx, rows, None, page);
    WroteTops(cx, rows, Ids(page), Upsert(rows, cx.post, None, page));
  }

  lemma WroteTops(cx: Ctx, rows: Table, ids: set<Id>, rows': Table)
    requires Agrees(rows, cx.rem, cx.post)
    requires forall id :: id in ids ==> Place(cx.rem, id, None)
    requires Wrote(rows, cx.post, None, ids, rows')
    ensures forall id :: id in rows && rows[id].parent.Some? ==> id in rows' && rows'[id] == rows[id]
    ensures forall id :: id in rows' && rows'[id].parent.Some? ==> id in rows && rows'[id] == rows[id]
    ensures forall id :: id in rows' && id !in ids ==> id in rows && rows'[id] == rows[id]
  {
    hide Place;
    assert forall id :: id in ids && id in rows ==> Place(cx.rem, id, None) && rows[id].parent == None;
  }

  lemma SameStored(a: Table, b: Table, post: PostId, p: Id, cs: seq<Comment>)
    requires forall id :: id in a && a[id].parent.Some? ==> id in b && b[id] == a[id]
    requires forall id :: id in b && b[id].parent.Some? ==> id in a && b[id] == a[id]
    requires Stored(a, post, p, cs)
    ensures Stored(b, post, p, cs)
  {
    assert StoredReplies(a, p) == StoredReplies(b, p);
  }

  lemma WaitingAfterUpsert(cx: Ctx, rows: Table, rows': Table, i: nat, c: Comment)
    requires Faithful(cx.rem) && Counted(cx.rem) && Mirror(rows, cx.rem, cx.post) && Sound(cx, rows)
    requires Listed(cx.rem, None, i, c) && Mirrors(rows', cx.post, None, c)
    requires forall id :: id in rows && rows[id].parent.Some? ==> id in rows' && rows'[id] == rows[id]
    requires forall id :: id in rows' && rows'[id].parent.Some? ==> id in rows && rows'[id] == rows[id]
    ensures Waiting(cx, rows', PreviousChildCounts(rows, PageAt(cx.rem.pages, i)), i, c)
  {
    hide Faithful, Sound, Foreign;
    var page := PageAt(cx.rem.pages, i);
    var prev, whole := PreviousChildCounts(rows, page), Thread(cx.rem, c.id);
    ListedPlace(cx.rem, None, i, c);
    TopPlace(cx, rows, c.id);
    assert c.id in Ids(page);
    if c.id in rows {
      assert PreviousCount(prev, c) == rows[c.id].childCount;
      assert FirstN(rows, cx.rem, cx.post, c.id);
    } else {
      assert StoredReplies(rows, c.id) == {};
      assert whole[..0] == [];
    }
    SameStored(rows, rows', cx.post, c.id, whole[..PreviousCount(prev, c)]);
  }

  lemma TopPlace(cx: Ctx, rows: Table, p: Id)
    requires Sound(cx, rows) && Place(cx.rem, p, None)
    ensures p in rows ==> StoredTop(rows, cx.post, p)
  {
  }

  // The state after page i was written, its threads still to be walked.
  function AfterPage(cx: Ctx, i: nat, s: St): St {
    s.Put(Upsert(s.rows, cx.post, None, PageAt(cx.rem.pages, i)), TopPage(i))
  }

  // The pass over page i in a sync that starts it in state s.
  function PassOf(cx: Ctx, diff: bool, i: nat, s: St, total: nat): Pass {
    var page := PageAt(cx.rem.pages, i);
    SyncThreads(cx, diff, page, PreviousChildCounts(s.rows, page), AfterPage(cx, i, s), total + |page|)
  }

  ghost predicate PageUncut(cx: Ctx, diff: bool, i: nat, s: St) {
    var page := PageAt(cx.rem.pages, i);
    PassUncut(cx, diff, page, PreviousChildCounts(s.rows, page), AfterPage(cx, i, s))
  }

  // A page and its threads keep the mirror, whichever sync walks them.
  lemma PageAgrees(c1: Ctx, d1: bool, c2: Ctx, d2: bool, i: nat, s1: St, s2: St, t1: nat, t2: nat)
    requires SamePlace(c1, c2) && s1.rows == s2.rows
    requires Faithful(c1.rem) && Counted(c1.rem) && Mirror(s1.rows, c1.rem, c1.post)
    requires PageUncut(c1, d1, i, s1) && PageUncut(c2, d2, i, s2)
    ensures var r1, r2 := PassOf(c1, d1, i, s1, t1), PassOf(c2, d2, i, s2, t2);
            && !r1.raised && !r2.raised && r1.st.rows == r2.st.rows
            && Keeps(c1, s1.rows, r1.st.rows)
            && Mirror(r1.st.rows, c1.rem, c1.post)
  {
    hide Faithful, Sound, Keeps, Upsert, SyncThreads, PassUncut, Counted, Waiting, Mirror, PreviousChildCounts, Stored,
         FirstN, SameBeyond, Thread, Ids, DistinctIds, StoredTop;
    var page := PageAt(c1.rem.pages, i);
    var prev, a1, a2 := PreviousChildCounts(s1.rows, page), AfterPage(c1, i, s1), AfterPage(c2, i, s2);
    PageWaits(c1, s1.rows, i);
    PageIsDistinct(c1.rem, i);
    PassesAgree(c1, d1, c2, d2, i, page, prev, a1, a2, t1 + |page|, t2 + |page|);
    var r := SyncThreads(c1, d1, page, prev, a1, t1 + |page|).st.rows;
    KeepsTransitive(c1, s1.rows, a1.rows, r);
    PassKeepsMirror(c1, s1.rows, a1.rows, r, i);
  }

  lemma PageIsDistinct(rem: Remote, i: nat)
    requires Faithful(rem)
    ensures DistinctIds(PageAt(rem.pages, i))
  {
  }

  lemma PassKeepsMirror(cx: Ctx, start: Table, a: Table, b: Table, i: nat)
    requires Faithful(cx.rem) && Counted(cx.rem)
    requires Mirror(start, cx.rem, cx.post) && Keeps(cx, start, b) && Sound(cx, b)
    requires SameBeyond(a, b, Ids(PageAt(cx.rem.pages, i)))
    requires forall c :: c in PageAt(cx.rem.pages, i) ==>
               c.id in a && a[c.id].childCount == c.childCount && Stored(b, cx.post, c.id, Thread(cx.rem, c.id))
    requires forall p :: StoredTop(a, cx.post, p) && p !in Ids(PageAt(cx.rem.pages, i)) ==> FirstN(a, cx.rem, cx.post, p)
    ensures Mirror(b, cx.rem, cx.post)
  {
    hide Stored, Thread;
    var page := PageAt(cx.rem.pages, i);
    forall p | StoredTop(b, cx.post, p)
      ensures FirstN(b, cx.rem, cx.post, p)
    {
      assert p in a && a[p] == b[p];
      if p in Ids(page) {
        var c :| c in page && c.id == p;
        assert Listed(cx.rem, None, i, c);
        assert Thread(cx.rem, p)[..c.childCount] == Thread(cx.rem, p);
        ListedPlace(cx.rem, None, i, c);
      } else {
        StoredBeyond(a, b, Ids(page), cx.post, p, Thread(cx.rem, p)[..a[p].childCount]);
      }
    }
    ForeignKept(cx, start, b);
  }

  lemma ForeignKept(cx: Ctx, a: Table, b: Table)
    requires Keeps(cx, a, b) && Foreign(a, cx.rem, cx.post)
    ensures Foreign(b, cx.rem, cx.post)
  {
    hide Place, OnRemote;
  }

  // No reply walk of the sync that was due is cut short.
  ghost predicate TopUncut(cx: Ctx, diff: bool, after: Option<nat>, fuel: nat, s: St, total: nat)
    decreases fuel
  {
    var i := PageIndex(after);
    fuel == 0 || Full(cx, s.rows) || cx.net(|s.log|) || PageAt(cx.rem.pages, i) == [] ||
    (PageUncut(cx, diff, i, s) &&
      var pass := PassOf(cx, diff, i, s, total);
      pass.raised || !HasMore(cx.rem.pages, i) || TopUncut(cx, diff, Some(i + 1), fuel - 1, pass.st, pass.total))
  }

  ghost predicate Uncut(cx: Ctx, diff: bool, post: Post, s: St) {
    TopUncut(cx, diff, post.cursor, MAX_COMMENT_PAGES, s, 0)
  }

  // Whether the walk reads its next page, and how it goes on if it does.
  lemma TopStep(cx: Ctx, diff: bool, after: Option<nat>, fuel: nat, s: St, seen: set<Id>, total: nat)
    returns (goes: bool, es: seq<Event>)
    requires Faithful(cx.rem)
    ensures var i, w := PageIndex(after), TopPages(cx, diff, after, fuel, s, seen, total);
            var page, pass, seen' := PageAt(cx.rem.pages, i), PassOf(cx, diff, i, s, total), seen + Ids(PageAt(cx.rem.pages, i));
            && goes == (fuel != 0 && !Full(cx, s.rows) && !cx.net(|s.log|))
            && w.st.log == s.log + es
            && (!goes ==> w.st.rows == s.rows && w.seen == seen && w.after == after && w.end != Complete && TopReads(es) == [])
            && (goes ==> es != [] && es[0] == TopPage(i))
            && (goes && page == [] ==> w == TopWalk(s.Add(TopPage(i)), seen, total, after, Complete))
            && (goes && page != [] && !pass.raised && !HasMore(cx.rem.pages, i) ==>
                  w == TopWalk(pass.st, seen', pass.total, after, Complete))
            && (goes && page != [] && !pass.raised && HasMore(cx.rem.pages, i) ==>
                  w == TopPages(cx, diff, Some(i + 1), fuel - 1, pass.st, seen', pass.total))
  {
    hide TopPages, SyncThreads, Faithful, Upsert, Ids, PreviousChildCounts, CountStored, SweptAfterReading;
    TopUnfold(cx, diff, after, fuel, s, seen, total);
    es := TopLogged(cx, diff, after, fuel, s, seen, total);
    goes := fuel != 0 && !Full(cx, s.rows) && !cx.net(|s.log|);
    var i := PageIndex(after);
    if !goes {
      NoTopReads(es);
    } else if PageAt(cx.rem.pages, i) != [] {
      var walks := PassLogged(cx, diff, i, s, total);
      var pass := PassOf(cx, diff, i, s, total);
      assert pass.st.log == s.log + ([TopPage(i)] + walks);
      if !pass.raised && HasMore(cx.rem.pages, i) {
        var rest := TopLogged(cx, diff, Some(i + 1), fuel - 1, pass.st, seen + Ids(PageAt(cx.rem.pages, i)), pass.total);
        assert s.log + es == s.log + ([TopPage(i)] + walks + rest);
        assert es == (s.log + es)[|s.log|..] == [TopPage(i)] + walks + rest;
      } else {
        assert es == (s.log + es)[|s.log|..] == [TopPage(i)] + walks;
      }
    }
  }

  // Everything a pass logs after its page belongs to reply walks.
  lemma PassLogged(cx: Ctx, diff: bool, i: nat, s: St, total: nat) returns (walks: seq<Event>)
    requires Faithful(cx.rem)
    ensures PassOf(cx, diff, i, s, total).st.log == s.log + [TopPage(i)] + walks
    ensures TopReads(walks) == []
  {
    hide SyncThreads, Faithful, Upsert, PreviousChildCounts, SweptAfterReading;
    var page := PageAt(cx.rem.pages, i);
    walks := ThreadsLogged(cx, diff, page, PreviousChildCounts(s.rows, page), AfterPage(cx, i, s), total + |page|);
    NoTopReads(walks);
  }

  // What two walks that start alike and read the same pages have in common.
  ghost predicate Alike(w1: TopWalk, w2: TopWalk) {
    w1.st.rows == w2.st.rows && w1.seen == w2.seen && w1.after == w2.after
  }

  // The pages that logs which continue `log` went on to read.
  function ReadsSince(before: seq<Event>, log: seq<Event>): seq<nat>
    requires |before| <= |log|
  {
    TopReads(log[|before|..])
  }

  lemma {:induction false} TopWalksAgree(c1: Ctx, d1: bool, c2: Ctx, d2: bool, after: Option<nat>, fuel: nat,
                                         s1: St, s2: St, seen: set<Id>, t1: nat, t2: nat,
                                         e1: seq<Event>, e2: seq<Event>)
    requires SamePlace(c1, c2) && s1.rows == s2.rows
    requires Faithful(c1.rem) && Counted(c1.rem) && Mirror(s1.rows, c1.rem, c1.post)
    requires TopUncut(c1, d1, after, fuel, s1, t1) && TopUncut(c2, d2, after, fuel, s2, t2)
    requires TopPages(c1, d1, after, fuel, s1, seen, t1).st.log == s1.log + e1
    requires TopPages(c2, d2, after, fuel, s2, seen, t2).st.log == s2.log + e2
    requires TopReads(e1) == TopReads(e2)
    ensures var w1, w2 := TopPages(c1, d1, after, fuel, s1, seen, t1), TopPages(c2, d2, after, fuel, s2, seen, t2);
            && Alike(w1, w2)
            && Keeps(c1, s1.rows, w1.st.rows)
            && Mirror(w1.st.rows, c1.rem, c1.post)
    decreases fuel
  {
    hide TopPages, PassOf, PageUncut, Faithful, Counted, Mirror, Keeps, Ids, CountStored, TopReads;
    var r1, x1 := TopStep(c1, d1, after, fuel, s1, seen, t1);
    var r2, x2 := TopStep(c2, d2, after, fuel, s2, seen, t2);
    assert x1 == (s1.log + x1)[|s1.log|..] == (s1.log + e1)[|s1.log|..] == e1;
    assert x2 == (s2.log + x2)[|s2.log|..] == (s2.log + e2)[|s2.log|..] == e2;
    var i := PageIndex(after);
    var page := PageAt(c1.rem.pages, i);
    BothRead(e1, e2, i, r1, r2);
    KeepsItself(c1, s1.rows, Failed);
    if r1 && page != [] {
      PageAgrees(c1, d1, c2, d2, i, s1, s2, t1, t2);
      if HasMore(c1.rem.pages, i) {
        var p1, p2 := PassOf(c1, d1, i, s1, t1), PassOf(c2, d2, i, s2, t2);
        var seen' := seen + Ids(page);
        var f1 := LaterReads(c1, d1, after, fuel, s1, seen, t1, e1);
        var f2 := LaterReads(c2, d2, after, fuel, s2, seen, t2, e2);
        assert TopReads(f1) == ([i] + TopReads(f1))[1..] == ([i] + TopReads(f2))[1..] == TopReads(f2);
        TopWalksAgree(c1, d1, c2, d2, Some(i + 1), fuel - 1, p1.st, p2.st, seen', p1.total, p2.total, f1, f2);
        KeepsTransitive(c1, s1.rows, p1.st.rows, TopPages(c1, d1, Some(i + 1), fuel - 1, p1.st, seen', p1.total).st.rows);
      }
    }
  }

  // Equal reads: both walks read their next page, or neither does.
  lemma BothRead(e1: seq<Event>, e2: seq<Event>, i: nat, r1: bool, r2: bool)
    requires TopReads(e1) == TopReads(e2)
    requires r1 ==> e1 != [] && e1[0] == TopPage(i)
    requires r2 ==> e2 != [] && e2[0] == TopPage(i)
    requires !r1 ==> TopReads(e1) == []
    requires !r2 ==> TopReads(e2) == []
    ensures r1 == r2
  {
    if r1 {
      FirstRead(e1, i);
    }
    if r2 {
      FirstRead(e2, i);
    }
  }

  lemma FirstRead(es: seq<Event>, i: nat)
    requires es != [] && es[0] == TopPage(i)
    ensures TopReads(es) == [i] + TopReads(es[1..])
  {
    assert es == [es[0]] + es[1..];
    TopReadsConcat([es[0]], es[1..]);
    assert TopReads([es[0]]) == [i] by {
      assert [es[0]][..0] == [];
    }
  }

  // The log of what follows the first page, and the pages it reads.
  lemma LaterReads(cx: Ctx, diff: bool, after: Option<nat>, fuel: nat, s: St, seen: set<Id>, total: nat, es: seq<Event>)
    returns (rest: seq<Event>)
    requires Faithful(cx.rem)
    requires fuel != 0 && !Full(cx, s.rows) && !cx.net(|s.log|) && PageAt(cx.rem.pages, PageIndex(after)) != []
    requires HasMore(cx.rem.pages, PageIndex(after)) && !PassOf(cx, diff, PageIndex(after), s, total).raised
    requires TopPages(cx, diff, after, fuel, s, seen, total).st.log == s.log + es
    ensures var i, page := PageIndex(after), PageAt(cx.rem.pages, PageIndex(after));
            var pass := PassOf(cx, diff, i, s, total);
            && TopPages(cx, diff, Some(i + 1), fuel - 1, pass.st, seen + Ids(page), pass.total).st.log == pass.st.log + rest
            && TopReads(es) == [i] + TopReads(rest)
  {
    hide TopPages, SyncThreads, Faithful, Upsert, Ids, PreviousChildCounts, CountStored, SweptAfterReading, TopReads;
    TopUnfold(cx, diff, after, fuel, s, seen, total);
    var i := PageIndex(after);
    var pass := PassOf(cx, diff, i, s, total);
    var walks := PassLogged(cx, diff, i, s, total);
    rest := TopLogged(cx, diff, Some(i + 1), fuel - 1, pass.st, seen + Ids(PageAt(cx.rem.pages, i)), pass.total);
    assert s.log + es == s.log + ([TopPage(i)] + (walks + rest));
    assert es == (s.log + es)[|s.log|..] == [TopPage(i)] + (walks + rest);
    FirstRead(es, i);
    assert es[1..] == walks + rest;
    TopReadsConcat(walks, rest);
  }

  lemma CloseKeepsMirror(cx: Ctx, rows: Table)
    requires Faithful(cx.rem) && Mirror(rows, cx.rem, cx.post)
    ensures Mirror(Apply(cx, rows, Closed(true)), cx.rem, cx.post)
    ensures Keeps(cx, rows, Apply(cx, rows, Closed(true)))
  {
    hide Faithful, Foreign, Thread, TopIds;
    MirrorIsSound(cx, rows);
    CloseKeeps(cx, rows);
    var rows' := Apply(cx, rows, Closed(true));
    ForeignKept(cx, rows, rows');
    forall p | StoredTop(rows', cx.post, p)
      ensures FirstN(rows', cx.rem, cx.post, p)
    {
      assert FirstN(rows, cx.rem, cx.post, p);
      assert StoredReplies(rows', p) == StoredReplies(rows, p);
    }
  }

  // Two syncs stopped at the same point: they read the same top-level pages
  // and ended alike.
  ghost predicate SameStop(c1: Ctx, d1: bool, c2: Ctx, d2: bool, post: Post, s1: St, s2: St) {
    var o1, o2 := Sync(c1, d1, post, s1), Sync(c2, d2, post, s2);
    && |s1.log| <= |o1.st.log| && |s2.log| <= |o2.st.log|
    && ReadsSince(s1.log, o1.st.log) == ReadsSince(s2.log, o2.st.log)
    && o1.end == o2.end
  }

  // Two syncs from the same table, whatever threads they walk, whatever
  // fails and whatever their caps: if neither cuts short a walk that was due
  // and both stop at the same point, they leave the same table, cursor and
  // synced count, and every thread stored up to its count.
  lemma SyncsAgree(c1: Ctx, d1: bool, c2: Ctx, d2: bool, post: Post, s1: St, s2: St)
    requires SamePlace(c1, c2) && s1.rows == s2.rows
    requires Faithful(c1.rem) && Counted(c1.rem) && Mirror(s1.rows, c1.rem, c1.post)
    requires Uncut(c1, d1, post, s1) && Uncut(c2, d2, post, s2) && SameStop(c1, d1, c2, d2, post, s1, s2)
    ensures var o1, o2 := Sync(c1, d1, post, s1), Sync(c2, d2, post, s2);
            && o1.st.rows == o2.st.rows && o1.post == o2.post
            && Keeps(c1, s1.rows, o1.st.rows)
            && Mirror(o1.st.rows, c1.rem, c1.post)
  {
    hide TopPages, TopUncut, Faithful, FaithfulPages, Counted, Mirror, Keeps, DeleteMissing, CountStored, TopReads,
         SweptAfterReading;
    var w1 := TopPages(c1, d1, post.cursor, MAX_COMMENT_PAGES, s1, {}, 0);
    var e1 := TopLogged(c1, d1, post.cursor, MAX_COMMENT_PAGES, s1, {}, 0);
    var e2 := TopLogged(c2, d2, post.cursor, MAX_COMMENT_PAGES, s2, {}, 0);
    CloseReads(c1, d1, post, s1, e1);
    CloseReads(c2, d2, post, s2, e2);
    TopWalksAgree(c1, d1, c2, d2, post.cursor, MAX_COMMENT_PAGES, s1, s2, {}, 0, 0, e1, e2);
    if post.cursor.None? && w1.end == Complete {
      ListsAreFaithful(c1.rem, "");
      TopSeen(c1, d1, post.cursor, MAX_COMMENT_PAGES, s1, {}, 0);
      CloseKeepsMirror(c1, w1.st.rows);
      KeepsTransitive(c1, s1.rows, w1.st.rows, Apply(c1, w1.st.rows, Closed(true)));
    }
  }

  // Closing reads no page.
  lemma CloseReads(cx: Ctx, diff: bool, post: Post, s: St, es: seq<Event>)
    requires TopPages(cx, diff, post.cursor, MAX_COMMENT_PAGES, s, {}, 0).st.log == s.log + es
    ensures var o := Sync(cx, diff, post, s);
            |s.log| <= |o.st.log| && ReadsSince(s.log, o.st.log) == TopReads(es)
  {
    hide TopPages, DeleteMissing, CountStored;
    var o := Sync(cx, diff, post, s);
    var w := TopPages(cx, diff, post.cursor, MAX_COMMENT_PAGES, s, {}, 0);
    if w.end != Raised {
      var e := if cx.net(|w.st.log|) then Failed else Closed(post.cursor.None? && w.end == Complete);
      assert o.st.log[|s.log|..] == es + [e];
      TopReadsConcat(es, [e]);
      NoTopReads([e]);
    } else {
      assert o.st.log[|s.log|..] == es;
    }
  }

  // ---------- over any number of syncs ----------

  // Later remotes know every thread earlier ones did, each grown at its end.
  ghost predicate Grows(a: Remote, b: Remote) {
    && a.threads.Keys <= b.threads.Keys
    && forall p :: p in a.threads ==> Thread(a, p) <= Thread(b, p)
  }

  lemma MirrorGrows(rows: Table, a: Remote, b: Remote, post: PostId)
    requires Mirror(rows, a, post) && Grows(a, b) && Foreign(rows, b, post)
    ensures Mirror(rows, b, post)
  {
    forall p | StoredTop(rows, post, p)
      ensures FirstN(rows, b, post, p)
    {
      assert FirstN(rows, a, post, p);
      var n := rows[p].childCount;
      assert Thread(a, p)[..n] == Thread(b, p)[..n];
    }
  }

  // The remote as each sync of a series finds it.
  ghost predicate Series(rems: seq<Remote>) {
    && (forall k :: 0 <= k < |rems| ==> Faithful(rems[k]) && Counted(rems[k]))
    && (forall k :: 0 < k < |rems| ==> Grows(rems[k - 1], rems[k]))
  }

  function Undisturbed(rem: Remote, post: PostId): Ctx {
    Ctx(rem, (n: nat) => false, post, 0)
  }

  lemma UndisturbedIsCalm(rem: Remote, id: PostId)
    ensures Calm(Undisturbed(rem, id))
  {
  }

  // One sync of the post per context: its remote, its failures, its cap.
  function SyncSeries(cxs: seq<Ctx>, diff: bool, post: Post, s: St): (Post, St)
    decreases |cxs|
  {
    if cxs == [] then (post, s)
    else var o := Sync(cxs[0], diff, post, s); SyncSeries(cxs[1..], diff, o.post, o.st)
  }

  ghost predicate SamePlaces(a: seq<Ctx>, b: seq<Ctx>, id: PostId) {
    |a| == |b| && forall k :: 0 <= k < |a| ==> SamePlace(a[k], b[k]) && a[k].post == id
  }

  function Remotes(cxs: seq<Ctx>): (rems: seq<Remote>)
    ensures |rems| == |cxs| && forall k :: 0 <= k < |cxs| ==> rems[k] == cxs[k].rem
  {
    seq(|cxs|, k requires 0 <= k < |cxs| => cxs[k].rem)
  }

  // The k-th diffing and the k-th full sync cut no walk that was due short
  // and stop at the same point.
  ghost predicate InStep(a: seq<Ctx>, b: seq<Ctx>, p1: Post, s1: St, p2: Post, s2: St)
    requires |a| == |b|
    decreases |a|
  {
    a == [] ||
    (&& p1 == p2
     && Uncut(a[0], true, p1, s1) && Uncut(b[0], false, p2, s2) && SameStop(a[0], true, b[0], false, p1, s1, s2)
     && var o1, o2 := Sync(a[0], true, p1, s1), Sync(b[0], false, p2, s2);
        InStep(a[1..], b[1..], o1.post, o1.st, o2.post, o2.st))
  }

  // Over any series of growing remotes, whatever fails at top level and
  // whatever the caps: the diffing syncs store exactly what syncs that walk
  // every thread and stop at the same points store.
  lemma {:induction false} DiffingRefinesRewalking(a: seq<Ctx>, b: seq<Ctx>, id: PostId, post: Post, s1: St, s2: St)
    requires SamePlaces(a, b, id) && Series(Remotes(a)) && s1.rows == s2.rows
    requires forall k :: 0 <= k < |a| ==> Foreign(s1.rows, a[k].rem, id)
    requires a != [] ==> Mirror(s1.rows, a[0].rem, id)
    requires InStep(a, b, post, s1, post, s2)
    ensures var d, f := SyncSeries(a, true, post, s1), SyncSeries(b, false, post, s2);
            && d.0 == f.0 && d.1.rows == f.1.rows
            && (a != [] ==> Mirror(d.1.rows, a[|a| - 1].rem, id))
    decreases |a|
  {
    hide Sync, Uncut, SameStop, Faithful, Counted, Mirror, Grows, Keeps, Foreign;
    if a != [] {
      assert Remotes(a)[0] == a[0].rem;
      SyncsAgree(a[0], true, b[0], false, post, s1, s2);
      var o1, o2 := Sync(a[0], true, post, s1), Sync(b[0], false, post, s2);
      var rest := a[1..];
      SeriesRest(a);
      forall k | 0 <= k < |rest|
        ensures Foreign(o1.st.rows, rest[k].rem, id)
      {
        assert Foreign(s1.rows, a[k + 1].rem, id);
        ForeignElsewhere(a[0], s1.rows, o1.st.rows, a[k + 1].rem);
      }
      if rest != [] {
        assert Foreign(o1.st.rows, rest[0].rem, id) && rest[0] == a[1];
        MirrorGrows(o1.st.rows, a[0].rem, a[1].rem, id);
      }
      assert SamePlaces(a[1..], b[1..], id) by {
        assert forall k :: 0 <= k < |rest| ==> rest[k] == a[k + 1] && b[1..][k] == b[k + 1];
      }
      DiffingRefinesRewalking(rest, b[1..], id, o1.post, o1.st, o2.st);
    }
  }

  lemma SeriesRest(a: seq<Ctx>)
    requires a != [] && Series(Remotes(a))
    ensures Series(Remotes(a[1..]))
    ensures |a| > 1 ==> Grows(a[0].rem, a[1].rem)
  {
    hide Faithful, Counted, Grows;
    var all, rest := Remotes(a), Remotes(a[1..]);
    assert forall k :: 0 <= k < |rest| ==> rest[k] == all[k + 1];
    if |a| > 1 {
      assert Grows(all[0], all[1]);
    }
  }

  lemma ForeignElsewhere(cx: Ctx, a: Table, b: Table, rem: Remote)
    requires Keeps(cx, a, b) && Foreign(a, rem, cx.post)
    ensures Foreign(b, rem, cx.post)
  {
    hide Place, OnRemote;
  }

  // ---------- undisturbed syncs are uncut ----------

  lemma {:induction false} CalmWalkEnds(cx: Ctx, p: Id, i: nat, fuel: nat, s: St, seen: set<Id>, total: nat)
    requires Calm(cx) && fuel > 0 && |ThreadPages(cx.rem, p)| <= i + fuel
    ensures ReplyPages(cx, p, i, fuel, s, seen, total).end == Complete
    decreases fuel
  {
    hide ReplyPages, Upsert, Ids, CountStored;
    ReplyUnfold(cx, p, i, fuel, s, seen, total);
    var thread := ThreadPages(cx.rem, p);
    if HasMore(thread, i) {
      var s' := s.Put(Upsert(s.rows, cx.post, Some(p), thread[i]), ReplyPage(p, i));
      CalmWalkEnds(cx, p, i + 1, fuel - 1, s', seen + Ids(thread[i]), total + |thread[i]|);
    }
  }

  lemma {:induction false} CalmPassIsUncut(cx: Ctx, diff: bool, i: nat, cs: seq<Comment>, prev: map<Id, nat>, s: St)
    requires Calm(cx) && Fits(cx.rem) && forall c :: c in cs ==> Listed(cx.rem, None, i, c)
    ensures PassUncut(cx, diff, cs, prev, s)
    decreases |cs|
  {
    hide SyncReplies, Listed, Calm;
    if cs != [] {
      assert Listed(cx.rem, None, i, cs[0]);
      CalmThreadEnds(cx, cs[0].id, s);
      CalmPassIsUncut(cx, diff, i, cs[1..], prev, Walked(cx, diff, cs[0], prev, s));
    }
  }

  lemma CalmThreadEnds(cx: Ctx, p: Id, s: St)
    requires Calm(cx) && |ThreadPages(cx.rem, p)| <= MAX_REPLY_PAGES
    ensures SyncReplies(cx, p, s).end == Complete
  {
    hide ReplyPages, DeleteMissing;
    CalmWalkEnds(cx, p, 0, MAX_REPLY_PAGES, s, {}, 0);
  }

  lemma {:induction false} CalmTopIsUncut(cx: Ctx, diff: bool, after: Option<nat>, fuel: nat, s: St, total: nat)
    requires Calm(cx) && Fits(cx.rem)
    ensures TopUncut(cx, diff, after, fuel, s, total)
    decreases fuel
  {
    hide PassUncut, SyncThreads, Upsert, PreviousChildCounts, CountStored, Fits;
    if fuel > 0 {
      var i := PageIndex(after);
      var page, pass := PageAt(cx.rem.pages, i), PassOf(cx, diff, i, s, total);
      OnPage(cx.rem, i);
      CalmPassIsUncut(cx, diff, i, page, PreviousChildCounts(s.rows, page), AfterPage(cx, i, s));
      CalmTopIsUncut(cx, diff, Some(i + 1), fuel - 1, pass.st, pass.total);
    }
  }

  lemma OnPage(rem: Remote, i: nat)
    ensures forall c :: c in PageAt(rem.pages, i) ==> Listed(rem, None, i, c)
  {
  }

  // Without cap or failure, and with threads that fit in one walk, a sync
  // cuts nothing short.
  lemma CalmIsUncut(cx: Ctx, diff: bool, post: Post, s: St)
    requires Calm(cx) && Fits(cx.rem)
    ensures Uncut(cx, diff, post, s)
  {
    CalmTopIsUncut(cx, diff, post.cursor, MAX_COMMENT_PAGES, s, 0);
  }
}
