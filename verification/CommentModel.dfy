// The comment mirror of app/workers/comment_sync.py: what the remote offers,
// what the comments table holds, and what one sync call computes.
//
// Everything here is a function; the class methods of CommentSync.dfy are
// proved equal to these functions, and the theorems are proved about them.
module CommentModel {
  import opened Common

  type Id = string
  type PostId = nat

  const MAX_COMMENT_PAGES: nat := 50
  const MAX_REPLY_PAGES: nat := 20

  // One comment as the remote shows it. `body` stands for every refreshed
  // column except the reply count; `author` for the columns written once.
  datatype Comment = Comment(id: Id, author: string, body: string, childCount: nat)

  // Top-level pages in paging order, and the pages of each comment's thread.
  // A cursor is the index of the page it asks for.
  datatype Remote = Remote(pages: seq<seq<Comment>>, threads: map<Id, seq<seq<Comment>>>)

  datatype Row = Row(post: PostId, parent: Option<Id>, author: string, body: string, childCount: nat)

  type Table = map<Id, Row>

  // What the sync did, in order: one entry per request or closing commit.
  datatype Event =
    | TopPage(index: nat)
    | ReplyPage(parent: Id, index: nat)
    | Swept(parent: Id)          // a thread walked to its end, its sweep committed
    | Closed(tombstone: bool)    // the final commit of a sync call
    | Failed                     // a request or closing commit that raised

  // The committed table and the history of the client that filled it.
  datatype St = St(rows: Table, log: seq<Event>) {
    function Add(e: Event): St { St(rows, log + [e]) }
    function Put(t: Table, e: Event): St { St(t, log + [e]) }
  }

  // One sync call's surroundings. `net(n)` says that the n-th request or
  // closing commit raises; a worker that dies there leaves the same table.
  datatype Ctx = Ctx(rem: Remote, net: nat -> bool, post: PostId, cap: int)

  // ---------- the remote ----------

  function PageAt(pages: seq<seq<Comment>>, i: nat): seq<Comment> {
    if i < |pages| then pages[i] else []
  }

  predicate HasMore(pages: seq<seq<Comment>>, i: nat) {
    i + 1 < |pages|
  }

  function ThreadPages(rem: Remote, p: Id): seq<seq<Comment>> {
    if p in rem.threads then rem.threads[p] else []
  }

  function Ids(cs: seq<Comment>): set<Id> {
    set c | c in cs :: c.id
  }

  // The ids on the first n pages.
  function IdsUpTo(pages: seq<seq<Comment>>, n: nat): set<Id>
    requires n <= |pages|
  {
    if n == 0 then {} else IdsUpTo(pages, n - 1) + Ids(pages[n - 1])
  }

  function PageIds(pages: seq<seq<Comment>>): set<Id> {
    IdsUpTo(pages, |pages|)
  }

  function TopIds(rem: Remote): set<Id> {
    PageIds(rem.pages)
  }

  function ThreadIds(rem: Remote, p: Id): set<Id> {
    PageIds(ThreadPages(rem, p))
  }

  // A comment a visitor of the post can see now.
  ghost predicate OnRemote(rem: Remote, id: Id) {
    id in TopIds(rem) || exists p :: p in TopIds(rem) && id in ThreadIds(rem, p)
  }

  predicate DistinctIds(cs: seq<Comment>) {
    forall i, j :: 0 <= i < j < |cs| ==> cs[i].id != cs[j].id
  }

  // Faithful paging of one list: only the last page may be empty, ids are
  // genuine, and no id shows up twice.
  ghost predicate FaithfulPages(pages: seq<seq<Comment>>) {
    && (forall i :: 0 <= i < |pages| - 1 ==> pages[i] != [])
    && (forall i :: 0 <= i < |pages| ==> DistinctIds(pages[i]))
    && (forall i :: 0 <= i < |pages| ==> forall c :: c in pages[i] ==> c.id != "")
    && (forall i, j :: 0 <= i < j < |pages| ==> Ids(pages[i]) !! Ids(pages[j]))
  }

  // Comment ids are global: one id, one place in the two-level tree.
  ghost predicate Faithful(rem: Remote) {
    && FaithfulPages(rem.pages)
    && TopIds(rem) <= rem.threads.Keys
    && (forall p :: p in rem.threads ==> FaithfulPages(rem.threads[p]))
    && (forall p :: p in rem.threads ==> ThreadIds(rem, p) !! rem.threads.Keys)
    && (forall p, q :: p in rem.threads && q in rem.threads && p != q ==>
          ThreadIds(rem, p) !! ThreadIds(rem, q))
  }

  // ---------- the table ----------

  // The row an upsert leaves for c: on conflict only the refreshed columns
  // change; post, parent and author stay as first written.
  function Merged(rows: Table, post: PostId, parent: Option<Id>, c: Comment): Row {
    if c.id in rows then rows[c.id].(body := c.body, childCount := c.childCount)
    else Row(post, parent, c.author, c.body, c.childCount)
  }

  function Upsert(rows: Table, post: PostId, parent: Option<Id>, cs: seq<Comment>): Table
    decreases |cs|
  {
    if cs == [] then rows
    else if cs[0].id == "" then Upsert(rows, post, parent, cs[1..])
    else Upsert(rows[cs[0].id := Merged(rows, post, parent, cs[0])], post, parent, cs[1..])
  }

  function PreviousChildCounts(rows: Table, cs: seq<Comment>): map<Id, nat> {
    map id | id in Ids(cs) && id in rows :: rows[id].childCount
  }

  function Missing(rows: Table, post: PostId, parent: Option<Id>, seen: set<Id>): set<Id> {
    set id | id in rows && rows[id].post == post && rows[id].parent == parent && id !in seen
  }

  function ChildrenOf(rows: Table, parents: set<Id>): set<Id> {
    set id | id in rows && rows[id].parent.Some? && rows[id].parent.value in parents
  }

  function DeleteMissing(rows: Table, post: PostId, parent: Option<Id>, seen: set<Id>): Table {
    var removed := Missing(rows, post, parent, seen);
    var rest := rows - removed;
    if parent.None? then rest - ChildrenOf(rest, removed) else rest
  }

  function StoredIds(rows: Table, post: PostId): set<Id> {
    set id | id in rows && rows[id].post == post
  }

  function CountStored(rows: Table, post: PostId): nat {
    |StoredIds(rows, post)|
  }

  predicate Full(cx: Ctx, rows: Table) {
    cx.cap > 0 && CountStored(rows, cx.post) >= cx.cap
  }

  // ---------- sync_replies ----------

  datatype End = Complete | Cut | Raised

  datatype Walk = Walk(st: St, seen: set<Id>, total: nat, end: End)

  function ReplyPages(cx: Ctx, p: Id, i: nat, fuel: nat, s: St, seen: set<Id>, total: nat): Walk
    decreases fuel
  {
    if fuel == 0 || Full(cx, s.rows) then Walk(s, seen, total, Cut)
    else if cx.net(|s.log|) then Walk(s.Add(Failed), seen, total, Raised)
    else
      var replies := PageAt(ThreadPages(cx.rem, p), i);
      if replies == [] then Walk(s.Add(ReplyPage(p, i)), seen, total, Complete)
      else
        var s' := s.Put(Upsert(s.rows, cx.post, Some(p), replies), ReplyPage(p, i));
        var seen', total' := seen + Ids(replies), total + |replies|;
        if !HasMore(ThreadPages(cx.rem, p), i) then Walk(s', seen', total', Complete)
        else ReplyPages(cx, p, i + 1, fuel - 1, s', seen', total')
  }

  function SyncReplies(cx: Ctx, p: Id, s: St): Walk {
    var w := ReplyPages(cx, p, 0, MAX_REPLY_PAGES, s, {}, 0);
    if w.end != Complete then w
    else if cx.net(|w.st.log|) then w.(st := w.st.Add(Failed), end := Raised)
    else w.(st := w.st.Put(DeleteMissing(w.st.rows, cx.post, Some(p), w.seen), Swept(p)))
  }

  // ---------- sync_comments_for_post ----------

  // Whether the thread of c is walked. With `diff` false every non-empty
  // thread is: the reference the diffing sync is compared with.
  predicate NeedsWalk(c: Comment, prev: map<Id, nat>, diff: bool) {
    c.childCount > 0 && (!diff || c.id !in prev || prev[c.id] != c.childCount)
  }

  datatype Pass = Pass(st: St, total: nat, raised: bool)

  function SyncThreads(cx: Ctx, diff: bool, cs: seq<Comment>, prev: map<Id, nat>, s: St, total: nat): Pass
  {
    if cs == [] then Pass(s, total, false)
    else if !NeedsWalk(cs[0], prev, diff) then SyncThreads(cx, diff, cs[1..], prev, s, total)
    else
      var w := SyncReplies(cx, cs[0].id, s);
      if w.end == Raised then Pass(w.st, total, true)
      else SyncThreads(cx, diff, cs[1..], prev, w.st, total + w.total)
  }

  datatype TopWalk = TopWalk(st: St, seen: set<Id>, total: nat, after: Option<nat>, end: End)

  function PageIndex(after: Option<nat>): nat {
    match after case None => 0 case Some(i) => i
  }

  function TopPages(cx: Ctx, diff: bool, after: Option<nat>, fuel: nat, s: St, seen: set<Id>, total: nat): TopWalk
    decreases fuel
  {
    if fuel == 0 || Full(cx, s.rows) then TopWalk(s, seen, total, after, Cut)
    else if cx.net(|s.log|) then TopWalk(s.Add(Failed), seen, total, after, Raised)
    else
      var i := PageIndex(after);
      var comments := PageAt(cx.rem.pages, i);
      if comments == [] then TopWalk(s.Add(TopPage(i)), seen, total, after, Complete)
      else
        var prev := PreviousChildCounts(s.rows, comments);
        var s1 := s.Put(Upsert(s.rows, cx.post, None, comments), TopPage(i));
        var pass := SyncThreads(cx, diff, comments, prev, s1, total + |comments|);
        var seen' := seen + Ids(comments);
        if pass.raised then TopWalk(pass.st, seen', pass.total, after, Raised)
        else if !HasMore(cx.rem.pages, i) then TopWalk(pass.st, seen', pass.total, after, Complete)
        else TopPages(cx, diff, Some(i + 1), fuel - 1, pass.st, seen', pass.total)
  }

  // The two post columns a sync maintains.
  datatype Post = Post(cursor: Option<nat>, synced: nat)

  datatype Outcome = Outcome(st: St, post: Post, total: nat, end: End)

  // What follows the page loop: cursor, tombstoning, the synced count.
  function Close(cx: Ctx, post: Post, w: TopWalk): Outcome {
    if w.end == Raised then Outcome(w.st, post, w.total, Raised)
    else if cx.net(|w.st.log|) then Outcome(w.st.Add(Failed), post, w.total, Raised)
    else
      var tombstone := post.cursor.None? && w.end == Complete;
      var rows := if tombstone then DeleteMissing(w.st.rows, cx.post, None, w.seen) else w.st.rows;
      var cursor := if w.end == Cut then w.after else None;
      Outcome(w.st.Put(rows, Closed(tombstone)), Post(cursor, CountStored(rows, cx.post)), w.total, w.end)
  }

  function Sync(cx: Ctx, diff: bool, post: Post, s: St): Outcome {
    Close(cx, post, TopPages(cx, diff, post.cursor, MAX_COMMENT_PAGES, s, {}, 0))
  }

  // ---------- one unfolding of each loop ----------

  lemma ReplyUnfold(cx: Ctx, p: Id, i: nat, fuel: nat, s: St, seen: set<Id>, total: nat)
    ensures ReplyPages(cx, p, i, fuel, s, seen, total)
         == if fuel == 0 || Full(cx, s.rows) then Walk(s, seen, total, Cut)
            else if cx.net(|s.log|) then Walk(s.Add(Failed), seen, total, Raised)
            else
              var replies := PageAt(ThreadPages(cx.rem, p), i);
              if replies == [] then Walk(s.Add(ReplyPage(p, i)), seen, total, Complete)
              else
                var s' := s.Put(Upsert(s.rows, cx.post, Some(p), replies), ReplyPage(p, i));
                if !HasMore(ThreadPages(cx.rem, p), i)
                then Walk(s', seen + Ids(replies), total + |replies|, Complete)
                else ReplyPages(cx, p, i + 1, fuel - 1, s', seen + Ids(replies), total + |replies|)
  {
    hide Upsert, CountStored, Ids;
  }

  lemma ThreadsUnfold(cx: Ctx, diff: bool, cs: seq<Comment>, prev: map<Id, nat>, s: St, total: nat)
    ensures SyncThreads(cx, diff, cs, prev, s, total)
         == if cs == [] then Pass(s, total, false)
            else if !NeedsWalk(cs[0], prev, diff) then SyncThreads(cx, diff, cs[1..], prev, s, total)
            else var w := SyncReplies(cx, cs[0].id, s);
                 if w.end == Raised then Pass(w.st, total, true)
                 else SyncThreads(cx, diff, cs[1..], prev, w.st, total + w.total)
  {
    hide SyncReplies;
  }

  lemma TopUnfold(cx: Ctx, diff: bool, after: Option<nat>, fuel: nat, s: St, seen: set<Id>, total: nat)
    ensures TopPages(cx, diff, after, fuel, s, seen, total)
         == if fuel == 0 || Full(cx, s.rows) then TopWalk(s, seen, total, after, Cut)
            else if cx.net(|s.log|) then TopWalk(s.Add(Failed), seen, total, after, Raised)
            else
              var i := PageIndex(after);
              var comments := PageAt(cx.rem.pages, i);
              if comments == [] then TopWalk(s.Add(TopPage(i)), seen, total, after, Complete)
              else
                var prev := PreviousChildCounts(s.rows, comments);
                var s1 := s.Put(Upsert(s.rows, cx.post, None, comments), TopPage(i));
                var pass := SyncThreads(cx, diff, comments, prev, s1, total + |comments|);
                var seen' := seen + Ids(comments);
                if pass.raised then TopWalk(pass.st, seen', pass.total, after, Raised)
                else if !HasMore(cx.rem.pages, i) then TopWalk(pass.st, seen', pass.total, after, Complete)
                else TopPages(cx, diff, Some(i + 1), fuel - 1, pass.st, seen', pass.total)
  {
    hide Upsert, CountStored, SyncThreads, Ids, PreviousChildCounts;
  }
}
