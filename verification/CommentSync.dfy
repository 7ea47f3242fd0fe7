// The imperative form of app/workers/comment_sync.py: a table and a client
// that change in place, and the two nested walks over them. Every method is
// proved equal to the function of CommentModel.dfy that bears its name.
module CommentSync {
  import opened Common
  import opened CommentModel

  // What one request brings back: a page, the next cursor, and whether
  // there is more.
  datatype Connection = Connection(comments: seq<Comment>, next: Option<nat>, hasMore: bool)

  function Connect(pages: seq<seq<Comment>>, i: nat): Connection {
    Connection(PageAt(pages, i), if HasMore(pages, i) then Some(i + 1) else None, HasMore(pages, i))
  }

  class Client {
    const rem: Remote
    const net: nat -> bool
    var log: seq<Event>

    constructor (rem: Remote, net: nat -> bool)
      ensures this.rem == rem && this.net == net && log == []
    {
      this.rem, this.net, log := rem, net, [];
    }

    method GetMediaComments(after: Option<nat>) returns (r: Option<Connection>)
      modifies this`log
      ensures r == if net(|old(log)|) then None else Some(Connect(rem.pages, PageIndex(after)))
      ensures log == old(log) + [if r.None? then Failed else TopPage(PageIndex(after))]
    {
      if net(|log|) {
        log, r := log + [Failed], None;
      } else {
        log, r := log + [TopPage(PageIndex(after))], Some(Connect(rem.pages, PageIndex(after)));
      }
    }

    method GetCommentReplies(parent: Id, after: Option<nat>) returns (r: Option<Connection>)
      modifies this`log
      ensures r == if net(|old(log)|) then None else Some(Connect(ThreadPages(rem, parent), PageIndex(after)))
      ensures log == old(log) + [if r.None? then Failed else ReplyPage(parent, PageIndex(after))]
    {
      if net(|log|) {
        log, r := log + [Failed], None;
      } else {
        log := log + [ReplyPage(parent, PageIndex(after))];
        r := Some(Connect(ThreadPages(rem, parent), PageIndex(after)));
      }
    }

    // The closing commit of a walk; it may fail like a request.
    method Commit(e: Event) returns (ok: bool)
      modifies this`log
      ensures ok == !net(|old(log)|)
      ensures log == old(log) + [if ok then e else Failed]
    {
      ok := !net(|log|);
      log := log + [if ok then e else Failed];
    }
  }

  class CommentTable {
    var rows: Table

    constructor ()
      ensures rows == map[]
    {
      rows := map[];
    }

    method UpsertCommentsBulk(post: PostId, parent: Option<Id>, comments: seq<Comment>)
      modifies this
      ensures rows == Upsert(old(rows), post, parent, comments)
    {
      rows := Upsert(rows, post, parent, comments);
    }

    method DeleteMissingComments(post: PostId, parent: Option<Id>, seen: set<Id>)
      modifies this
      ensures rows == DeleteMissing(old(rows), post, parent, seen)
    {
      var removed := Missing(rows, post, parent, seen);
      rows := rows - removed;
      if parent.None? && removed != {} {
        rows := rows - ChildrenOf(rows, removed);
      } else if parent.None? {
        assert rows - ChildrenOf(rows, removed) == rows;
      }
    }
  }

  class PostRecord {
    const id: PostId
    var cursor: Option<nat>
    var synced: nat

    constructor (id: PostId)
      ensures this.id == id && cursor == None && synced == 0
    {
      this.id, cursor, synced := id, None, 0;
    }

    function Columns(): Post
      reads this
    {
      Post(cursor, synced)
    }
  }

  // Walks one thread from its first page; sweeps it if the walk reached the end.
  method SyncRepliesOf(table: CommentTable, client: Client, post: PostId, parent: Id, cap: int)
    returns (total: nat, raised: bool)
    modifies table, client`log
    ensures var w := SyncReplies(Ctx(client.rem, client.net, post, cap), parent, old(St(table.rows, client.log)));
            St(table.rows, client.log) == w.st && total == w.total && raised == w.end.Raised?
  {
    hide ReplyPages, Upsert, DeleteMissing, CountStored, Ids;
    ghost var cx := Ctx(client.rem, client.net, post, cap);
    ghost var whole := ReplyPages(cx, parent, 0, MAX_REPLY_PAGES, St(table.rows, client.log), {}, 0);
    var after: Option<nat> := None;
    var seen: set<Id> := {};
    var truncated := true;
    total, raised := 0, false;
    var n := 0;
    while n < MAX_REPLY_PAGES
      invariant n <= MAX_REPLY_PAGES
      invariant truncated
      invariant ReplyPages(cx, parent, PageIndex(after), MAX_REPLY_PAGES - n,
                           St(table.rows, client.log), seen, total) == whole
    {
      ReplyUnfold(cx, parent, PageIndex(after), MAX_REPLY_PAGES - n, St(table.rows, client.log), seen, total);
      if cap > 0 && CountStored(table.rows, post) >= cap {
        break;
      }
      var r := client.GetCommentReplies(parent, after);
      if r.None? {
        raised := true;
        return;
      }
      var replies := r.value.comments;
      if replies == [] {
        truncated := false;
        break;
      }
      table.UpsertCommentsBulk(post, Some(parent), replies);
      total := total + |replies|;
      seen := seen + Ids(replies);
      if !r.value.hasMore || r.value.next.None? {
        truncated := false;
        break;
      }
      after := r.value.next;
      n := n + 1;
    }
    ReplyUnfold(cx, parent, PageIndex(after), MAX_REPLY_PAGES - n, St(table.rows, client.log), seen, total);
    assert whole == Walk(St(table.rows, client.log), seen, total, if truncated then Cut else Complete);
    if !truncated {
      var ok := client.Commit(Swept(parent));
      if !ok {
        raised := true;
        return;
      }
      table.DeleteMissingComments(post, Some(parent), seen);
    }
  }

  // The diff loop over one page of top-level comments.
  method SyncChangedThreads(table: CommentTable, client: Client, post: PostId, cap: int,
                            comments: seq<Comment>, prev: map<Id, nat>, total0: nat)
    returns (total: nat, raised: bool)
    modifies table, client`log
    ensures Pass(St(table.rows, client.log), total, raised)
         == SyncThreads(Ctx(client.rem, client.net, post, cap), true, comments, prev,
                        old(St(table.rows, client.log)), total0)
  {
    hide SyncReplies, SyncThreads;
    ghost var cx := Ctx(client.rem, client.net, post, cap);
    ghost var whole := SyncThreads(cx, true, comments, prev, St(table.rows, client.log), total0);
    total, raised := total0, false;
    assert comments[0..] == comments;
    for k := 0 to |comments|
      invariant !raised
      invariant SyncThreads(cx, true, comments[k..], prev, St(table.rows, client.log), total) == whole
    {
      var c := comments[k];
      ThreadsStep(cx, comments, k, prev, St(table.rows, client.log), total);
      if c.childCount > 0 && (c.id !in prev || prev[c.id] != c.childCount) {
        var n, failed := SyncRepliesOf(table, client, post, c.id, cap);
        if failed {
          raised := true;
          return;
        }
        total := total + n;
      }
    }
    assert comments[|comments|..] == [];
    ThreadsUnfold(cx, true, [], prev, St(table.rows, client.log), total);
  }

  // One unfolding of the diff loop, at position k of the page.
  lemma ThreadsStep(cx: Ctx, cs: seq<Comment>, k: nat, prev: map<Id, nat>, s: St, total: nat)
    requires k < |cs|
    ensures SyncThreads(cx, true, cs[k..], prev, s, total)
         == if !NeedsWalk(cs[k], prev, true) then SyncThreads(cx, true, cs[k + 1..], prev, s, total)
            else var w := SyncReplies(cx, cs[k].id, s);
                 if w.end == Raised then Pass(w.st, total, true)
                 else SyncThreads(cx, true, cs[k + 1..], prev, w.st, total + w.total)
  {
    hide SyncThreads, SyncReplies;
    assert cs[k..][1..] == cs[k + 1..];
    ThreadsUnfold(cx, true, cs[k..], prev, s, total);
  }

  method SyncCommentsForPost(table: CommentTable, client: Client, post: PostRecord, cap: int)
    returns (total: nat, raised: bool)
    modifies table, client`log, post
    ensures var o := Sync(Ctx(client.rem, client.net, post.id, cap), true, old(post.Columns()),
                          old(St(table.rows, client.log)));
            && St(table.rows, client.log) == o.st
            && post.Columns() == o.post
            && total == o.total
            && raised == o.end.Raised?
  {
    hide SyncThreads, TopPages, DeleteMissing, Upsert, CountStored, PreviousChildCounts, Ids;
    ghost var cx := Ctx(client.rem, client.net, post.id, cap);
    ghost var columns := post.Columns();
    ghost var whole := TopPages(cx, true, post.cursor, MAX_COMMENT_PAGES, St(table.rows, client.log), {}, 0);
    var startedFresh := post.cursor.None?;
    var after := post.cursor;
    var truncated, capHit := true, false;
    var seen: set<Id> := {};
    total, raised := 0, false;
    var n := 0;
    while n < MAX_COMMENT_PAGES
      invariant n <= MAX_COMMENT_PAGES
      invariant truncated && !capHit && !raised
      invariant post.Columns() == columns
      invariant TopPages(cx, true, after, MAX_COMMENT_PAGES - n,
                         St(table.rows, client.log), seen, total) == whole
    {
      TopUnfold(cx, true, after, MAX_COMMENT_PAGES - n, St(table.rows, client.log), seen, total);
      if cap > 0 && CountStored(table.rows, post.id) >= cap {
        capHit := true;
        break;
      }
      var r := client.GetMediaComments(after);
      if r.None? {
        raised := true;
        return;
      }
      var comments := r.value.comments;
      if comments == [] {
        truncated := false;
        break;
      }
      var prev := PreviousChildCounts(table.rows, comments);
      table.UpsertCommentsBulk(post.id, None, comments);
      total := total + |comments|;
      seen := seen + Ids(comments);
      total, raised := SyncChangedThreads(table, client, post.id, cap, comments, prev, total);
      if raised {
        return;
      }
      if !r.value.hasMore || r.value.next.None? {
        truncated := false;
        break;
      }
      after := r.value.next;
      n := n + 1;
    }
    TopUnfold(cx, true, after, MAX_COMMENT_PAGES - n, St(table.rows, client.log), seen, total);
    assert whole == TopWalk(St(table.rows, client.log), seen, total, after, if truncated then Cut else Complete);
    raised := CloseSync(table, client, post, startedFresh, truncated, capHit, seen, after, total, cx);
  }

  // Everything after the page loop, in one closing commit.
  method CloseSync(table: CommentTable, client: Client, post: PostRecord, startedFresh: bool,
                   truncated: bool, capHit: bool, seen: set<Id>, after: Option<nat>, total: nat,
                   ghost cx: Ctx)
    returns (raised: bool)
    requires cx.net == client.net && cx.post == post.id
    requires startedFresh == post.cursor.None?
    requires capHit ==> truncated
    modifies table, client`log, post
    ensures var w := TopWalk(old(St(table.rows, client.log)), seen, total, after,
                             if truncated then Cut else Complete);
            Outcome(St(table.rows, client.log), post.Columns(), total, if raised then Raised else w.end)
            == Close(cx, old(post.Columns()), w)
  {
    var ok := client.Commit(Closed(startedFresh && !truncated && !capHit));
    raised := !ok;
    if raised {
      return;
    }
    post.cursor := if truncated || capHit then after else None;
    if startedFresh && !truncated && !capHit {
      table.DeleteMissingComments(post.id, None, seen);
    }
    post.synced := CountStored(table.rows, post.id);
  }
}
