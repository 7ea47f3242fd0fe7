// Safety of the comment mirror against a fixed remote, for every sync: fresh,
// resumed, cut by a page limit or the cap, or stopped by a failing request.
//
// The log of a sync determines every table it commits, so each theorem is an
// invariant of one logged step, carried over the whole log.
module CommentSafety {
  import opened Common
  import opened CommentModel

  // ---------- the log as a run ----------

  // The table after event e.
  function Apply(cx: Ctx, rows: Table, e: Event): Table {
    match e
    case TopPage(i) => Upsert(rows, cx.post, None, PageAt(cx.rem.pages, i))
    case ReplyPage(p, i) => Upsert(rows, cx.post, Some(p), PageAt(ThreadPages(cx.rem, p), i))
    case Swept(p) => DeleteMissing(rows, cx.post, Some(p), ThreadIds(cx.rem, p))
    case Closed(tombstone) => if tombstone then DeleteMissing(rows, cx.post, None, TopIds(cx.rem)) else rows
    case Failed => rows
  }

  predicate StoredTop(rows: Table, post: PostId, p: Id) {
    p in rows && rows[p].post == post && rows[p].parent == None
  }

  predicate Enabled(cx: Ctx, rows: Table, e: Event) {
    match e
    case TopPage(_) => !Full(cx, rows)
    case ReplyPage(p, _) => !Full(cx, rows) && p in TopIds(cx.rem) && StoredTop(rows, cx.post, p)
    case Swept(p) => p in TopIds(cx.rem)
    case Closed(_) => true
    case Failed => true
  }

  function Replay(cx: Ctx, rows: Table, es: seq<Event>): Table
    decreases |es|
  {
    if es == [] then rows else Replay(cx, Apply(cx, rows, es[0]), es[1..])
  }

  predicate Allowed(cx: Ctx, rows: Table, es: seq<Event>)
    decreases |es|
  {
    es == [] || (Enabled(cx, rows, es[0]) && Allowed(cx, Apply(cx, rows, es[0]), es[1..]))
  }

  lemma {:induction false} ReplayConcat(cx: Ctx, rows: Table, a: seq<Event>, b: seq<Event>)
    ensures Replay(cx, rows, a + b) == Replay(cx, Replay(cx, rows, a), b)
    ensures Allowed(cx, rows, a + b) <==> Allowed(cx, rows, a) && Allowed(cx, Replay(cx, rows, a), b)
    decreases |a|
  {
    if a == [] {
      assert a + b == b;
    } else {
      assert (a + b)[1..] == a[1..] + b;
      ReplayConcat(cx, Apply(cx, rows, a[0]), a[1..], b);
    }
  }

  // ---------- invariants of the table ----------

  // No reply without its parent: a stored top-level comment of the same post.
  ghost predicate NoOrphans(rows: Table) {
    forall id :: id in rows && rows[id].parent.Some? ==> StoredTop(rows, rows[id].post, rows[id].parent.value)
  }

  // Where the remote has an id: at top level, or in one thread.
  ghost predicate Place(rem: Remote, id: Id, parent: Option<Id>) {
    match parent
    case None => id in rem.threads
    case Some(p) => p in rem.threads && id in ThreadIds(rem, p)
  }

  lemma PlaceIsUnique(rem: Remote, id: Id, a: Option<Id>, b: Option<Id>)
    requires Faithful(rem) && Place(rem, id, a) && Place(rem, id, b)
    ensures a == b
  {
    assert a.Some? ==> ThreadIds(rem, a.value) !! rem.threads.Keys;
    assert b.Some? ==> ThreadIds(rem, b.value) !! rem.threads.Keys;
  }

  // Stored ids the remote knows are stored where the remote has them.
  ghost predicate Agrees(rows: Table, rem: Remote, post: PostId) {
    forall id, parent :: id in rows && Place(rem, id, parent) ==> rows[id].post == post && rows[id].parent == parent
  }

  ghost predicate Sound(cx: Ctx, rows: Table) {
    NoOrphans(rows) && Agrees(rows, cx.rem, cx.post)
  }

  // What a sync may do to a table: comments on the remote stay where they
  // are, other posts' rows stay as they are.
  ghost predicate Keeps(cx: Ctx, a: Table, b: Table) {
    && (forall id :: id in a && (OnRemote(cx.rem, id) || a[id].post != cx.post) ==> id in b)
    && (forall id :: id in a && id in b ==>
          b[id].post == a[id].post && b[id].parent == a[id].parent && b[id].author == a[id].author)
    && (forall id :: id in a && a[id].post != cx.post ==> id in b && b[id] == a[id])
    && (forall id :: id in b && id !in a ==> b[id].post == cx.post && OnRemote(cx.rem, id))
  }

  lemma KeepsTransitive(cx: Ctx, a: Table, b: Table, c: Table)
    requires Keeps(cx, a, b) && Keeps(cx, b, c)
    ensures Keeps(cx, a, c)
  {
  }

  // ---------- upsert ----------

  lemma {:induction false} UpsertKeys(rows: Table, post: PostId, parent: Option<Id>, cs: seq<Comment>)
    requires forall c :: c in cs ==> c.id != ""
    ensures Upsert(rows, post, parent, cs).Keys == rows.Keys + Ids(cs)
    decreases |cs|
  {
    if cs != [] {
      assert cs == [cs[0]] + cs[1..];
      var mid := rows[cs[0].id := Merged(rows, post, parent, cs[0])];
      UpsertKeys(mid, post, parent, cs[1..]);
      assert Ids(cs) == {cs[0].id} + Ids(cs[1..]);
    }
  }

  lemma {:induction false} UpsertElsewhere(rows: Table, post: PostId, parent: Option<Id>, cs: seq<Comment>, id: Id)
    requires id in rows && id !in Ids(cs)
    ensures id in Upsert(rows, post, parent, cs)
    ensures Upsert(rows, post, parent, cs)[id] == rows[id]
    decreases |cs|
  {
    if cs != [] {
      assert cs == [cs[0]] + cs[1..];
      assert id !in Ids(cs[1..]);
      assert cs[0] in cs && id != cs[0].id;
      if cs[0].id == "" {
        UpsertElsewhere(rows, post, parent, cs[1..], id);
      } else {
        UpsertElsewhere(rows[cs[0].id := Merged(rows, post, parent, cs[0])], post, parent, cs[1..], id);
      }
    }
  }

  lemma {:induction false} UpsertOne(rows: Table, post: PostId, parent: Option<Id>, cs: seq<Comment>, k: nat)
    requires DistinctIds(cs)
    requires k < |cs| && cs[k].id != ""
    ensures cs[k].id in Upsert(rows, post, parent, cs)
    ensures Upsert(rows, post, parent, cs)[cs[k].id] == Merged(rows, post, parent, cs[k])
    decreases |cs|
  {
    var c0, rest := cs[0], cs[1..];
    var mid := if c0.id == "" then rows else rows[c0.id := Merged(rows, post, parent, c0)];
    if k == 0 {
      forall c | c in rest
        ensures c.id != c0.id
      {
        var j :| 0 <= j < |rest| && rest[j] == c;
        assert cs[0].id != cs[j + 1].id;
      }
      UpsertElsewhere(mid, post, parent, rest, c0.id);
    } else {
      assert cs[0].id != cs[k].id && rest[k - 1] == cs[k];
      UpsertOne(mid, post, parent, rest, k - 1);
    }
  }

  // Everything an upsert of a page of distinct, genuine ids does.
  lemma UpsertEffect(rows: Table, post: PostId, parent: Option<Id>, cs: seq<Comment>)
    requires DistinctIds(cs)
    requires forall c :: c in cs ==> c.id != ""
    ensures Upsert(rows, post, parent, cs).Keys == rows.Keys + Ids(cs)
    ensures forall id :: id in rows && id !in Ids(cs) ==> Upsert(rows, post, parent, cs)[id] == rows[id]
    ensures forall c :: c in cs ==>
              c.id in Upsert(rows, post, parent, cs) &&
              Upsert(rows, post, parent, cs)[c.id] == Merged(rows, post, parent, c)
  {
    hide Upsert;
    UpsertKeys(rows, post, parent, cs);
    forall id | id in rows && id !in Ids(cs)
      ensures Upsert(rows, post, parent, cs)[id] == rows[id]
    {
      UpsertElsewhere(rows, post, parent, cs, id);
    }
    forall c | c in cs
      ensures c.id in Upsert(rows, post, parent, cs)
      ensures Upsert(rows, post, parent, cs)[c.id] == Merged(rows, post, parent, c)
    {
      var k :| 0 <= k < |cs| && cs[k] == c;
      UpsertOne(rows, post, parent, cs, k);
    }
  }

  // ---------- paging ----------

  lemma {:induction false} IdsUpToHas(pages: seq<seq<Comment>>, i: nat, n: nat)
    requires i < n <= |pages|
    ensures Ids(pages[i]) <= IdsUpTo(pages, n)
  {
    if i < n - 1 {
      IdsUpToHas(pages, i, n - 1);
    }
  }

  lemma {:induction false} IdsUpToPage(pages: seq<seq<Comment>>, n: nat, id: Id) returns (i: nat)
    requires n <= |pages| && id in IdsUpTo(pages, n)
    ensures i < n && id in Ids(pages[i])
  {
    if id in Ids(pages[n - 1]) {
      i := n - 1;
    } else {
      i := IdsUpToPage(pages, n - 1, id);
    }
  }

  lemma PageAtIds(pages: seq<seq<Comment>>, i: nat)
    requires FaithfulPages(pages)
    ensures Ids(PageAt(pages, i)) <= PageIds(pages)
    ensures DistinctIds(PageAt(pages, i))
    ensures forall c :: c in PageAt(pages, i) ==> c.id != ""
  {
    if i < |pages| {
      IdsUpToHas(pages, i, |pages|);
    }
  }

  // ---------- one step ----------

  // What writing a page under `parent` amounts to, row by row.
  ghost predicate Wrote(rows: Table, post: PostId, parent: Option<Id>, ids: set<Id>, rows': Table) {
    && rows'.Keys == rows.Keys + ids
    && (forall id :: id in rows && id !in ids ==> rows'[id] == rows[id])
    && (forall id :: id in ids ==> rows'[id].post == post && rows'[id].parent == parent)
    && (forall id :: id in ids && id in rows ==> rows'[id].author == rows[id].author)
  }

  lemma UpsertWrote(cx: Ctx, rows: Table, parent: Option<Id>, cs: seq<Comment>)
    requires Agrees(rows, cx.rem, cx.post)
    requires DistinctIds(cs) && forall c :: c in cs ==> c.id != ""
    requires forall id :: id in Ids(cs) ==> Place(cx.rem, id, parent)
    ensures Wrote(rows, cx.post, parent, Ids(cs), Upsert(rows, cx.post, parent, cs))
  {
    hide Upsert, Place;
    UpsertEffect(rows, cx.post, parent, cs);
    var rows' := Upsert(rows, cx.post, parent, cs);
    forall id | id in Ids(cs)
      ensures rows'[id].post == cx.post && rows'[id].parent == parent
      ensures id in rows ==> rows'[id].author == rows[id].author
    {
      var c :| c in cs && c.id == id;
      assert rows'[c.id] == Merged(rows, cx.post, parent, c);
    }
  }

  // A page written under `parent`, every id of it in its place.
  lemma WriteKeeps(cx: Ctx, rows: Table, parent: Option<Id>, ids: set<Id>, rows': Table)
    requires Faithful(cx.rem) && Sound(cx, rows)
    requires parent.Some? ==> StoredTop(rows, cx.post, parent.value)
    requires forall id :: id in ids ==> Place(cx.rem, id, parent) && OnRemote(cx.rem, id)
    requires Wrote(rows, cx.post, parent, ids, rows')
    ensures Sound(cx, rows') && Keeps(cx, rows, rows')
  {
    hide Faithful, OnRemote, Place;
    forall id, at | id in rows' && Place(cx.rem, id, at)
      ensures rows'[id].post == cx.post && rows'[id].parent == at
    {
      if id in ids {
        PlaceIsUnique(cx.rem, id, parent, at);
      }
    }
    forall id | id in rows
      ensures rows'[id].post == rows[id].post && rows'[id].parent == rows[id].parent
    {
      if id in ids {
        assert Place(cx.rem, id, parent);
      }
    }
    forall id | id in rows' && rows'[id].parent.Some?
      ensures StoredTop(rows', rows'[id].post, rows'[id].parent.value)
    {
    }
  }

  lemma TopPageKeeps(cx: Ctx, rows: Table, i: nat)
    requires Faithful(cx.rem) && Sound(cx, rows)
    ensures Sound(cx, Apply(cx, rows, TopPage(i))) && Keeps(cx, rows, Apply(cx, rows, TopPage(i)))
  {
    hide Keeps, Upsert, Wrote;
    PageAtIds(cx.rem.pages, i);
    var cs := PageAt(cx.rem.pages, i);
    UpsertWrote(cx, rows, None, cs);
    WriteKeeps(cx, rows, None, Ids(cs), Apply(cx, rows, TopPage(i)));
  }

  lemma ReplyPageKeeps(cx: Ctx, rows: Table, p: Id, i: nat)
    requires Faithful(cx.rem) && Sound(cx, rows)
    requires p in TopIds(cx.rem) && StoredTop(rows, cx.post, p)
    ensures Sound(cx, Apply(cx, rows, ReplyPage(p, i))) && Keeps(cx, rows, Apply(cx, rows, ReplyPage(p, i)))
  {
    hide Keeps, Upsert, Wrote;
    PageAtIds(ThreadPages(cx.rem, p), i);
    var cs := PageAt(ThreadPages(cx.rem, p), i);
    UpsertWrote(cx, rows, Some(p), cs);
    WriteKeeps(cx, rows, Some(p), Ids(cs), Apply(cx, rows, ReplyPage(p, i)));
  }

  // Rows that go are of this post, off the remote, and take their replies along.
  lemma DropKeeps(cx: Ctx, rows: Table, gone: set<Id>)
    requires Sound(cx, rows)
    requires forall id :: id in gone && id in rows ==> rows[id].post == cx.post && !OnRemote(cx.rem, id)
    requires forall id :: id in rows && rows[id].parent.Some? && rows[id].parent.value in gone ==> id in gone
    ensures Sound(cx, rows - gone) && Keeps(cx, rows, rows - gone)
  {
    hide OnRemote, Place;
  }

  lemma SweepKeeps(cx: Ctx, rows: Table, p: Id)
    requires Faithful(cx.rem) && Sound(cx, rows) && p in TopIds(cx.rem)
    ensures Sound(cx, Apply(cx, rows, Swept(p))) && Keeps(cx, rows, Apply(cx, rows, Swept(p)))
  {
    hide OnRemote, Place, Faithful, ThreadIds, TopIds;
    var gone := Missing(rows, cx.post, Some(p), ThreadIds(cx.rem, p));
    forall id | id in gone
      ensures !OnRemote(cx.rem, id)
    {
      OffRemote(cx, rows, id);
    }
    DropKeeps(cx, rows, gone);
  }

  // A stored row is on the remote just when its own place lists it.
  lemma OffRemote(cx: Ctx, rows: Table, id: Id)
    requires Faithful(cx.rem) && Sound(cx, rows) && id in rows
    ensures OnRemote(cx.rem, id) ==> match rows[id].parent
              case None => id in TopIds(cx.rem)
              case Some(p) => p in TopIds(cx.rem) && id in ThreadIds(cx.rem, p)
  {
    if id in TopIds(cx.rem) {
      assert Place(cx.rem, id, None);
    } else if OnRemote(cx.rem, id) {
      var p :| p in TopIds(cx.rem) && id in ThreadIds(cx.rem, p);
      assert Place(cx.rem, id, Some(p));
    }
  }

  lemma CloseKeeps(cx: Ctx, rows: Table)
    requires Faithful(cx.rem) && Sound(cx, rows)
    ensures Sound(cx, Apply(cx, rows, Closed(true))) && Keeps(cx, rows, Apply(cx, rows, Closed(true)))
  {
    hide OnRemote, Place, Faithful, TopIds;
    var removed := Missing(rows, cx.post, None, TopIds(cx.rem));
    var rest := rows - removed;
    var gone := removed + ChildrenOf(rest, removed);
    forall id | id in gone
      ensures !OnRemote(cx.rem, id) && rows[id].post == cx.post
    {
      OffRemote(cx, rows, id);
    }
    assert rest - ChildrenOf(rest, removed) == rows - gone;
    DropKeeps(cx, rows, gone);
  }

  lemma StepKeeps(cx: Ctx, rows: Table, e: Event)
    requires Faithful(cx.rem) && Sound(cx, rows) && Enabled(cx, rows, e)
    ensures Sound(cx, Apply(cx, rows, e)) && Keeps(cx, rows, Apply(cx, rows, e))
  {
    hide Sound, Keeps, Apply, Faithful;
    match e
    case TopPage(i) => TopPageKeeps(cx, rows, i);
    case ReplyPage(p, i) => ReplyPageKeeps(cx, rows, p, i);
    case Swept(p) => SweepKeeps(cx, rows, p);
    case Closed(tombstone) => if tombstone { CloseKeeps(cx, rows); } else { KeepsItself(cx, rows, e); }
    case Failed => KeepsItself(cx, rows, e);
  }

  lemma KeepsItself(cx: Ctx, rows: Table, e: Event)
    requires e == Failed || e == Closed(false)
    ensures Apply(cx, rows, e) == rows && Keeps(cx, rows, rows)
  {
  }

  lemma {:induction false} ReplayKeeps(cx: Ctx, rows: Table, es: seq<Event>)
    requires Faithful(cx.rem) && Sound(cx, rows) && Allowed(cx, rows, es)
    ensures Sound(cx, Replay(cx, rows, es)) && Keeps(cx, rows, Replay(cx, rows, es))
    decreases |es|
  {
    hide Sound, Keeps, Apply, Faithful;
    if es == [] {
      KeepsItself(cx, rows, Failed);
    } else {
      var next := Apply(cx, rows, es[0]);
      StepKeeps(cx, rows, es[0]);
      ReplayKeeps(cx, next, es[1..]);
      KeepsTransitive(cx, rows, next, Replay(cx, next, es[1..]));
    }
  }
}
