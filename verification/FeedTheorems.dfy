// What runs of the feed loop guarantee, interrupted or not.
module FeedTheorems {
  import opened Common
  import opened FeedModel

  // ---------- one page after another ----------

  lemma {:induction false} NewCodesConcat(known: set<Code>, a: seq<Item>, b: seq<Item>)
    ensures NewCodes(known, a + b) == NewCodes(known, a) + NewCodes(known, b)
    decreases |b|
  {
    if b == [] {
      assert a + b == a;
    } else {
      assert (a + b)[..|a + b| - 1] == a + b[..|b| - 1];
      NewCodesConcat(known, a, b[..|b| - 1]);
    }
  }

  lemma {:induction false} NewCodesAre(known: set<Code>, xs: seq<Item>)
    ensures forall c :: c in NewCodes(known, xs) <==> c in Codes(xs) && c !in known
    decreases |xs|
  {
    if xs != [] {
      NewCodesAre(known, xs[..|xs| - 1]);
      assert xs == xs[..|xs| - 1] + [xs[|xs| - 1]];
    }
  }

  lemma {:induction false} NewCodesDistinct(known: set<Code>, xs: seq<Item>)
    requires DistinctCodes(xs)
    ensures DistinctPosts(NewCodes(known, xs))
    decreases |xs|
  {
    if xs != [] {
      var front := xs[..|xs| - 1];
      NewCodesDistinct(known, front);
      NewCodesAre(known, front);
    }
  }

  // Two sets that agree on the codes of xs lead to the same scan.
  lemma {:induction false} SameScan(k: Knobs, bf: bool, a: set<Code>, b: set<Code>, xs: seq<Item>)
    requires forall x :: x in xs ==> (x.code in a <==> x.code in b)
    ensures StopIndex(k, bf, a, xs) == StopIndex(k, bf, b, xs)
    decreases |xs|
  {
    if xs != [] {
      SameScan(k, bf, a, b, xs[1..]);
    }
  }

  lemma {:induction false} SameNewCodes(a: set<Code>, b: set<Code>, xs: seq<Item>)
    requires forall x :: x in xs ==> (x.code in a <==> x.code in b)
    ensures NewCodes(a, xs) == NewCodes(b, xs)
    decreases |xs|
  {
    if xs != [] {
      SameNewCodes(a, b, xs[..|xs| - 1]);
    }
  }

  lemma {:induction false} StopIndexConcat(k: Knobs, bf: bool, known: set<Code>, a: seq<Item>, b: seq<Item>)
    ensures var m := StopIndex(k, bf, known, a);
            StopIndex(k, bf, known, a + b) == if m < |a| then m else |a| + StopIndex(k, bf, known, b)
    decreases |a|
  {
    if a == [] {
      assert a + b == b;
    } else {
      assert (a + b)[1..] == a[1..] + b;
      StopIndexConcat(k, bf, known, a[1..], b);
    }
  }

  lemma DistinctSplit(a: seq<Item>, b: seq<Item>)
    requires DistinctCodes(a + b)
    ensures DistinctCodes(a) && DistinctCodes(b)
    ensures forall x, y :: x in a && y in b ==> x.code != y.code
  {
    forall x, y | x in a && y in b
      ensures x.code != y.code
    {
      var i :| 0 <= i < |a| && a[i] == x;
      var j :| 0 <= j < |b| && b[j] == y;
      assert (a + b)[i] == x && (a + b)[|a| + j] == y;
    }
    assert forall i :: 0 <= i < |a| ==> (a + b)[i] == a[i];
    assert forall j :: 0 <= j < |b| ==> (a + b)[|a| + j] == b[j];
  }

  // ---------- a run visits a prefix of what is ahead ----------

  // The pages i, ..., j - 1.
  function Pages(feed: Feed, i: nat, j: nat): seq<Item>
    requires i <= j
    decreases j - i
  {
    if i == j then [] else PageAt(feed, i) + Pages(feed, i + 1, j)
  }

  ghost predicate NoStops(k: Knobs, bf: bool, known: set<Code>, xs: seq<Item>) {
    forall x :: x in xs ==> !StopsAt(k, bf, known, x)
  }

  // The run ended by its own rule and has looked at everything it wanted to:
  // it stopped, or the feed ended, on its last page or on an empty one.
  ghost predicate RanOut(feed: Feed, why: Why) {
    why in {Stopped, FeedEnded} || (why == EmptyPage && PagedFaithfully(feed))
  }

  // What a run from page i did, as seen from its first database.
  ghost predicate Visited(feed: Feed, k: Knobs, bf: bool, i: nat, db: Db, r: Result, v: seq<Item>) {
    && v <= FlatFrom(feed, i)
    && r.db.posts == db.posts + NewCodes(Known(db), v)
    && NoStops(k, bf, Known(db), v)
    && (RanOut(feed, r.why) ==> |v| == StopIndex(k, bf, Known(db), FlatFrom(feed, i)))
    && r.db.completed == (db.completed || (bf && r.why in {Stopped, FeedEnded}))
  }

  // The cursor it left: as found, or past pages visited in full.
  ghost predicate Left(feed: Feed, i: nat, db: Db, r: Result, v: seq<Item>) {
    r.db.cursor == db.cursor
    || r.db.completed
    || (r.db.cursor.Some? && i < r.db.cursor.value && Pages(feed, i, r.db.cursor.value) <= v)
  }

  lemma FlatStep(feed: Feed, i: nat)
    ensures FlatFrom(feed, i) == PageAt(feed, i) + (if i < |feed| then FlatFrom(feed, i + 1) else [])
    ensures i + 1 >= |feed| ==> FlatFrom(feed, i) == PageAt(feed, i)
  {
  }

  lemma VisitedOnePage(feed: Feed, k: Knobs, bf: bool, i: nat, db: Db, r: Result)
    requires PageAt(feed, i) != []
    requires var m := StopIndex(k, bf, Known(db), PageAt(feed, i));
             && r.db.posts == db.posts + NewCodes(Known(db), PageAt(feed, i)[..m])
             && r.why != EmptyPage
             && (r.why in {Stopped, FeedEnded} ==> m < |PageAt(feed, i)| || i + 1 >= |feed|)
             && r.db.completed == (db.completed || (bf && r.why in {Stopped, FeedEnded}))
    ensures Visited(feed, k, bf, i, db, r, PageAt(feed, i)[..StopIndex(k, bf, Known(db), PageAt(feed, i))])
  {
    var page := PageAt(feed, i);
    FlatStep(feed, i);
    StopIndexConcat(k, bf, Known(db), page, if i < |feed| then FlatFrom(feed, i + 1) else []);
  }

  lemma NoStopsMore(k: Knobs, bf: bool, a: set<Code>, b: set<Code>, xs: seq<Item>, ys: seq<Item>)
    requires StopIndex(k, bf, a, xs) == |xs| && NoStops(k, bf, b, ys)
    requires forall y :: y in ys ==> (y.code in a <==> y.code in b)
    ensures NoStops(k, bf, a, xs + ys)
  {
    hide StopIndex;
    forall x | x in xs + ys
      ensures !StopsAt(k, bf, a, x)
    {
      if x in xs {
        var j :| 0 <= j < |xs| && xs[j] == x;
      }
    }
  }

  // Codes inserted for one page say nothing about the pages after it.
  lemma LaterPagesUnaffected(db: Db, mid: Db, page: seq<Item>, rest: seq<Item>)
    requires DistinctCodes(page + rest) && mid.posts == db.posts + NewCodes(Known(db), page)
    ensures forall x :: x in rest ==> (x.code in Known(db) <==> x.code in Known(mid))
  {
    hide NewCodes, DistinctCodes;
    DistinctSplit(page, rest);
    NewCodesAre(Known(db), page);
    forall x | x in rest
      ensures x.code in Known(db) <==> x.code in Known(mid)
    {
      assert x.code !in Codes(page);
    }
  }

  lemma VisitedMore(feed: Feed, k: Knobs, bf: bool, i: nat, db: Db, mid: Db, r: Result, v: seq<Item>)
    requires i < |feed| && DistinctCodes(FlatFrom(feed, i))
    requires StopIndex(k, bf, Known(db), feed[i]) == |feed[i]|
    requires mid.posts == db.posts + NewCodes(Known(db), feed[i]) && mid.completed == db.completed
    requires Visited(feed, k, bf, i + 1, mid, r, v)
    ensures Visited(feed, k, bf, i, db, r, feed[i] + v)
  {
    hide StopIndex, NewCodes, StopsAt, FlatFrom, DistinctCodes, Known;
    var page, rest := feed[i], FlatFrom(feed, i + 1);
    FlatStep(feed, i);
    LaterPagesUnaffected(db, mid, page, rest);
    assert forall x :: x in v ==> x in rest;
    SameScan(k, bf, Known(db), Known(mid), rest);
    SameNewCodes(Known(db), Known(mid), v);
    NewCodesConcat(Known(db), page, v);
    StopIndexConcat(k, bf, Known(db), page, rest);
    NoStopsMore(k, bf, Known(db), Known(mid), page, v);
  }

  lemma {:induction false} WalkVisits(feed: Feed, k: Knobs, bf: bool, luck: nat -> Luck, n: nat, i: nat, db: Db, processed: nat)
    returns (v: seq<Item>)
    requires DistinctCodes(FlatFrom(feed, i))
    ensures var r := Walk(feed, k, bf, luck, n, i, db, processed);
            && Visited(feed, k, bf, i, db, r, v)
            && Left(feed, i, db, r, v)
            && (!bf ==> r.db.cursor == db.cursor)
    decreases |feed| - i
  {
    hide Walk, StopIndex, NewCodes, StopsAt, Visited, NoStops;
    WalkUnfold(feed, k, bf, luck, n, i, db, processed);
    var r := Walk(feed, k, bf, luck, n, i, db, processed);
    var page := PageAt(feed, i);
    if luck(n) == Cancel || luck(n) == FetchFails || page == [] {
      v := [];
      VisitedNothing(feed, k, bf, i, db, r);
    } else {
      var m := StopIndex(k, bf, Known(db), page);
      v := page[..m];
      if luck(n) == Dies || m < |page| || i + 1 >= |feed| {
        VisitedOnePage(feed, k, bf, i, db, r);
      } else {
        var added := NewCodes(Known(db), page[..m]);
        assert page[..m] == page;
        var db1 := db.(posts := db.posts + added);
        var mid := if bf then db1.(cursor := Some(i + 1)) else db1;
        FlatStep(feed, i);
        DistinctSplit(page, FlatFrom(feed, i + 1));
        var rest := WalkVisits(feed, k, bf, luck, n + 1, i + 1, mid, processed + |added|);
        VisitedMore(feed, k, bf, i, db, mid, r, rest);
        v := page + rest;
        LeftMore(feed, i, db, mid, r, rest, bf);
      }
    }
  }

  lemma VisitedNothing(feed: Feed, k: Knobs, bf: bool, i: nat, db: Db, r: Result)
    requires r.db == db && r.why !in {Stopped, FeedEnded}
    requires r.why == EmptyPage ==> PageAt(feed, i) == []
    ensures Visited(feed, k, bf, i, db, r, [])
  {
    FlatStep(feed, i);
    assert PagedFaithfully(feed) && PageAt(feed, i) == [] ==> i + 1 >= |feed|;
  }

  lemma LeftMore(feed: Feed, i: nat, db: Db, mid: Db, r: Result, v: seq<Item>, bf: bool)
    requires mid.cursor == (if bf then Some(i + 1) else db.cursor) && Left(feed, i + 1, mid, r, v)
    ensures Left(feed, i, db, r, PageAt(feed, i) + v)
  {
    var page := PageAt(feed, i);
    assert Pages(feed, i + 1, i + 1) == [] && Pages(feed, i, i + 1) == page + [];
    if bf && !r.db.completed {
      var j := r.db.cursor.value;
      assert Pages(feed, i, j) == page + Pages(feed, i + 1, j);
      assert Pages(feed, i + 1, j) <= v;
    }
  }

  // ---------- backfill ----------

  lemma {:induction false} FlatSplit(feed: Feed, i: nat, j: nat)
    requires i <= j
    ensures FlatFrom(feed, i) == Pages(feed, i, j) + FlatFrom(feed, j)
    decreases j - i
  {
    if i < j {
      FlatSplit(feed, i + 1, j);
      FlatStep(feed, i);
      if i >= |feed| {
        assert FlatFrom(feed, i) == [] == FlatFrom(feed, i + 1);
      }
    }
  }

  lemma {:induction false} PagesSplit(feed: Feed, i: nat, j: nat, l: nat)
    requires i <= j <= l
    ensures Pages(feed, i, l) == Pages(feed, i, j) + Pages(feed, j, l)
    decreases j - i
  {
    if i < j {
      PagesSplit(feed, i + 1, j, l);
    }
  }

  ghost predicate AllStored(posts: seq<Code>, xs: seq<Item>) {
    forall x :: x in xs ==> x.code in posts
  }

  // Every unpinned post the cutoff admits has a row.
  ghost predicate Backfilled(feed: Feed, k: Knobs, posts: seq<Code>) {
    forall x :: x in Flat(feed) && !x.pinned && Eligible(k, x) ==> x.code in posts
  }

  // No unpinned, eligible post is missing below a stored, unpinned one.
  ghost predicate Settled(flat: seq<Item>, k: Knobs, posts: seq<Code>) {
    forall a, b ::
      0 <= a < b < |flat| && !flat[a].pinned && flat[a].code in posts && !flat[b].pinned && Eligible(k, flat[b]) ==>
        flat[b].code in posts
  }

  // Rows are unique. Of `base`, the posts there were when the backfill began,
  // every one before the saved cursor has a row, and once completed every
  // unpinned one the cutoff admits. Posts that came later may be missing, but
  // only on top of everything stored.
  ghost predicate BackfillInv(feed: Feed, k: Knobs, db: Db, base: seq<Item>) {
    && DistinctPosts(db.posts)
    && (forall x :: x in base ==> x in Flat(feed))
    && (!db.completed && db.cursor.Some? ==>
          && Settled(Pages(feed, 0, db.cursor.value), k, db.posts)
          && forall x :: x in base && x in Pages(feed, 0, db.cursor.value) ==> x.code in db.posts)
    && (db.completed ==>
          && Settled(Flat(feed), k, db.posts)
          && forall x :: x in base && !x.pinned && Eligible(k, x) ==> x.code in db.posts)
  }

  // An account never scraped before.
  lemma FreshBackfill(feed: Feed, k: Knobs)
    ensures BackfillInv(feed, k, Db([], false, None), Flat(feed))
  {
  }

  lemma InsertsKeepDistinct(db: Db, v: seq<Item>)
    requires DistinctPosts(db.posts) && DistinctCodes(v)
    ensures DistinctPosts(db.posts + NewCodes(Known(db), v))
  {
    var added := NewCodes(Known(db), v);
    NewCodesDistinct(Known(db), v);
    NewCodesAre(Known(db), v);
    forall a, b | 0 <= a < b < |db.posts + added|
      ensures (db.posts + added)[a] != (db.posts + added)[b]
    {
      if a < |db.posts| <= b {
        assert db.posts[a] in Known(db) && added[b - |db.posts|] in added;
      }
    }
  }

  lemma VisitedIsStored(db: Db, v: seq<Item>)
    ensures AllStored(db.posts + NewCodes(Known(db), v), v)
  {
    NewCodesAre(Known(db), v);
  }

  // Past the first item that is too old nothing unpinned is eligible.
  lemma NothingEligibleAfter(k: Knobs, xs: seq<Item>, m: nat)
    requires NewestFirst(xs) && m < |xs| && TooOld(k, xs[m])
    ensures forall j :: m <= j < |xs| && !xs[j].pinned ==> !Eligible(k, xs[j])
  {
  }

  lemma NewestFirstTail(before: seq<Item>, ahead: seq<Item>)
    requires NewestFirst(before + ahead)
    ensures NewestFirst(ahead)
  {
    var all := before + ahead;
    assert forall a :: 0 <= a < |ahead| ==> ahead[a] == all[|before| + a];
  }

  // A backfill run that ran out has stored everything eligible from its
  // cursor on.
  lemma AheadIsStored(feed: Feed, k: Knobs, i: nat, db: Db, posts: seq<Code>, v: seq<Item>)
    requires NewestFirst(Flat(feed)) && AllStored(posts, v)
    requires v <= FlatFrom(feed, i) && |v| == StopIndex(k, true, Known(db), FlatFrom(feed, i))
    ensures forall x :: x in FlatFrom(feed, i) && !x.pinned && Eligible(k, x) ==> x.code in posts
  {
    hide StopIndex, NewestFirst, FlatFrom, Pages, Eligible;
    var ahead := FlatFrom(feed, i);
    FlatSplit(feed, 0, i);
    NewestFirstTail(Pages(feed, 0, i), ahead);
    if |v| < |ahead| {
      NothingEligibleAfter(k, ahead, |v|);
    }
    forall x | x in ahead && !x.pinned && Eligible(k, x)
      ensures x.code in posts
    {
      var j :| 0 <= j < |ahead| && ahead[j] == x;
      assert j < |v| && v[j] == x;
    }
  }

  // What the run inserts leaves the posts before its cursor as they were.
  lemma BeforeUntouched(feed: Feed, i: nat, db: Db, posts: seq<Code>, v: seq<Item>)
    requires DistinctCodes(Flat(feed)) && v <= FlatFrom(feed, i) && posts == db.posts + NewCodes(Known(db), v)
    ensures forall x :: x in Pages(feed, 0, i) ==> (x.code in posts <==> x.code in db.posts)
  {
    hide DistinctCodes, NewCodes;
    FlatSplit(feed, 0, i);
    DistinctSplit(Pages(feed, 0, i), FlatFrom(feed, i));
    NewCodesAre(Known(db), v);
    assert forall y :: y in v ==> y in FlatFrom(feed, i);
  }

  // Settled before a point and stored from there on is settled altogether.
  lemma SettledOn(k: Knobs, posts: seq<Code>, was: seq<Code>, before: seq<Item>, ahead: seq<Item>)
    requires Settled(before, k, was)
    requires forall x :: x in before ==> (x.code in posts <==> x.code in was)
    requires forall x :: x in ahead && !x.pinned && Eligible(k, x) ==> x.code in posts
    ensures Settled(before + ahead, k, posts)
  {
    var all := before + ahead;
    forall a, b | 0 <= a < b < |all| && !all[a].pinned && all[a].code in posts && !all[b].pinned && Eligible(k, all[b])
      ensures all[b].code in posts
    {
      if b < |before| {
        assert all[a] == before[a] && all[b] == before[b];
      } else {
        assert all[b] == ahead[b - |before|];
      }
    }
  }

  lemma BackfilledIsSettled(feed: Feed, k: Knobs, posts: seq<Code>)
    requires Backfilled(feed, k, posts)
    ensures Settled(Flat(feed), k, posts)
  {
    assert forall b :: 0 <= b < |Flat(feed)| ==> Flat(feed)[b] in Flat(feed);
  }

  // Where the run of a backfill starts, everything before is settled.
  lemma StartIsSettled(feed: Feed, k: Knobs, db: Db, base: seq<Item>)
    requires BackfillInv(feed, k, db, base) && !db.completed
    ensures Settled(Pages(feed, 0, Start(db)), k, db.posts)
    ensures forall x :: x in base && x in Pages(feed, 0, Start(db)) ==> x.code in db.posts
  {
  }

  // The three ways a backfilling run can leave its cursor: gone, where it
  // was, or further on.
  lemma BackfillEnds(feed: Feed, k: Knobs, db: Db, r: Db, base: seq<Item>)
    requires BackfillInv(feed, k, db, base) && !db.completed && r.completed && DistinctPosts(r.posts)
    requires forall x :: x in Pages(feed, 0, Start(db)) ==> (x.code in r.posts <==> x.code in db.posts)
    requires forall x :: x in FlatFrom(feed, Start(db)) && !x.pinned && Eligible(k, x) ==> x.code in r.posts
    ensures BackfillInv(feed, k, r, base)
  {
    hide Settled, DistinctPosts, Eligible;
    StartIsSettled(feed, k, db, base);
    FlatSplit(feed, 0, Start(db));
    SettledOn(k, r.posts, db.posts, Pages(feed, 0, Start(db)), FlatFrom(feed, Start(db)));
  }

  lemma BackfillMoves(feed: Feed, k: Knobs, db: Db, r: Db, base: seq<Item>)
    requires BackfillInv(feed, k, db, base) && !db.completed && !r.completed && DistinctPosts(r.posts)
    requires forall x :: x in Pages(feed, 0, Start(db)) ==> (x.code in r.posts <==> x.code in db.posts)
    requires r.cursor.Some? && Start(db) <= r.cursor.value && AllStored(r.posts, Pages(feed, Start(db), r.cursor.value))
    ensures BackfillInv(feed, k, r, base)
  {
    hide Settled, DistinctPosts, Eligible, Pages, Flat;
    StartIsSettled(feed, k, db, base);
    PagesSplit(feed, 0, Start(db), r.cursor.value);
    SettledOn(k, r.posts, db.posts, Pages(feed, 0, Start(db)), Pages(feed, Start(db), r.cursor.value));
  }

  lemma BackfillStays(feed: Feed, k: Knobs, db: Db, r: Db, base: seq<Item>)
    requires BackfillInv(feed, k, db, base) && !db.completed && !r.completed && DistinctPosts(r.posts)
    requires forall x :: x in Pages(feed, 0, Start(db)) ==> (x.code in r.posts <==> x.code in db.posts)
    requires r.cursor == db.cursor
    ensures BackfillInv(feed, k, r, base)
  {
    hide Settled, DistinctPosts, Eligible, Flat;
    StartIsSettled(feed, k, db, base);
    SettledOn(k, r.posts, db.posts, Pages(feed, 0, Start(db)), []);
    assert Pages(feed, 0, Start(db)) + [] == Pages(feed, 0, Start(db));
  }

  lemma BackfillingRun(feed: Feed, k: Knobs, luck: nat -> Luck, db: Db, base: seq<Item>)
    requires DistinctCodes(Flat(feed)) && NewestFirst(Flat(feed)) && BackfillInv(feed, k, db, base) && !db.completed
    ensures BackfillInv(feed, k, Scrape(feed, k, luck, db).db, base)
  {
    hide Walk, NewCodes, StopIndex, NoStops, Settled, DistinctCodes, NewestFirst, DistinctPosts, RanOut, BackfillInv,
         Pages, FlatFrom, Eligible;
    var i, r := Start(db), Scrape(feed, k, luck, db);
    FlatSplit(feed, 0, i);
    DistinctSplit(Pages(feed, 0, i), FlatFrom(feed, i));
    var v := WalkVisits(feed, k, true, luck, 0, i, db, 0);
    assert FlatFrom(feed, i) == v + FlatFrom(feed, i)[|v|..];
    DistinctSplit(v, FlatFrom(feed, i)[|v|..]);
    RowsStayUnique(feed, k, db, base, v);
    VisitedIsStored(db, v);
    BeforeUntouched(feed, i, db, r.db.posts, v);
    if r.db.completed {
      EndedIsOut(feed, r.why);
      AheadIsStored(feed, k, i, db, r.db.posts, v);
      BackfillEnds(feed, k, db, r.db, base);
    } else if r.db.cursor == db.cursor {
      BackfillStays(feed, k, db, r.db, base);
    } else {
      BackfillMoves(feed, k, db, r.db, base);
    }
  }

  lemma RowsStayUnique(feed: Feed, k: Knobs, db: Db, base: seq<Item>, v: seq<Item>)
    requires BackfillInv(feed, k, db, base) && DistinctCodes(v)
    ensures DistinctPosts(db.posts + NewCodes(Known(db), v))
  {
    InsertsKeepDistinct(db, v);
  }

  lemma EndedIsOut(feed: Feed, why: Why)
    ensures why in {Stopped, FeedEnded} ==> RanOut(feed, why)
  {
  }

  // One run, however it ends while it backfills, keeps the promise of the
  // cursor; so does a steady one that ends by its own rule.
  lemma RunKeepsBackfill(feed: Feed, k: Knobs, luck: nat -> Luck, db: Db, base: seq<Item>)
    requires DistinctCodes(Flat(feed)) && NewestFirst(Flat(feed)) && BackfillInv(feed, k, db, base)
    requires db.completed ==> RanOut(feed, Scrape(feed, k, luck, db).why)
    ensures BackfillInv(feed, k, Scrape(feed, k, luck, db).db, base)
    ensures db.completed ==> Backfilled(feed, k, Scrape(feed, k, luck, db).db.posts)
  {
    if !db.completed {
      BackfillingRun(feed, k, luck, db, base);
    } else {
      SteadyRun(feed, k, luck, db, base);
    }
  }

  lemma SteadyRun(feed: Feed, k: Knobs, luck: nat -> Luck, db: Db, base: seq<Item>)
    requires DistinctCodes(Flat(feed)) && NewestFirst(Flat(feed)) && BackfillInv(feed, k, db, base) && db.completed
    requires RanOut(feed, Scrape(feed, k, luck, db).why)
    ensures BackfillInv(feed, k, Scrape(feed, k, luck, db).db, base)
    ensures Backfilled(feed, k, Scrape(feed, k, luck, db).db.posts)
  {
    hide Walk, NewCodes, StopIndex, NoStops, DistinctCodes, NewestFirst, DistinctPosts, RanOut, SettledBelowWindow;
    var r := Scrape(feed, k, luck, db);
    SettledIsSettledBelow(Flat(feed), k, db.posts);
    SteadyRunMissesNothing(feed, k, luck, db);
    BackfilledIsSettled(feed, k, r.db.posts);
    var v := WalkVisits(feed, k, false, luck, 0, 0, db, 0);
    assert Flat(feed) == v + Flat(feed)[|v|..];
    DistinctSplit(v, Flat(feed)[|v|..]);
    InsertsKeepDistinct(db, v);
  }

  // ---------- backfill while the feed grows ----------

  // The feed only gained posts: unpinned, not stored yet, below the pinned
  // ones on top and above everything else.
  ghost predicate GainedAs(f: Feed, g: Feed, posts: seq<Code>, top: seq<Item>, newer: seq<Item>, rest: seq<Item>) {
    && Flat(f) == top + rest && Flat(g) == top + (newer + rest)
    && (forall x :: x in top ==> x.pinned)
    && (forall x :: x in newer ==> !x.pinned && x.code !in posts)
  }

  ghost predicate Gained(f: Feed, g: Feed, posts: seq<Code>) {
    exists top, newer, rest :: GainedAs(f, g, posts, top, newer, rest)
  }

  // A saved cursor stays with its place: page `at` of the grown feed starts
  // where the cursor pointed, or with the new posts if only pinned ones lie
  // before it.
  ghost predicate Follows(f: Feed, g: Feed, db: Db, at: nat) {
    !db.completed && db.cursor.Some? ==>
      || FlatFrom(g, at) == FlatFrom(f, db.cursor.value)
      || Pages(g, 0, at) == Pages(f, 0, db.cursor.value)
  }

  function Follow(db: Db, at: nat): Db {
    if !db.completed && db.cursor.Some? then db.(cursor := Some(at)) else db
  }

  // In a grown feed a stored, unpinned post has moved down by the new ones.
  lemma StoredMoved(f: Feed, g: Feed, posts: seq<Code>, top: seq<Item>, newer: seq<Item>, rest: seq<Item>, a: int)
    requires GainedAs(f, g, posts, top, newer, rest)
    requires 0 <= a < |Flat(g)| && !Flat(g)[a].pinned && Flat(g)[a].code in posts
    ensures |top| + |newer| <= a
    ensures forall b :: a <= b < |Flat(g)| ==> Flat(g)[b] == Flat(f)[b - |newer|]
  {
  }

  // A prefix of the grown feed is settled if the same prefix, less the new
  // posts, was.
  lemma GrownSettled(f: Feed, g: Feed, k: Knobs, posts: seq<Code>, p: seq<Item>, q: seq<Item>)
    requires Gained(f, g, posts) && p <= Flat(f) && q <= Flat(g) && |Flat(g)| - |q| == |Flat(f)| - |p|
    requires Settled(p, k, posts)
    ensures Settled(q, k, posts)
  {
    hide Flat, Eligible;
    var top, newer, rest :| GainedAs(f, g, posts, top, newer, rest);
    forall a, b | 0 <= a < b < |q| && !q[a].pinned && q[a].code in posts && !q[b].pinned && Eligible(k, q[b])
      ensures q[b].code in posts
    {
      StoredMoved(f, g, posts, top, newer, rest, a);
      assert q[a] == p[a - |newer|] && q[b] == p[b - |newer|];
    }
  }

  lemma GainedKeeps(f: Feed, g: Feed, posts: seq<Code>, x: Item)
    requires Gained(f, g, posts) && x in Flat(f)
    ensures x in Flat(g)
  {
    hide Flat;
    var top, newer, rest :| GainedAs(f, g, posts, top, newer, rest);
  }

  lemma GrowthKeepsCursor(f: Feed, g: Feed, k: Knobs, db: Db, at: nat, base: seq<Item>)
    requires DistinctCodes(Flat(g)) && Gained(f, g, db.posts) && Follows(f, g, db, at) && BackfillInv(f, k, db, base)
    requires !db.completed && db.cursor.Some?
    ensures Settled(Pages(g, 0, at), k, db.posts)
    ensures forall x :: x in base && x in Pages(g, 0, at) ==> x.code in db.posts
  {
    hide DistinctCodes, Gained, DistinctPosts, Settled;
    var i := db.cursor.value;
    FlatSplit(f, 0, i);
    FlatSplit(g, 0, at);
    if Pages(g, 0, at) != Pages(f, 0, i) {
      GrownSettled(f, g, k, db.posts, Pages(f, 0, i), Pages(g, 0, at));
      DistinctSplit(Pages(g, 0, at), FlatFrom(g, at));
      forall x | x in base && x in Pages(g, 0, at)
        ensures x.code in db.posts
      {
        assert x !in FlatFrom(g, at);
        assert x in Flat(f);
      }
    }
  }

  lemma GrowthKeepsBackfill(f: Feed, g: Feed, k: Knobs, db: Db, at: nat, base: seq<Item>)
    requires DistinctCodes(Flat(g)) && Gained(f, g, db.posts) && Follows(f, g, db, at) && BackfillInv(f, k, db, base)
    ensures BackfillInv(g, k, Follow(db, at), base)
  {
    hide DistinctCodes, Gained, DistinctPosts, Settled, Follows, Flat;
    forall x | x in base
      ensures x in Flat(g)
    {
      GainedKeeps(f, g, db.posts, x);
    }
    if db.completed {
      GrownSettled(f, g, k, db.posts, Flat(f), Flat(g));
    } else if db.cursor.Some? {
      GrowthKeepsCursor(f, g, k, db, at, base);
    }
  }

  // One run of the series: the feed it finds, where the saved cursor points
  // in it, what befalls it, and the comment window of the day.
  datatype Night = Night(feed: Feed, at: nat, luck: nat -> Luck, window: Option<int>)

  function RunOf(k: Knobs, n: Night, db: Db): Result {
    Scrape(n.feed, k.(window := n.window), n.luck, Follow(db, n.at))
  }

  function ScrapeNights(k: Knobs, nights: seq<Night>, db: Db): Db
    decreases |nights|
  {
    if nights == [] then db else ScrapeNights(k, nights[1..], RunOf(k, nights[0], db).db)
  }

  function LastFeed(f: Feed, nights: seq<Night>): Feed {
    if nights == [] then f else nights[|nights| - 1].feed
  }

  // From night to night the feed only gains posts. Backfilling runs may be
  // cancelled, fail or die where they may; steady ones end by their own rule.
  ghost predicate Series(k: Knobs, f: Feed, db: Db, nights: seq<Night>)
    decreases |nights|
  {
    nights == [] ||
    (var n := nights[0];
     && DistinctCodes(Flat(n.feed)) && NewestFirst(Flat(n.feed))
     && Gained(f, n.feed, db.posts) && Follows(f, n.feed, db, n.at)
     && (db.completed ==> RanOut(n.feed, RunOf(k, n, db).why))
     && Series(k, n.feed, RunOf(k, n, db).db, nights[1..]))
  }

  // Eligibility does not depend on the window of the day.
  lemma WindowIsIrrelevant(feed: Feed, k: Knobs, window: Option<int>, db: Db, base: seq<Item>)
    ensures BackfillInv(feed, k.(window := window), db, base) <==> BackfillInv(feed, k, db, base)
    ensures forall posts :: Backfilled(feed, k.(window := window), posts) <==> Backfilled(feed, k, posts)
  {
    assert forall x :: Eligible(k.(window := window), x) <==> Eligible(k, x);
  }

  lemma OneNight(k: Knobs, f: Feed, db: Db, n: Night, base: seq<Item>)
    requires BackfillInv(f, k, db, base)
    requires DistinctCodes(Flat(n.feed)) && NewestFirst(Flat(n.feed))
    requires Gained(f, n.feed, db.posts) && Follows(f, n.feed, db, n.at)
    requires db.completed ==> RanOut(n.feed, RunOf(k, n, db).why)
    ensures BackfillInv(n.feed, k, RunOf(k, n, db).db, base)
    ensures db.completed ==> Backfilled(n.feed, k, RunOf(k, n, db).db.posts)
  {
    hide BackfillInv, DistinctCodes, NewestFirst, Gained, Follows, RanOut, Scrape, Backfilled;
    GrowthKeepsBackfill(f, n.feed, k, db, n.at, base);
    WindowIsIrrelevant(n.feed, k, n.window, Follow(db, n.at), base);
    RunKeepsBackfill(n.feed, k.(window := n.window), n.luck, Follow(db, n.at), base);
    WindowIsIrrelevant(n.feed, k, n.window, RunOf(k, n, db).db, base);
  }

  // Any number of runs over a growing feed, cut short where they may be while
  // they backfill: every post of `base` before the saved cursor is stored
  // once; completion means that every eligible, unpinned post there was at the
  // start is; and every run begun after completion leaves nothing out, the
  // posts published during the backfill included.
  lemma {:induction false} AnyRunsBackfill(k: Knobs, f: Feed, db: Db, nights: seq<Night>, base: seq<Item>)
    requires BackfillInv(f, k, db, base) && Series(k, f, db, nights)
    ensures BackfillInv(LastFeed(f, nights), k, ScrapeNights(k, nights, db), base)
    ensures nights != [] && ScrapeNights(k, nights[..|nights| - 1], db).completed ==>
              Backfilled(LastFeed(f, nights), k, ScrapeNights(k, nights, db).posts)
    decreases |nights|
  {
    hide BackfillInv, DistinctCodes, NewestFirst, Gained, Follows, RanOut, RunOf, Backfilled;
    if nights != [] {
      var n, rest := nights[0], nights[1..];
      OneNight(k, f, db, n, base);
      AnyRunsBackfill(k, n.feed, RunOf(k, n, db).db, rest, base);
      if rest != [] {
        assert nights[..|nights| - 1][1..] == rest[..|rest| - 1];
      } else {
        assert nights[..0] == [];
      }
    }
  }

  // ---------- what completion does not mean ----------

  // A run that completes the backfill leaves nothing out of the feed it saw
  // exactly if nothing eligible was missing before its cursor.
  lemma CompletionIff(feed: Feed, k: Knobs, luck: nat -> Luck, db: Db)
    requires DistinctCodes(Flat(feed)) && NewestFirst(Flat(feed))
    requires !db.completed && Scrape(feed, k, luck, db).db.completed
    ensures Backfilled(feed, k, Scrape(feed, k, luck, db).db.posts) <==>
            forall x :: x in Pages(feed, 0, Start(db)) && !x.pinned && Eligible(k, x) ==> x.code in db.posts
  {
    hide Walk, NewCodes, StopIndex, NoStops, DistinctCodes, NewestFirst, RanOut;
    var i, r := Start(db), Scrape(feed, k, luck, db);
    FlatSplit(feed, 0, i);
    DistinctSplit(Pages(feed, 0, i), FlatFrom(feed, i));
    var v := WalkVisits(feed, k, true, luck, 0, i, db, 0);
    VisitedIsStored(db, v);
    BeforeUntouched(feed, i, db, r.db.posts, v);
    EndedIsOut(feed, r.why);
    AheadIsStored(feed, k, i, db, r.db.posts, v);
  }

  // A first round without trouble, and the same luck from the second on.
  function FineThen(luck: Luck): nat -> Luck {
    n => if n == 0 then Fine else luck
  }

  const POST_A := Item("a", 2, false)
  const POST_B := Item("b", 1, false)
  const POST_X := Item("x", 3, false)
  const NO_LIMITS := Knobs(None, None)

  // The feed of two posts, and the same feed once x is published.
  function TwoPages(): Feed { [[POST_A], [POST_B]] }
  function TwoPagesAndOne(): Feed { [[POST_X, POST_A], [POST_B]] }

  lemma FirstRunBreaksOff()
    ensures Scrape(TwoPages(), NO_LIMITS, FineThen(FetchFails), Db([], false, None)).db == Db(["a"], false, Some(1))
  {
    hide Walk, StopIndex, NewCodes;
    var f, fails, db0, db1 := TwoPages(), FineThen(FetchFails), Db([], false, None), Db(["a"], false, Some(1));
    OnePageScan(NO_LIMITS, true, db0, POST_A);
    WalkUnfold(f, NO_LIMITS, true, fails, 0, 0, db0, 0);
    WalkUnfold(f, NO_LIMITS, true, fails, 1, 1, db1, 1);
    assert f[0] == [POST_A] && db0.posts + ["a"] == db1.posts;
  }

  lemma SecondRunCompletes()
    ensures Scrape(TwoPagesAndOne(), NO_LIMITS, FineThen(Fine), Db(["a"], false, Some(1))).db == Db(["a", "b"], true, None)
  {
    hide Walk, StopIndex, NewCodes;
    var g, works, db1 := TwoPagesAndOne(), FineThen(Fine), Db(["a"], false, Some(1));
    OnePageScan(NO_LIMITS, true, db1, POST_B);
    WalkUnfold(g, NO_LIMITS, true, works, 0, 1, db1, 0);
    assert g[1] == [POST_B] && db1.posts + ["b"] == ["a", "b"];
  }

  // A post published between two backfilling runs: the backfill completes
  // without it.
  lemma CompletedWithoutTheNewPost()
    ensures var f, g := TwoPages(), TwoPagesAndOne();
            var db1 := Scrape(f, NO_LIMITS, FineThen(FetchFails), Db([], false, None)).db;
            var db2 := Scrape(g, NO_LIMITS, FineThen(Fine), Follow(db1, 1)).db;
            && Gained(f, g, db1.posts) && Follows(f, g, db1, 1)
            && db2.completed && !Backfilled(g, NO_LIMITS, db2.posts)
  {
    hide Scrape;
    var f, g := TwoPages(), TwoPagesAndOne();
    FirstRunBreaksOff();
    SecondRunCompletes();
    FlatOf([POST_A], [POST_B]);
    FlatOf([POST_X, POST_A], [POST_B]);
    assert GainedAs(f, g, ["a"], [], [POST_X], [POST_A, POST_B]);
    FlatStep(f, 1);
    FlatStep(g, 1);
    assert POST_X in Flat(g);
  }

  // A page of one new post that nothing stops at is stored.
  lemma OnePageScan(k: Knobs, bf: bool, db: Db, x: Item)
    requires x.code !in db.posts && !StopsAt(k, bf, Known(db), x)
    ensures StopIndex(k, bf, Known(db), [x]) == 1
    ensures [x][..1] == [x] && NewCodes(Known(db), [x]) == [x.code]
  {
    assert [x][1..] == [];
    assert [x][..0] == [];
  }

  lemma FlatOf(p: seq<Item>, q: seq<Item>)
    ensures Flat([p, q]) == p + q
  {
    var feed: Feed := [p, q];
    FlatStep(feed, 0);
    FlatStep(feed, 1);
  }

  // An undisturbed backfill run completes exactly when a post past the cutoff
  // lies ahead of it or the feed's last page, not before the cursor, has items.
  lemma {:induction false} WalkCompletesIff(feed: Feed, k: Knobs, luck: nat -> Luck, n: nat, i: nat, db: Db, processed: nat)
    requires PagedFaithfully(feed) && forall a :: luck(a) == Fine
    ensures Walk(feed, k, true, luck, n, i, db, processed).why in {Stopped, FeedEnded} <==>
            (exists x :: x in FlatFrom(feed, i) && TooOld(k, x)) || (i < |feed| && feed[|feed| - 1] != [])
    decreases |feed| - i
  {
    hide Walk, StopIndex, NewCodes;
    WalkUnfold(feed, k, true, luck, n, i, db, processed);
    FlatStep(feed, i);
    var page := PageAt(feed, i);
    if page != [] {
      var m := StopIndex(k, true, Known(db), page);
      if m < |page| {
        assert page[m] in FlatFrom(feed, i) && TooOld(k, page[m]);
      } else if i + 1 < |feed| {
        assert forall x :: x in page ==> !TooOld(k, x);
        var added := NewCodes(Known(db), page[..m]);
        WalkCompletesIff(feed, k, luck, n + 1, i + 1, db.(posts := db.posts + added, cursor := Some(i + 1)),
                         processed + |added|);
      }
    }
  }

  lemma BackfillCompletesIff(feed: Feed, k: Knobs, luck: nat -> Luck, db: Db)
    requires PagedFaithfully(feed) && DistinctCodes(Flat(feed)) && !db.completed && forall a :: luck(a) == Fine
    ensures Scrape(feed, k, luck, db).db.completed <==>
            (exists x :: x in FlatFrom(feed, Start(db)) && TooOld(k, x))
            || (Start(db) < |feed| && feed[|feed| - 1] != [])
  {
    hide Walk, NewCodes, StopIndex, NoStops;
    WalkCompletesIff(feed, k, luck, 0, Start(db), db, 0);
    FlatSplit(feed, 0, Start(db));
    DistinctSplit(Pages(feed, 0, Start(db)), FlatFrom(feed, Start(db)));
    var v := WalkVisits(feed, k, true, luck, 0, Start(db), db, 0);
  }

  // A backfill whose saved cursor asks for an empty page never moves again:
  // the run stores nothing and stays incomplete, whatever is new on top.
  lemma StuckOnEmptyPage(feed: Feed, k: Knobs, luck: nat -> Luck, db: Db)
    requires !db.completed && PageAt(feed, Start(db)) == []
    ensures Scrape(feed, k, luck, db).db == db
  {
  }

  // ---------- steady state ----------

  // How far a steady-state run looks: the index of the item it stops at.
  function Reach(feed: Feed, k: Knobs, db: Db): nat {
    StopIndex(k, false, Known(db), Flat(feed))
  }

  lemma SteadyVisits(feed: Feed, k: Knobs, luck: nat -> Luck, db: Db) returns (n: nat)
    requires DistinctCodes(Flat(feed)) && db.completed
    ensures var r := Scrape(feed, k, luck, db);
            && n <= Reach(feed, k, db)
            && r.db.posts == db.posts + NewCodes(Known(db), Flat(feed)[..n])
            && (RanOut(feed, r.why) ==> n == Reach(feed, k, db))
  {
    hide Walk, NewCodes;
    var v := WalkVisits(feed, k, false, luck, 0, 0, db, 0);
    n := |v|;
    assert Flat(feed)[..n] == v;
    assert forall j :: 0 <= j < n ==> Flat(feed)[j] == v[j] && v[j] in v;
  }

  lemma StoredAfter(feed: Feed, db: Db, n: nat, j: nat)
    requires DistinctCodes(Flat(feed)) && n <= |Flat(feed)| && j < |Flat(feed)|
    ensures Flat(feed)[j].code in db.posts + NewCodes(Known(db), Flat(feed)[..n]) <==>
            Flat(feed)[j].code in db.posts || j < n
  {
    var flat := Flat(feed);
    NewCodesAre(Known(db), flat[..n]);
    if j < n {
      assert flat[..n][j] == flat[j];
    } else {
      assert forall a :: 0 <= a < n ==> flat[..n][a].code != flat[j].code;
    }
  }

  // No steady-state run, complete or cut short, stores anything at or after
  // the first known, unpinned post outside the window.
  lemma BeyondTheStop(feed: Feed, k: Knobs, luck: nat -> Luck, db: Db, j: nat)
    requires DistinctCodes(Flat(feed)) && db.completed && Reach(feed, k, db) <= j < |Flat(feed)|
    ensures Flat(feed)[j].code in Scrape(feed, k, luck, db).db.posts <==> Flat(feed)[j].code in db.posts
  {
    hide Scrape, NewCodes, StopIndex;
    var n := SteadyVisits(feed, k, luck, db);
    StoredAfter(feed, db, n, j);
  }

  // A steady-state run that ends by its own rule stores everything eligible
  // exactly when nothing eligible was missing beyond its stop.
  lemma SteadyRunCatchesUpIff(feed: Feed, k: Knobs, luck: nat -> Luck, db: Db)
    requires DistinctCodes(Flat(feed)) && db.completed && RanOut(feed, Scrape(feed, k, luck, db).why)
    ensures Backfilled(feed, k, Scrape(feed, k, luck, db).db.posts) <==>
            forall j :: Reach(feed, k, db) <= j < |Flat(feed)| && !Flat(feed)[j].pinned && Eligible(k, Flat(feed)[j]) ==>
              Flat(feed)[j].code in db.posts
  {
    hide Scrape, NewCodes, StopIndex;
    var flat, r := Flat(feed), Scrape(feed, k, luck, db);
    var n := SteadyVisits(feed, k, luck, db);
    forall j: nat | j < |flat|
      ensures flat[j].code in r.db.posts <==> flat[j].code in db.posts || j < n
    {
      StoredAfter(feed, db, n, j);
    }
    assert forall j :: 0 <= j < |flat| ==> flat[j] in flat;
    assert forall x :: x in flat ==> exists j :: 0 <= j < |flat| && flat[j] == x;
  }

  // Below a known, unpinned post outside the window, everything eligible is
  // known. Posts inside the window may have gaps.
  ghost predicate SettledBelowWindow(flat: seq<Item>, k: Knobs, posts: seq<Code>) {
    forall a, b :: 0 <= a < b < |flat| && !flat[a].pinned && flat[a].code in posts
      && (k.window.None? || !InWindow(k, flat[a])) && !flat[b].pinned && Eligible(k, flat[b])
      ==> flat[b].code in posts
  }

  lemma SettledIsSettledBelow(flat: seq<Item>, k: Knobs, posts: seq<Code>)
    requires Settled(flat, k, posts)
    ensures SettledBelowWindow(flat, k, posts)
  {
  }

  ghost predicate PinnedOnTop(flat: seq<Item>) {
    forall a, b :: 0 <= a < b < |flat| && flat[b].pinned ==> flat[a].pinned
  }

  // In that case stopping at the first such post misses nothing, pinned posts
  // on top of the feed included.
  lemma SteadyRunMissesNothing(feed: Feed, k: Knobs, luck: nat -> Luck, db: Db)
    requires DistinctCodes(Flat(feed)) && NewestFirst(Flat(feed)) && db.completed
    requires SettledBelowWindow(Flat(feed), k, db.posts) && RanOut(feed, Scrape(feed, k, luck, db).why)
    ensures Backfilled(feed, k, Scrape(feed, k, luck, db).db.posts)
    ensures PinnedOnTop(Flat(feed)) ==>
              forall x :: x in Flat(feed) && x.pinned ==> x.code in Scrape(feed, k, luck, db).db.posts
  {
    hide Scrape, NewCodes;
    var flat, m := Flat(feed), Reach(feed, k, db);
    if m < |flat| && TooOld(k, flat[m]) {
      NothingEligibleAfter(k, flat, m);
    }
    SteadyRunCatchesUpIff(feed, k, luck, db);
    if PinnedOnTop(flat) {
      forall x | x in flat && x.pinned
        ensures x.code in Scrape(feed, k, luck, db).db.posts
      {
        var j :| 0 <= j < |flat| && flat[j] == x;
        var n := SteadyVisits(feed, k, luck, db);
        StoredAfter(feed, db, n, j);
      }
    }
  }

  // ---------- steady runs cut short ----------

  // A post outside the window of `k` that a later run would stop at.
  predicate Bars(k: Knobs, x: Item) {
    !x.pinned && (k.window.None? || !InWindow(k, x))
  }

  // A post that ought to be stored.
  predicate Missable(k: Knobs, x: Item) {
    !x.pinned && Eligible(k, x)
  }

  // A steady run, however it ends, has looked at the first n posts. Under the
  // window of a later day (`later`) the table is still settled below it if and
  // only if no post the run looked at and that window leaves out lies above an
  // eligible one the run did not get to and that is not stored.
  lemma CutRunKeepsSettledIff(feed: Feed, k: Knobs, luck: nat -> Luck, db: Db, later: Knobs) returns (n: nat)
    requires DistinctCodes(Flat(feed)) && db.completed && SettledBelowWindow(Flat(feed), later, db.posts)
    ensures n <= Reach(feed, k, db)
    ensures Scrape(feed, k, luck, db).db.posts == db.posts + NewCodes(Known(db), Flat(feed)[..n])
    ensures SettledBelowWindow(Flat(feed), later, Scrape(feed, k, luck, db).db.posts) <==>
            forall a, b ::
              0 <= a < n <= b < |Flat(feed)| && Bars(later, Flat(feed)[a]) && Missable(later, Flat(feed)[b]) ==>
                Flat(feed)[b].code in db.posts
  {
    hide Scrape, NewCodes, StopIndex, DistinctCodes, Eligible;
    var flat, r := Flat(feed), Scrape(feed, k, luck, db);
    n := SteadyVisits(feed, k, luck, db);
    forall j: nat | j < |flat|
      ensures flat[j].code in r.db.posts <==> flat[j].code in db.posts || j < n
    {
      StoredAfter(feed, db, n, j);
    }
    StoredPrefix(flat, later, db.posts, r.db.posts, n);
  }

  lemma StoredPrefix(flat: seq<Item>, k: Knobs, was: seq<Code>, posts: seq<Code>, n: nat)
    requires n <= |flat| && SettledBelowWindow(flat, k, was)
    requires forall j :: 0 <= j < |flat| ==> (flat[j].code in posts <==> flat[j].code in was || j < n)
    ensures SettledBelowWindow(flat, k, posts) <==>
            forall a, b :: 0 <= a < n <= b < |flat| && Bars(k, flat[a]) && Missable(k, flat[b]) ==> flat[b].code in was
  {
    hide Eligible;
    if SettledBelowWindow(flat, k, posts) {
      forall a, b | 0 <= a < n <= b < |flat| && Bars(k, flat[a]) && Missable(k, flat[b])
        ensures flat[b].code in was
      {
        assert flat[a].code in posts;
        assert flat[b].code in posts;
      }
    }
  }

  const POST_Y := Item("y", 2, false)
  const POST_Z := Item("z", 1, false)

  function ThreePages(): Feed { [[POST_X], [POST_Y], [POST_Z]] }

  lemma CutRun()
    ensures Scrape(ThreePages(), NO_LIMITS, FineThen(Cancel), Db(["z"], true, None)).db == Db(["z", "x"], true, None)
  {
    hide Walk, StopIndex, NewCodes;
    var feed, cut, db, db1 := ThreePages(), FineThen(Cancel), Db(["z"], true, None), Db(["z", "x"], true, None);
    OnePageScan(NO_LIMITS, false, db, POST_X);
    WalkUnfold(feed, NO_LIMITS, false, cut, 0, 0, db, 0);
    WalkUnfold(feed, NO_LIMITS, false, cut, 1, 1, db1, 1);
    assert feed[0] == [POST_X] && db.posts + ["x"] == db1.posts;
  }

  lemma LaterRunsStopAtOnce(luck: nat -> Luck)
    ensures Scrape(ThreePages(), NO_LIMITS, luck, Db(["z", "x"], true, None)).db == Db(["z", "x"], true, None)
  {
    hide Walk, StopIndex, NewCodes;
    var feed, db1 := ThreePages(), Db(["z", "x"], true, None);
    WalkUnfold(feed, NO_LIMITS, false, luck, 0, 0, db1, 0);
    assert feed[0] == [POST_X] && [POST_X][..0] == [] && db1.posts[1] == "x";
    NothingScanned(NO_LIMITS, db1, POST_X);
  }

  // Without a window, a run cancelled after its first page: the post it did
  // not get to is never stored, whatever runs follow.
  lemma CutRunLeavesAGap(luck: nat -> Luck)
    ensures var feed, db := ThreePages(), Db(["z"], true, None);
            var db1 := Scrape(feed, NO_LIMITS, FineThen(Cancel), db).db;
            && SettledBelowWindow(Flat(feed), NO_LIMITS, db.posts)
            && !SettledBelowWindow(Flat(feed), NO_LIMITS, db1.posts)
            && Scrape(feed, NO_LIMITS, luck, db1).db == db1 && POST_Y.code !in db1.posts
  {
    hide Scrape;
    var feed := ThreePages();
    CutRun();
    LaterRunsStopAtOnce(luck);
    FlatStep(feed, 0);
    FlatStep(feed, 1);
    FlatStep(feed, 2);
    var flat := Flat(feed);
    assert flat == [POST_X, POST_Y, POST_Z];
    assert flat[0].code == "x" && flat[1].code !in ["z", "x"];
  }

  lemma NothingScanned(k: Knobs, db: Db, x: Item)
    requires StopsAt(k, false, Known(db), x)
    ensures StopIndex(k, false, Known(db), [x]) == 0 && NewCodes(Known(db), []) == []
  {
  }

  // ---------- what a run stores, counts and leaves behind ----------

  // Unpinned posts from before scrape_posts_since are never stored, whatever
  // the mode and however the run ends.
  lemma NothingTooOldIsStored(feed: Feed, k: Knobs, luck: nat -> Luck, db: Db, code: Code)
    requires DistinctCodes(Flat(feed)) && code in Scrape(feed, k, luck, db).db.posts && code !in db.posts
    ensures exists x :: x in Flat(feed) && x.code == code && (x.pinned || k.since == None || x.takenAt >= k.since.value)
  {
    hide Walk, NewCodes, StopIndex, DistinctCodes;
    var i := Start(db);
    FlatSplit(feed, 0, i);
    DistinctSplit(Pages(feed, 0, i), FlatFrom(feed, i));
    var v := WalkVisits(feed, k, !db.completed, luck, 0, i, db, 0);
    NewCodesAre(Known(db), v);
    var x :| x in v && x.code == code;
    assert x in FlatFrom(feed, i) && !StopsAt(k, !db.completed, Known(db), x);
  }

  // The posts a run reports are the rows it added; it only fails if it added
  // none, and only passes over a failed fetch if it added some.
  lemma {:induction false} WalkCounts(feed: Feed, k: Knobs, bf: bool, luck: nat -> Luck, n: nat, i: nat, db: Db, processed: nat)
    ensures var r := Walk(feed, k, bf, luck, n, i, db, processed);
            && |r.db.posts| == |db.posts| + r.processed - processed
            && db.posts <= r.db.posts
            && (r.why == Raised ==> r.processed == 0) && (r.why == Degraded ==> r.processed > 0)
    decreases |feed| - i
  {
    hide Walk, NewCodes, StopIndex;
    WalkUnfold(feed, k, bf, luck, n, i, db, processed);
    var page := PageAt(feed, i);
    if luck(n) != Cancel && luck(n) != FetchFails && page != [] {
      var m := StopIndex(k, bf, Known(db), page);
      if luck(n) != Dies && m == |page| && i + 1 < |feed| {
        var added := NewCodes(Known(db), page[..m]);
        var db1 := db.(posts := db.posts + added);
        WalkCounts(feed, k, bf, luck, n + 1, i + 1, if bf then db1.(cursor := Some(i + 1)) else db1, processed + |added|);
      }
    }
  }

  lemma RunCounts(feed: Feed, k: Knobs, luck: nat -> Luck, db: Db)
    ensures var r := Scrape(feed, k, luck, db);
            && r.processed == |r.db.posts| - |db.posts|
            && (r.why == Raised ==> r.db.posts == db.posts) && (r.why == Degraded ==> |r.db.posts| > |db.posts|)
  {
    hide Walk;
    WalkCounts(feed, k, !db.completed, luck, 0, Start(db), db, 0);
  }

  // A backfilling run that is cancelled or fails in round m: it has stored all
  // of the m pages before, and saved the page it did not get to.
  lemma {:induction false} WalkInterrupted(feed: Feed, k: Knobs, luck: nat -> Luck, n: nat, i: nat, db: Db, processed: nat)
    returns (m: nat)
    requires DistinctCodes(FlatFrom(feed, i)) && Walk(feed, k, true, luck, n, i, db, processed).why in {WasCancelled, Raised, Degraded}
    ensures var r := Walk(feed, k, true, luck, n, i, db, processed);
            && luck(n + m) in {Cancel, FetchFails} && (r.why == WasCancelled <==> luck(n + m) == Cancel)
            && (forall j :: n <= j < n + m ==> luck(j) == Fine)
            && r.db.cursor == (if m == 0 then db.cursor else Some(i + m)) && r.db.completed == db.completed
            && r.db.posts == db.posts + NewCodes(Known(db), Pages(feed, i, i + m))
    decreases |feed| - i
  {
    hide Walk, NewCodes, StopIndex, FlatFrom, Pages, DistinctCodes, Known, StopsAt;
    WalkUnfold(feed, k, true, luck, n, i, db, processed);
    m := 0;
    NoNewCodes(Known(db));
    if luck(n) != Cancel && luck(n) != FetchFails {
      var page := PageAt(feed, i);
      var added := NewCodes(Known(db), page);
      assert page[..|page|] == page;
      var mid := db.(posts := db.posts + added, cursor := Some(i + 1));
      FlatStep(feed, i);
      DistinctSplit(page, FlatFrom(feed, i + 1));
      var rest := WalkInterrupted(feed, k, luck, n + 1, i + 1, mid, processed + |added|);
      m := rest + 1;
      MorePagesStored(feed, i, m, db, mid);
    } else {
      PagesStep(feed, i, 1);
    }
  }

  lemma PagesStep(feed: Feed, i: nat, m: nat)
    requires m > 0
    ensures Pages(feed, i, i) == [] && Pages(feed, i, i + m) == PageAt(feed, i) + Pages(feed, i + 1, i + m)
  {
  }

  lemma MorePagesStored(feed: Feed, i: nat, m: nat, db: Db, mid: Db)
    requires m > 0 && DistinctCodes(PageAt(feed, i) + FlatFrom(feed, i + 1))
    requires mid.posts == db.posts + NewCodes(Known(db), PageAt(feed, i))
    ensures mid.posts + NewCodes(Known(mid), Pages(feed, i + 1, i + m))
         == db.posts + NewCodes(Known(db), Pages(feed, i, i + m))
  {
    hide NewCodes, FlatFrom, Pages, DistinctCodes;
    var page, later := PageAt(feed, i), Pages(feed, i + 1, i + m);
    PagesStep(feed, i, m);
    FlatSplit(feed, i + 1, i + m);
    LaterPagesUnaffected(db, mid, page, FlatFrom(feed, i + 1));
    assert forall x :: x in later ==> x in FlatFrom(feed, i + 1);
    SameNewCodes(Known(db), Known(mid), later);
    NewCodesConcat(Known(db), page, later);
  }

  lemma NoNewCodes(known: set<Code>)
    ensures NewCodes(known, []) == []
  {
  }

  lemma InterruptedBackfill(feed: Feed, k: Knobs, luck: nat -> Luck, db: Db) returns (m: nat)
    requires DistinctCodes(Flat(feed)) && !db.completed
    requires Scrape(feed, k, luck, db).why in {WasCancelled, Raised, Degraded}
    ensures var r, i := Scrape(feed, k, luck, db), Start(db);
            && luck(m) in {Cancel, FetchFails} && (forall j :: 0 <= j < m ==> luck(j) == Fine)
            && r.db.cursor == (if m == 0 then db.cursor else Some(i + m)) && !r.db.completed
            && r.db.posts == db.posts + NewCodes(Known(db), Pages(feed, i, i + m))
  {
    hide Walk, NewCodes, DistinctCodes;
    FlatSplit(feed, 0, Start(db));
    DistinctSplit(Pages(feed, 0, Start(db)), FlatFrom(feed, Start(db)));
    m := WalkInterrupted(feed, k, luck, 0, Start(db), db, 0);
  }

  // ---------- the comment window ----------

  // A steady run that ends by its own rule has every eligible, unpinned post
  // inside the window stored, whatever gaps there were.
  lemma WindowIsRewalked(feed: Feed, k: Knobs, luck: nat -> Luck, db: Db, x: Item)
    requires DistinctCodes(Flat(feed)) && NewestFirst(Flat(feed)) && db.completed
    requires RanOut(feed, Scrape(feed, k, luck, db).why)
    requires x in Flat(feed) && !x.pinned && (k.since == None || x.takenAt >= k.since.value)
    requires k.window.Some? && x.takenAt >= k.window.value
    ensures x.code in Scrape(feed, k, luck, db).db.posts
  {
    hide Scrape, NewCodes, DistinctCodes, RanOut;
    var flat, n := Flat(feed), Reach(feed, k, db);
    var visited := SteadyVisits(feed, k, luck, db);
    var j: nat :| j < |flat| && flat[j] == x;
    StoredAfter(feed, db, n, j);
  }

  // Past a post that is stored, not pinned and not inside the window, no
  // steady run stores anything; nor past an unpinned one that is too old.
  lemma NothingPastAnEnd(feed: Feed, k: Knobs, luck: nat -> Luck, db: Db, a: nat, j: nat)
    requires DistinctCodes(Flat(feed)) && db.completed && a <= j < |Flat(feed)| && !Flat(feed)[a].pinned
    requires (Flat(feed)[a].code in db.posts && (k.window == None || Flat(feed)[a].takenAt < k.window.value))
          || (k.since.Some? && Flat(feed)[a].takenAt < k.since.value)
    ensures Flat(feed)[j].code in Scrape(feed, k, luck, db).db.posts <==> Flat(feed)[j].code in db.posts
  {
    hide Scrape, DistinctCodes;
    assert StopsAt(k, false, Known(db), Flat(feed)[a]);
    assert Reach(feed, k, db) <= a;
    BeyondTheStop(feed, k, luck, db, j);
  }
}
