// The feed loop of JobProcessor._run_scrape: which posts a run stores, when
// it stops, and what it leaves behind for the next run.
module FeedModel {
  import opened Common

  type Code = string

  datatype Item = Item(code: Code, takenAt: int, pinned: bool)

  // The feed, page by page; the cursor is the index of the page it asks for.
  type Feed = seq<seq<Item>>

  // scrape_posts_since and the edge of the comment window, as timestamps.
  datatype Knobs = Knobs(since: Option<int>, window: Option<int>)

  // The committed state: the post rows in insertion order and the two
  // backfill columns of the influencer.
  datatype Db = Db(posts: seq<Code>, completed: bool, cursor: Option<nat>)

  // What befalls the n-th round of the loop: nothing, a cancel noticed before
  // the fetch, a failing fetch, or death after the page's commit.
  datatype Luck = Fine | Cancel | FetchFails | Dies

  datatype Why = WasCancelled | Raised | Degraded | EmptyPage | Stopped | FeedEnded | Died

  datatype Result = Result(db: Db, why: Why, processed: nat)

  function PageAt(feed: Feed, i: nat): seq<Item> {
    if i < |feed| then feed[i] else []
  }

  predicate TooOld(k: Knobs, x: Item) {
    k.since.Some? && x.takenAt < k.since.value && !x.pinned
  }

  predicate InWindow(k: Knobs, x: Item) {
    k.window.None? || x.takenAt >= k.window.value
  }

  // Whether the scan stops at x: past the cutoff, or, in steady state, a
  // known unpinned post that is not inside a configured window.
  predicate StopsAt(k: Knobs, backfilling: bool, known: set<Code>, x: Item) {
    TooOld(k, x) || (!backfilling && x.code in known && (k.window.None? || !InWindow(k, x)) && !x.pinned)
  }

  function StopIndex(k: Knobs, backfilling: bool, known: set<Code>, xs: seq<Item>): (n: nat)
    ensures n <= |xs|
    ensures forall j :: 0 <= j < n ==> !StopsAt(k, backfilling, known, xs[j])
    ensures n < |xs| ==> StopsAt(k, backfilling, known, xs[n])
  {
    if xs == [] || StopsAt(k, backfilling, known, xs[0]) then 0
    else 1 + StopIndex(k, backfilling, known, xs[1..])
  }

  // The codes the scan of xs inserts, in order.
  function NewCodes(known: set<Code>, xs: seq<Item>): seq<Code> {
    if xs == [] then []
    else NewCodes(known, xs[..|xs| - 1]) + if xs[|xs| - 1].code in known then [] else [xs[|xs| - 1].code]
  }

  function Codes(xs: seq<Item>): set<Code> {
    set x | x in xs :: x.code
  }

  function Known(db: Db): set<Code> {
    set c | c in db.posts
  }

  function Walk(feed: Feed, k: Knobs, backfilling: bool, luck: nat -> Luck, n: nat, i: nat, db: Db, processed: nat): Result
    decreases |feed| - i
  {
    if luck(n) == Cancel then Result(db, WasCancelled, processed)
    else if luck(n) == FetchFails then Result(db, if processed == 0 then Raised else Degraded, processed)
    else
      var items := PageAt(feed, i);
      if items == [] then Result(db, EmptyPage, processed)
      else
        var m := StopIndex(k, backfilling, Known(db), items);
        var added := NewCodes(Known(db), items[..m]);
        var db1 := db.(posts := db.posts + added);
        var processed1 := processed + |added|;
        if luck(n) == Dies then Result(db1, Died, processed1)
        else if m < |items| || i + 1 >= |feed| then
          Result(if backfilling then db1.(completed := true, cursor := None) else db1,
                 if m < |items| then Stopped else FeedEnded, processed1)
        else
          var db2 := if backfilling then db1.(cursor := Some(i + 1)) else db1;
          Walk(feed, k, backfilling, luck, n + 1, i + 1, db2, processed1)
  }

  lemma WalkUnfold(feed: Feed, k: Knobs, backfilling: bool, luck: nat -> Luck, n: nat, i: nat, db: Db, processed: nat)
    ensures Walk(feed, k, backfilling, luck, n, i, db, processed)
         == if luck(n) == Cancel then Result(db, WasCancelled, processed)
            else if luck(n) == FetchFails then Result(db, if processed == 0 then Raised else Degraded, processed)
            else
              var items := PageAt(feed, i);
              if items == [] then Result(db, EmptyPage, processed)
              else
                var m := StopIndex(k, backfilling, Known(db), items);
                var added := NewCodes(Known(db), items[..m]);
                var db1 := db.(posts := db.posts + added);
                if luck(n) == Dies then Result(db1, Died, processed + |added|)
                else if m < |items| || i + 1 >= |feed| then
                  Result(if backfilling then db1.(completed := true, cursor := None) else db1,
                         if m < |items| then Stopped else FeedEnded, processed + |added|)
                else
                  Walk(feed, k, backfilling, luck, n + 1, i + 1,
                       if backfilling then db1.(cursor := Some(i + 1)) else db1, processed + |added|)
  {
    hide StopIndex, NewCodes;
  }

  function Start(db: Db): nat {
    if !db.completed && db.cursor.Some? then db.cursor.value else 0
  }

  // One run of the scrape's feed phase.
  function Scrape(feed: Feed, k: Knobs, luck: nat -> Luck, db: Db): Result {
    Walk(feed, k, !db.completed, luck, 0, Start(db), db, 0)
  }

  // ---------- the feed ----------

  function FlatFrom(feed: Feed, i: nat): seq<Item>
    decreases |feed| - i
  {
    if i >= |feed| then [] else feed[i] + FlatFrom(feed, i + 1)
  }

  function Flat(feed: Feed): seq<Item> {
    FlatFrom(feed, 0)
  }

  predicate DistinctCodes(xs: seq<Item>) {
    forall a, b :: 0 <= a < b < |xs| ==> xs[a].code != xs[b].code
  }

  // Unpinned posts come newest first; pinned ones sit wherever they like.
  predicate NewestFirst(xs: seq<Item>) {
    forall a, b :: 0 <= a < b < |xs| && !xs[a].pinned && !xs[b].pinned ==> xs[b].takenAt <= xs[a].takenAt
  }

  // Only the last page may be empty.
  predicate PagedFaithfully(feed: Feed) {
    forall i :: 0 <= i < |feed| - 1 ==> feed[i] != []
  }

  predicate Eligible(k: Knobs, x: Item) {
    k.since.None? || x.takenAt >= k.since.value
  }

  predicate DistinctPosts(posts: seq<Code>) {
    forall a, b :: 0 <= a < b < |posts| ==> posts[a] != posts[b]
  }
}
