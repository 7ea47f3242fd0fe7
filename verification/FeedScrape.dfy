// The feed loop in its own form: tables that change in place, pages fetched
// one by one. Proved equal to FeedModel.Scrape.
module FeedScrape {
  import opened Common
  import opened FeedModel

  class Influencer {
    var backfillCompleted: bool
    var backfillCursor: Option<nat>

    constructor ()
      ensures !backfillCompleted && backfillCursor == None
    {
      backfillCompleted, backfillCursor := false, None;
    }
  }

  class PostTable {
    var codes: seq<Code>

    constructor ()
      ensures codes == []
    {
      codes := [];
    }
  }

  function State(posts: PostTable, who: Influencer): Db
    reads posts, who
  {
    Db(posts.codes, who.backfillCompleted, who.backfillCursor)
  }

  // One page: inserts its new posts up to the item that ends the scan.
  method ScanPage(posts: PostTable, items: seq<Item>, k: Knobs, backfilling: bool)
    returns (added: nat, stop: bool)
    modifies posts
    ensures var known := set c | c in old(posts.codes);
            var m := StopIndex(k, backfilling, known, items);
            && posts.codes == old(posts.codes) + NewCodes(known, items[..m])
            && added == |NewCodes(known, items[..m])|
            && stop == (m < |items|)
  {
    hide StopIndex, NewCodes;
    var existing := set c | c in posts.codes;
    ScanStep(existing, items, 0);
    ghost var m := StopIndex(k, backfilling, existing, items);
    added, stop := 0, false;
    var n := 0;
    while n < |items|
      invariant 0 <= n <= m && !stop
      invariant posts.codes == old(posts.codes) + NewCodes(existing, items[..n])
      invariant added == |NewCodes(existing, items[..n])|
    {
      var item := items[n];
      ScanStep(existing, items, n);
      ScanStops(k, backfilling, existing, items, n);
      if k.since.Some? && item.takenAt < k.since.value && !item.pinned {
        stop := true;
        break;
      }
      var within := k.window.None? || item.takenAt >= k.window.value;
      if item.code in existing {
        if !backfilling && (k.window.None? || !within) && !item.pinned {
          stop := true;
          break;
        }
      } else {
        posts.codes := posts.codes + [item.code];
        added := added + 1;
      }
      n := n + 1;
    }
  }

  // One more item of the scan.
  lemma ScanStep(known: set<Code>, items: seq<Item>, n: nat)
    requires n <= |items|
    ensures NewCodes(known, items[..0]) == []
    ensures n < |items| ==>
              NewCodes(known, items[..n + 1])
              == NewCodes(known, items[..n]) + if items[n].code in known then [] else [items[n].code]
  {
    if n < |items| {
      assert items[..n + 1][..n] == items[..n];
    }
  }

  lemma ScanStops(k: Knobs, backfilling: bool, known: set<Code>, items: seq<Item>, n: nat)
    requires n < |items| && n <= StopIndex(k, backfilling, known, items)
    ensures n == StopIndex(k, backfilling, known, items) <==> StopsAt(k, backfilling, known, items[n])
    ensures StopIndex(k, backfilling, known, items) <= |items|
  {
  }

  method RunFeed(feed: Feed, k: Knobs, luck: nat -> Luck, posts: PostTable, who: Influencer)
    returns (why: Why, processed: nat)
    modifies posts, who
    ensures Result(State(posts, who), why, processed) == Scrape(feed, k, luck, old(State(posts, who)))
  {
    hide Walk, StopIndex, NewCodes;
    ghost var whole := Scrape(feed, k, luck, State(posts, who));
    var backfilling := !who.backfillCompleted;
    var page: nat := if backfilling && who.backfillCursor.Some? then who.backfillCursor.value else 0;
    processed := 0;
    var n := 0;
    while true
      invariant Walk(feed, k, backfilling, luck, n, page, State(posts, who), processed) == whole
      decreases |feed| - page
    {
      WalkUnfold(feed, k, backfilling, luck, n, page, State(posts, who), processed);
      if luck(n) == Cancel {
        return WasCancelled, processed;
      }
      if luck(n) == FetchFails {
        return if processed == 0 then Raised else Degraded, processed;
      }
      var items := PageAt(feed, page);
      if items == [] {
        return EmptyPage, processed;
      }
      ghost var before := State(posts, who);
      var added, stop := ScanPage(posts, items, k, backfilling);
      assert (set c | c in before.posts) == Known(before);
      processed := processed + added;
      if luck(n) == Dies {
        return Died, processed;
      }
      if stop || page + 1 >= |feed| {
        if backfilling {
          who.backfillCompleted := true;
          who.backfillCursor := None;
        }
        return if stop then Stopped else FeedEnded, processed;
      }
      page := page + 1;
      if backfilling {
        who.backfillCursor := Some(page);
      }
      n := n + 1;
    }
  }
}
