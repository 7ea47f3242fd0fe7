// Small vocabulary shared by every module of the model.
module Common {

  // How often a job, or one request with one key, is tried again.
  const SCRAPER_MAX_RETRIES: nat := 3

  datatype Option<+T> = None | Some(value: T)

  // One point of a growth series (app/schemas/creator_stats.py).
  datatype GrowthPoint = GrowthPoint(date: int, value: Option<int>, dailyDelta: Option<int>)

  function Max(a: int, b: int): int {
    if a >= b then a else b
  }

  function Min(a: int, b: int): int {
    if a <= b then a else b
  }

  // The sequence lo, lo + 1, ..., hi - 1.
  function Range(lo: nat, hi: nat): (r: seq<nat>)
    requires lo <= hi
    ensures |r| == hi - lo
    ensures forall k :: 0 <= k < |r| ==> r[k] == lo + k
  {
    seq(hi - lo, (k: nat) => lo + k)
  }

  // Some element, as the next row of an unordered query.
  method AnyOf(s: set<int>) returns (x: int)
    requires s != {}
    ensures x in s
  {
    if forall k :: k !in s {
      assert false;
    }
    x :| x in s;
  }

  lemma RangeSplit(a: nat, b: nat, c: nat)
    requires a <= b <= c
    ensures Range(a, b) + Range(b, c) == Range(a, c)
  {
  }

  lemma RangeOne(a: nat)
    ensures Range(a, a + 1) == [a] && Range(a, a) == []
  {
  }
}
