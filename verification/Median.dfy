// The median that the outlier scores divide by, and rounding to cents.
module Median {
  import opened Common

  ghost predicate Ordered(s: seq<real>) {
    forall i, j :: 0 <= i < j < |s| ==> s[i] <= s[j]
  }

  function Insert(s: seq<real>, x: real): seq<real> {
    if s == [] || s[|s| - 1] <= x then s + [x] else Insert(s[..|s| - 1], x) + [s[|s| - 1]]
  }

  function Sort(s: seq<real>): seq<real> {
    if s == [] then [] else Insert(Sort(s[..|s| - 1]), s[|s| - 1])
  }

  lemma {:induction false} InsertAdds(s: seq<real>, x: real)
    ensures multiset(Insert(s, x)) == multiset(s) + multiset{x} && |Insert(s, x)| == |s| + 1
  {
    if s != [] {
      assert s == s[..|s| - 1] + [s[|s| - 1]];
      if x < s[|s| - 1] {
        InsertAdds(s[..|s| - 1], x);
      }
    }
  }

  lemma {:induction false} InsertKeepsOrder(s: seq<real>, x: real)
    requires Ordered(s)
    ensures Ordered(Insert(s, x))
    ensures forall y :: y in Insert(s, x) ==> y == x || y in s
  {
    if s != [] && x < s[|s| - 1] {
      var init, last := s[..|s| - 1], s[|s| - 1];
      InsertKeepsOrder(init, x);
      assert forall y :: y in Insert(init, x) ==> y <= last;
      Append(Insert(init, x), last);
    } else {
      Append(s, x);
    }
  }

  lemma Append(s: seq<real>, x: real)
    requires Ordered(s) && forall y :: y in s ==> y <= x
    ensures Ordered(s + [x])
  {
    assert forall i :: 0 <= i < |s| ==> s[i] in s;
  }

  lemma {:induction false} SortSorts(s: seq<real>)
    ensures Ordered(Sort(s)) && multiset(Sort(s)) == multiset(s) && |Sort(s)| == |s|
  {
    hide Ordered, Insert;
    if s == [] {
      NoneOrdered();
    } else {
      assert s == s[..|s| - 1] + [s[|s| - 1]];
      SortSorts(s[..|s| - 1]);
      InsertKeepsOrder(Sort(s[..|s| - 1]), s[|s| - 1]);
      InsertAdds(Sort(s[..|s| - 1]), s[|s| - 1]);
    }
  }

  lemma NoneOrdered()
    ensures Ordered([])
  {
  }

  lemma LastIsGreatest(s: seq<real>)
    requires Ordered(s) && s != []
    ensures s[|s| - 1] in multiset(s) && forall x :: x in multiset(s) ==> x <= s[|s| - 1]
    ensures Ordered(s[..|s| - 1]) && multiset(s[..|s| - 1]) == multiset(s) - multiset{s[|s| - 1]}
  {
    assert s == s[..|s| - 1] + [s[|s| - 1]];
    forall x | x in multiset(s)
      ensures x <= s[|s| - 1]
    {
      assert x in s;
    }
  }

  lemma SameSize(s: seq<real>, t: seq<real>)
    requires multiset(s) == multiset(t)
    ensures |s| == |t|
  {
    assert |s| == |multiset(s)| == |multiset(t)| == |t|;
  }

  lemma SameLast(s: seq<real>, t: seq<real>)
    requires Ordered(s) && Ordered(t) && multiset(s) == multiset(t) && |s| == |t| > 0
    ensures var n := |s| - 1; s[n] == t[n] && multiset(s[..n]) == multiset(t[..n])
    ensures Ordered(s[..|s| - 1]) && Ordered(t[..|t| - 1])
  {
    hide Ordered;
    LastIsGreatest(s);
    LastIsGreatest(t);
    var x, y := s[|s| - 1], t[|t| - 1];
    assert x in multiset(t) && y in multiset(s);
    assert x <= y && y <= x;
  }

  // There is only one way to put values in order.
  lemma {:induction false} OneOrder(s: seq<real>, t: seq<real>)
    requires Ordered(s) && Ordered(t) && multiset(s) == multiset(t)
    ensures s == t
  {
    hide Ordered;
    SameSize(s, t);
    if s != [] {
      var n := |s| - 1;
      SameLast(s, t);
      OneOrder(s[..n], t[..n]);
      assert s == s[..n] + [s[n]] && t == t[..n] + [t[n]];
    }
  }

  // The middle value, or the mean of the middle two.
  function MedianOf(s: seq<real>): real
    requires s != []
  {
    SortSorts(s);
    Middle(Sort(s))
  }

  function Middle(t: seq<real>): real
    requires t != []
  {
    var h := |t| / 2;
    if |t| % 2 == 1 then t[h] else (t[h - 1] + t[h]) / 2.0
  }

  lemma MedianIgnoresOrder(s: seq<real>, t: seq<real>)
    requires s != [] && t != [] && multiset(s) == multiset(t)
    ensures MedianOf(s) == MedianOf(t)
  {
    hide Ordered, Sort;
    SortSorts(s);
    SortSorts(t);
    OneOrder(Sort(s), Sort(t));
  }

  // However the values are put in order, twice the median is the sum of the
  // two middle ones, which are one and the same if their number is odd.
  lemma MedianIsMiddle(s: seq<real>, t: seq<real>)
    requires s != [] && Ordered(t) && multiset(t) == multiset(s)
    ensures |t| == |s| && 2.0 * MedianOf(s) == t[(|s| - 1) / 2] + t[|s| / 2]
  {
    hide Ordered, Sort;
    SortSorts(s);
    SameSize(s, t);
    OneOrder(Sort(s), t);
  }

  function Negated(s: seq<real>): (r: seq<real>)
    ensures |r| == |s|
  {
    seq(|s|, i requires 0 <= i < |s| => -s[i])
  }

  function Backwards(s: seq<real>): (r: seq<real>)
    ensures |r| == |s|
    ensures forall i :: 0 <= i < |s| ==> r[i] == s[|s| - 1 - i]
    ensures multiset(r) == multiset(s)
  {
    if s == [] then []
    else
      assert s == s[..|s| - 1] + [s[|s| - 1]];
      [s[|s| - 1]] + Backwards(s[..|s| - 1])
  }

  lemma {:induction false} NegatedBag(s: seq<real>, t: seq<real>)
    requires multiset(s) == multiset(t)
    ensures multiset(Negated(s)) == multiset(Negated(t))
  {
    forall y: real
      ensures multiset(Negated(s))[y] == multiset(Negated(t))[y]
    {
      NegatedCount(s, y);
      NegatedCount(t, y);
    }
  }

  lemma {:induction false} NegatedCount(s: seq<real>, y: real)
    ensures multiset(Negated(s))[y] == multiset(s)[-y]
  {
    if s != [] {
      var n := |s| - 1;
      NegatedCount(s[..n], y);
      assert s == s[..n] + [s[n]];
      assert Negated(s) == Negated(s[..n]) + [-s[n]];
    }
  }

  // The median leans neither way: turning every value around turns it around.
  lemma MedianIsUnbiased(s: seq<real>)
    requires s != []
    ensures MedianOf(Negated(s)) == -MedianOf(s)
  {
    hide Sort, Ordered, Negated, Backwards, Middle;
    SortSorts(s);
    SortSorts(Negated(s));
    NegatedBag(s, Sort(s));
    Flip(Sort(s));
    OneOrder(Sort(Negated(s)), Backwards(Negated(Sort(s))));
    MiddleFlips(Sort(s));
  }

  lemma MiddleFlips(t: seq<real>)
    requires t != []
    ensures Middle(Backwards(Negated(t))) == -Middle(t)
  {
  }

  lemma Flip(t: seq<real>)
    requires Ordered(t)
    ensures Ordered(Backwards(Negated(t)))
  {
  }

  // How many values lie at or under m, and how many at or over it.
  function AtMost(s: seq<real>, m: real): nat {
    if s == [] then 0 else AtMost(s[..|s| - 1], m) + if s[|s| - 1] <= m then 1 else 0
  }

  function AtLeast(s: seq<real>, m: real): nat {
    if s == [] then 0 else AtLeast(s[..|s| - 1], m) + if m <= s[|s| - 1] then 1 else 0
  }

  lemma {:induction false} SortKeepsCounts(s: seq<real>, m: real)
    ensures AtMost(Sort(s), m) == AtMost(s, m) && AtLeast(Sort(s), m) == AtLeast(s, m)
  {
    hide Insert;
    if s != [] {
      SortKeepsCounts(s[..|s| - 1], m);
      InsertCounts(Sort(s[..|s| - 1]), s[|s| - 1], m);
    }
  }

  lemma {:induction false} InsertCounts(s: seq<real>, x: real, m: real)
    ensures AtMost(Insert(s, x), m) == AtMost(s, m) + if x <= m then 1 else 0
    ensures AtLeast(Insert(s, x), m) == AtLeast(s, m) + if m <= x then 1 else 0
  {
    if s == [] || s[|s| - 1] <= x {
      assert (s + [x])[..|s|] == s;
    } else {
      InsertCounts(s[..|s| - 1], x, m);
      assert Insert(s, x)[..|Insert(s, x)| - 1] == Insert(s[..|s| - 1], x);
    }
  }

  lemma {:induction false} OrderedCounts(t: seq<real>, m: real, j: nat)
    requires Ordered(t) && j <= |t|
    ensures (forall i :: 0 <= i < j ==> t[i] <= m) ==> AtMost(t, m) >= j
    ensures (forall i :: j <= i < |t| ==> m <= t[i]) ==> AtLeast(t, m) >= |t| - j
  {
    if t != [] {
      OrderedCounts(t[..|t| - 1], m, Min(j, |t| - 1));
    }
  }

  // At least half the values are on either side.
  lemma MedianSplits(s: seq<real>)
    requires s != []
    ensures 2 * AtMost(s, MedianOf(s)) >= |s| && 2 * AtLeast(s, MedianOf(s)) >= |s|
  {
    hide Sort, AtMost, AtLeast;
    SortSorts(s);
    var t, m := Sort(s), MedianOf(s);
    SortKeepsCounts(s, m);
    OrderedCounts(t, m, (|s| + 1) / 2);
    OrderedCounts(t, m, |s| / 2);
  }

  // round(x, 2), half to even.
  function RoundCents(x: real): real {
    var n := (100.0 * x).Floor;
    var rest := 100.0 * x - n as real;
    (if rest < 0.5 || (rest == 0.5 && n % 2 == 0) then n else n + 1) as real / 100.0
  }

  // The result is a nearest number of cents, and on a tie the even one.
  lemma RoundCentsIsNear(x: real) returns (n: int)
    ensures RoundCents(x) == n as real / 100.0
    ensures -0.5 <= 100.0 * x - n as real <= 0.5
    ensures 100.0 * x - n as real == 0.5 || 100.0 * x - n as real == -0.5 ==> n % 2 == 0
    ensures x <= 1.0 ==> RoundCents(x) <= 1.0
    ensures x >= 1.0 ==> RoundCents(x) >= 1.0
  {
    n := (100.0 * x).Floor;
    var rest := 100.0 * x - n as real;
    if !(rest < 0.5 || (rest == 0.5 && n % 2 == 0)) {
      n := n + 1;
    }
  }
}
