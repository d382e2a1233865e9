/** Choosing the quarters to aggregate and the quarters the end dropdown offers
    (src/components/ChoroplethMap.tsx, lines 63-72 and 162). Quarters are looked up by
    `indexOf`, which returns the first position holding the quarter. */
module QuarterRange {
  import opened Basics

  /** `Array.prototype.indexOf`: the first index holding `q`, or -1 when there is none. */
  function IndexOf(qs: seq<string>, q: string): (r: int)
    ensures -1 <= r < |qs|
    ensures r == -1 <==> q !in qs
    ensures 0 <= r ==> qs[r] == q && q !in qs[..r]
  {
    if qs == [] then -1
    else if qs[0] == q then 0
    else
      var k := IndexOf(qs[1..], q);
      assert k >= 0 ==> qs[..k + 1] == [qs[0]] + qs[1..][..k];
      if k == -1 then -1 else k + 1
  }

  /** In a list without repetitions every quarter is found at its own position. */
  lemma IndexOfDistinct(qs: seq<string>, k: nat)
    requires Distinct(qs) && k < |qs|
    ensures IndexOf(qs, qs[k]) == k
  {
    assert qs[IndexOf(qs, qs[k])] == qs[k];
  }

  /** What one pass of the aggregation effect does with the selected range: either it
      repairs an inverted range (and fetches nothing), or it fetches these quarters. */
  datatype RangeStep = Collapse | Fetch(quarters: seq<string>)

  /** Lines 63-72: look both ends up; an inverted range collapses, otherwise the
      inclusive slice between them is fetched. Both ends are quarters of the list: the
      dropdowns offer nothing else. */
  function SelectRange(qs: seq<string>, startQuarter: string, endQuarter: string): (r: RangeStep)
    requires startQuarter in qs && endQuarter in qs
    ensures r.Collapse? <==> IndexOf(qs, startQuarter) > IndexOf(qs, endQuarter)
    ensures r.Fetch? ==>
              && |r.quarters| > 0
              && r.quarters[0] == startQuarter && r.quarters[|r.quarters| - 1] == endQuarter
  {
    var startIndex := IndexOf(qs, startQuarter);
    var endIndex := IndexOf(qs, endQuarter);
    if startIndex > endIndex then Collapse else Fetch(qs[startIndex..endIndex + 1])
  }

  /** With distinct quarters at positions `a` and `b`: the range collapses iff `a > b`;
      otherwise the quarters at positions `a` to `b` are fetched, in list order,
      `b - a + 1` of them, from the start quarter to the end quarter. */
  lemma SelectRangeExact(qs: seq<string>, a: nat, b: nat)
    requires Distinct(qs) && a < |qs| && b < |qs|
    ensures SelectRange(qs, qs[a], qs[b]).Collapse? <==> a > b
    ensures a <= b ==>
              var fetched := SelectRange(qs, qs[a], qs[b]).quarters;
              && fetched == qs[a..b + 1]
              && |fetched| == b - a + 1
              && fetched[0] == qs[a] && fetched[|fetched| - 1] == qs[b]
  {
    IndexOfDistinct(qs, a);
    IndexOfDistinct(qs, b);
  }

  /** With distinct quarters and a range that does not collapse: a quarter is fetched
      exactly when its position lies between those of the two ends. */
  lemma SelectRangeMembers(qs: seq<string>, a: nat, b: nat, q: string)
    requires Distinct(qs) && a <= b < |qs|
    ensures q in SelectRange(qs, qs[a], qs[b]).quarters <==> q in qs && a <= IndexOf(qs, q) <= b
  {
    SelectRangeExact(qs, a, b);
    if q in qs[a..b + 1] {
      SliceMemberBetween(qs, a, b, q);
    }
    if q in qs && a <= IndexOf(qs, q) <= b {
      BetweenInSlice(qs, a, b, q);
    }
  }

  /** In a list without repetitions, a quarter of the slice from `a` to `b` is first
      found between `a` and `b`. */
  lemma SliceMemberBetween(qs: seq<string>, a: nat, b: nat, q: string)
    requires Distinct(qs) && a <= b < |qs| && q in qs[a..b + 1]
    ensures q in qs && a <= IndexOf(qs, q) <= b
  {
    var k :| 0 <= k < b + 1 - a && qs[a..b + 1][k] == q;
    assert qs[a + k] == q;
    IndexOfDistinct(qs, a + k);
  }

  /** A quarter first found between `a` and `b` lies in the slice from `a` to `b`. */
  lemma BetweenInSlice(qs: seq<string>, a: nat, b: nat, q: string)
    requires a <= b < |qs| && q in qs && a <= IndexOf(qs, q) <= b
    ensures q in qs[a..b + 1]
  {
    assert qs[a..b + 1][IndexOf(qs, q) - a] == q;
  }

  /** Line 162: the end dropdown offers the quarters from the start quarter onwards. */
  function EndQuarterOptions(qs: seq<string>, startQuarter: string): (r: seq<string>)
    requires startQuarter in qs
    ensures |r| > 0 && r[0] == startQuarter
    ensures |r| <= |qs| && r == qs[|qs| - |r|..]
  {
    qs[IndexOf(qs, startQuarter)..]
  }

  /** With distinct quarters, a quarter is an end option exactly when it is the start
      quarter or comes after it: none of them comes earlier in the list. */
  lemma EndQuarterOptionsMembers(qs: seq<string>, startQuarter: string, q: string)
    requires Distinct(qs) && startQuarter in qs
    ensures q in EndQuarterOptions(qs, startQuarter) <==>
              q in qs && IndexOf(qs, startQuarter) <= IndexOf(qs, q)
  {
    var a := IndexOf(qs, startQuarter);
    var b := |qs| - 1;
    assert EndQuarterOptions(qs, startQuarter) == qs[a..b + 1];
    if q in qs[a..b + 1] {
      SliceMemberBetween(qs, a, b, q);
    }
    if q in qs && a <= IndexOf(qs, q) {
      BetweenInSlice(qs, a, b, q);
    }
  }

  /** Lines 39-40: the default range, first to last quarter, fetches the whole list,
      and the end dropdown then offers every quarter. */
  lemma DefaultRangeIsWhole(qs: seq<string>)
    requires Distinct(qs) && qs != []
    ensures SelectRange(qs, qs[0], qs[|qs| - 1]) == Fetch(qs)
    ensures EndQuarterOptions(qs, qs[0]) == qs
  {
    SelectRangeExact(qs, 0, |qs| - 1);
    assert qs[0..|qs|] == qs;
  }

  /** After a collapse the end equals the start, so the next pass fetches exactly the
      start quarter. */
  lemma CollapsedRangeFetchesStart(qs: seq<string>, startQuarter: string)
    requires startQuarter in qs
    ensures SelectRange(qs, startQuarter, startQuarter) == Fetch([startQuarter])
  {
    var i := IndexOf(qs, startQuarter);
    assert qs[i..i + 1] == [qs[i]];
  }
}
