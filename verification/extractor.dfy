/** `FindSmallestIntervalAndRemoveFromSlice`: takes the smallest number of the flat sequence
    together with the slot after it, and returns what is left. */
module Extractor {
  import opened Intervals

  datatype Extracted = Extracted(first: int, second: int, rest: seq<int>)

  /** The source's scan, `best` being the index of the first minimum of `s[..i]`: an
      element replaces the current best only when strictly smaller. */
  function MinScan(s: seq<int>, i: nat, best: nat): (m: nat)
    requires best < |s| && i <= |s| && best <= i
    requires forall j :: 0 <= j < i ==> s[best] <= s[j]
    requires forall j :: 0 <= j < best ==> s[best] < s[j]
    ensures m < |s|
    ensures forall j :: 0 <= j < |s| ==> s[m] <= s[j]
    ensures forall j :: 0 <= j < m ==> s[m] < s[j]
    decreases |s| - i
  {
    if i == |s| then best
    else MinScan(s, i + 1, if s[i] < s[best] then i else best)
  }

  /** Index of the first occurrence of the minimum of a non-empty sequence. */
  function FirstMinIndex(s: seq<int>): (m: nat)
    requires |s| > 0
    ensures m < |s|
    ensures forall j :: 0 <= j < |s| ==> s[m] <= s[j]
    ensures forall j :: 0 <= j < m ==> s[m] < s[j]
  {
    MinScan(s, 0, 0)
  }

  /** The first-minimum conditions pin the index down: no other index meets them. */
  lemma FirstMinIndexUnique(s: seq<int>, m: nat)
    requires m < |s|
    requires forall j :: 0 <= j < |s| ==> s[m] <= s[j]
    requires forall j :: 0 <= j < m ==> s[m] < s[j]
    ensures FirstMinIndex(s) == m
  {
    var f := FirstMinIndex(s);
    assert s[f] <= s[m] && s[m] <= s[f];
  }

  /** The inputs on which the source's `intervals[minIndex+2:]` stays within the slice:
      otherwise (minimum in the last slot) the Go code panics. */
  predicate CanExtract(s: seq<int>) {
    |s| == 0 || FirstMinIndex(s) + 1 < |s|
  }

  function ExtractSmallest(s: seq<int>): (r: Extracted)
    requires CanExtract(s)
    ensures |s| == 0 ==> r == Extracted(0, 0, [])
    ensures |s| > 0 ==> |r.rest| == |s| - 2
    ensures |s| > 0 ==> forall j :: 0 <= j < |s| ==> r.first <= s[j]
    ensures |s| > 0 ==>
      var m := FirstMinIndex(s);
      r.first == s[m] && r.second == s[m + 1] && r.rest == s[..m] + s[m + 2..]
  {
    if |s| == 0 then Extracted(0, 0, s)
    else
      var m := FirstMinIndex(s);
      Extracted(s[m], s[m + 1], s[..m] + s[m + 2..])
  }

  /** Extraction loses and invents no element: the two values taken out and the rest
      together are the input, as a multiset. */
  lemma ExtractIsPermutation(s: seq<int>)
    requires CanExtract(s) && |s| > 0
    ensures var r := ExtractSmallest(s);
      multiset(r.rest) + multiset{r.first, r.second} == multiset(s)
  {
    var m := FirstMinIndex(s);
    assert s == s[..m] + [s[m], s[m + 1]] + s[m + 2..];
  }

  /** The extraction at a known first minimum `m`. */
  lemma ExtractAt(s: seq<int>, m: nat)
    requires m + 1 < |s|
    requires forall j :: 0 <= j < |s| ==> s[m] <= s[j]
    requires forall j :: 0 <= j < m ==> s[m] < s[j]
    ensures CanExtract(s)
    ensures ExtractSmallest(s) == Extracted(s[m], s[m + 1], s[..m] + s[m + 2..])
  {
    FirstMinIndexUnique(s, m);
  }

  /** On a sequence of ascending pairs the first minimum is a pair's lower bound, so the
      fixed removal of slots m and m+1 takes out exactly one whole pair: the first pair
      with the smallest lower bound. The pairs left keep their order and shape. */
  lemma {:induction false} ExtractWholePair(s: seq<int>)
    requires PairsOrdered(s) && |s| > 0
    ensures FirstMinIndex(s) % 2 == 0
    ensures CanExtract(s)
    ensures
      var k := FirstMinIndex(s) / 2;
      var r := ExtractSmallest(s);
      && Pairs(s)[k] == Interval(r.first, r.second)
      && Pairs(r.rest) == Pairs(s)[..k] + Pairs(s)[k + 1..]
      && PairsOrdered(r.rest)
      && r.first < r.second
      && (forall i :: 0 <= i < k ==> r.first < Pairs(s)[i].lo)
      && LowerBounded(Pairs(s), r.first)
  {
    var m := FirstMinIndex(s);
    if m % 2 == 1 {
      PairsIndex(s, m / 2);
      assert false;
    }
    var k := m / 2;
    var ps := Pairs(s);
    PairsIndex(s, k);
    PairsRemove(s, k);
    var r := ExtractSmallest(s);
    assert Ascending(Pairs(r.rest)) by {
      forall p | p in Pairs(r.rest)
        ensures p.lo < p.hi
      {
        assert p in ps[..k] || p in ps[k + 1..];
      }
    }
    forall i | 0 <= i < k
      ensures r.first < ps[i].lo
    {
      PairsIndex(s, i);
    }
    forall p | p in ps
      ensures r.first <= p.lo
    {
      var i :| 0 <= i < |ps| && ps[i] == p;
      PairsIndex(s, i);
    }
  }

  /** On ascending pairs, the points the input covers are those of the extracted pair
      and those the remaining pairs cover; every remaining pair starts at or above the
      extracted lower bound. */
  lemma ExtractCoverage(s: seq<int>)
    requires PairsOrdered(s) && |s| > 0
    ensures CanExtract(s)
    ensures var r := ExtractSmallest(s);
      && LowerBounded(Pairs(r.rest), r.first)
      && forall x :: Covered(Pairs(s), x) <==> (r.first <= x <= r.second || Covered(Pairs(r.rest), x))
  {
    ExtractWholePair(s);
    var k := FirstMinIndex(s) / 2;
    CoveredRemove(Pairs(s), k);
    SubPairsBounded(Pairs(s), k, ExtractSmallest(s).first);
  }
}
