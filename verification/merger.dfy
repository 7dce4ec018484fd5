/** `IntervalMerger`: one left-to-right sweep over the pairs of a flat sequence that absorbs
    into a working interval every pair starting strictly below its running upper bound. */
module Merger {
  import opened Intervals

  datatype Merged = Merged(lo: int, hi: int, rest: seq<int>)

  /** The running upper bound after visiting pair `p`. */
  function Step(hi: int, p: Interval): (r: int)
    ensures hi <= r
    ensures p.lo < hi ==> p.hi <= r
    ensures r == hi || (p.lo < hi && r == p.hi)
  {
    if p.lo < hi then Max(hi, p.hi) else hi
  }

  /** The sweep over `t`, the part of the slice not visited yet: returns the final upper
      bound and, in order, the pairs left unabsorbed. A lone trailing slot is ignored. */
  function Sweep(hi: int, t: seq<int>): (r: (int, seq<int>))
    ensures hi <= r.0
    ensures |r.1| % 2 == 0 && |r.1| <= |t|
    ensures forall p :: p in Pairs(r.1) ==> p in Pairs(t) && hi <= p.lo
    ensures Ascending(Pairs(t)) ==> Ascending(Pairs(r.1))
    decreases |t|
  {
    if |t| < 2 then (hi, [])
    else
      assert Pairs(t) == [Interval(t[0], t[1])] + Pairs(t[2..]);
      assert Interval(t[0], t[1]) in Pairs(t);
      if t[0] < hi then
        Sweep(if t[1] > hi then t[1] else hi, t[2..])
      else
        var (h, kept) := Sweep(hi, t[2..]);
        PairsCons(t[0], t[1], kept);
        assert t[..2] == [t[0], t[1]];
        (h, t[..2] + kept)
  }

  function MergeInto(lo: int, hi: int, s: seq<int>): (r: Merged)
    ensures r.lo == lo
    ensures hi <= r.hi
    ensures |r.rest| % 2 == 0 && |r.rest| <= |s|
    ensures forall p :: p in Pairs(r.rest) ==> p in Pairs(s) && hi <= p.lo
    ensures Ascending(Pairs(s)) ==> Ascending(Pairs(r.rest))
  {
    var (h, kept) := Sweep(hi, s);
    Merged(lo, h, kept)
  }

  /** The merged upper bound stays below any bound that the input upper bound and every
      pair's upper bound respect. */
  lemma {:induction false} MergeIntoBounded(lo: int, hi: int, s: seq<int>, ub: int)
    requires hi <= ub && UpperBounded(Pairs(s), ub)
    ensures MergeInto(lo, hi, s).hi <= ub
    decreases |s|
  {
    if |s| >= 2 {
      assert Pairs(s) == [Interval(s[0], s[1])] + Pairs(s[2..]);
      assert Interval(s[0], s[1]) in Pairs(s);
      if s[0] < hi {
        MergeIntoBounded(lo, if s[1] > hi then s[1] else hi, s[2..], ub);
      } else {
        MergeIntoBounded(lo, hi, s[2..], ub);
      }
    }
  }

  // The state of the sweep after its first n pairs, written as a fold over that prefix.

  /** The running upper bound once the first `n` pairs of `ps` have been visited. */
  function HiAfter(hi: int, ps: seq<Interval>, n: nat): int
    requires n <= |ps|
  {
    if n == 0 then hi else Step(HiAfter(hi, ps, n - 1), ps[n - 1])
  }

  /** Pair `k` is absorbed when it starts strictly below the running upper bound at the
      moment it is visited; a pair that only touches it is kept. */
  predicate Absorbed(hi: int, ps: seq<Interval>, k: nat)
    requires k < |ps|
  {
    ps[k].lo < HiAfter(hi, ps, k)
  }

  /** The unabsorbed pairs among the first `n`, in their original order. */
  function KeptPairs(hi: int, ps: seq<Interval>, n: nat): seq<Interval>
    requires n <= |ps|
  {
    if n == 0 then []
    else KeptPairs(hi, ps, n - 1) + (if Absorbed(hi, ps, n - 1) then [] else [ps[n - 1]])
  }

  lemma {:induction false} HiAfterCons(hi: int, p: Interval, qs: seq<Interval>, n: nat)
    requires n <= |qs|
    ensures HiAfter(hi, [p] + qs, n + 1) == HiAfter(Step(hi, p), qs, n)
    decreases n
  {
    if n > 0 {
      HiAfterCons(hi, p, qs, n - 1);
      assert ([p] + qs)[n] == qs[n - 1];
    }
  }

  lemma {:induction false} KeptPairsCons(hi: int, p: Interval, qs: seq<Interval>, n: nat)
    requires n <= |qs|
    ensures KeptPairs(hi, [p] + qs, n + 1) == (if p.lo < hi then [] else [p]) + KeptPairs(Step(hi, p), qs, n)
    decreases n
  {
    var ps := [p] + qs;
    var first: seq<Interval> := if p.lo < hi then [] else [p];
    if n == 0 {
      assert KeptPairs(hi, ps, 1) == [] + first by {
        assert ps[0] == p;
      }
      assert [] + first == first + [];
    } else {
      KeptPairsCons(hi, p, qs, n - 1);
      HiAfterCons(hi, p, qs, n - 1);
      assert ps[n] == qs[n - 1];
      var last: seq<Interval> := if Absorbed(Step(hi, p), qs, n - 1) then [] else [qs[n - 1]];
      assert Absorbed(hi, ps, n) == Absorbed(Step(hi, p), qs, n - 1);
      assert KeptPairs(hi, ps, n + 1) == (first + KeptPairs(Step(hi, p), qs, n - 1)) + last;
      assert KeptPairs(Step(hi, p), qs, n) == KeptPairs(Step(hi, p), qs, n - 1) + last;
    }
  }

  /** The sweep computes the prefix fold: its upper bound is the running bound after the
      last pair, and what it keeps is exactly the pairs not absorbed, in order. */
  lemma {:induction false} SweepIsFold(hi: int, t: seq<int>)
    ensures Sweep(hi, t).0 == HiAfter(hi, Pairs(t), |Pairs(t)|)
    ensures Pairs(Sweep(hi, t).1) == KeptPairs(hi, Pairs(t), |Pairs(t)|)
    decreases |t|
  {
    if |t| >= 2 {
      var p := Interval(t[0], t[1]);
      var qs := Pairs(t[2..]);
      assert Pairs(t) == [p] + qs;
      SweepIsFold(Step(hi, p), t[2..]);
      HiAfterCons(hi, p, qs, |qs|);
      KeptPairsCons(hi, p, qs, |qs|);
      if t[0] >= hi {
        var kept := Sweep(hi, t[2..]).1;
        assert t[..2] == [t[0], t[1]];
        PairsCons(t[0], t[1], kept);
      }
    }
  }

  /** The merger's result in terms of the fold: the working interval keeps its lower
      bound, its upper bound is the running bound after every pair has been visited, and
      the remainder is the in-order list of pairs that started at or above the running
      bound when visited. */
  lemma MergeIntoIsFold(lo: int, hi: int, s: seq<int>)
    ensures MergeInto(lo, hi, s).lo == lo
    ensures MergeInto(lo, hi, s).hi == HiAfter(hi, Pairs(s), |s| / 2)
    ensures Pairs(MergeInto(lo, hi, s).rest) == KeptPairs(hi, Pairs(s), |s| / 2)
  {
    SweepIsFold(hi, s);
  }

  /** The running bound never decreases, and it always reaches the upper bound of every
      pair absorbed so far. */
  lemma {:induction false} HiAfterGrows(hi: int, ps: seq<Interval>, n: nat)
    requires n <= |ps|
    ensures hi <= HiAfter(hi, ps, n)
    ensures forall k :: 0 <= k < n ==> HiAfter(hi, ps, k) <= HiAfter(hi, ps, n)
    ensures forall k :: 0 <= k < n && Absorbed(hi, ps, k) ==> ps[k].hi <= HiAfter(hi, ps, n)
    decreases n
  {
    if n > 0 {
      HiAfterGrows(hi, ps, n - 1);
      var h := HiAfter(hi, ps, n - 1);
      var p := ps[n - 1];
      assert HiAfter(hi, ps, n) == Step(h, p);
      assert p.lo < h ==> p.hi <= Step(h, p);
      forall k | 0 <= k < n
        ensures HiAfter(hi, ps, k) <= HiAfter(hi, ps, n)
        ensures Absorbed(hi, ps, k) ==> ps[k].hi <= HiAfter(hi, ps, n)
      {
        if k < n - 1 {
          assert HiAfter(hi, ps, k) <= h;
          assert Absorbed(hi, ps, k) ==> ps[k].hi <= h;
        }
      }
    }
  }

  /** The running bound is the starting bound or the upper bound of an absorbed pair:
      together with `HiAfterGrows`, it is the maximum of the two. */
  lemma {:induction false} HiAfterAttained(hi: int, ps: seq<Interval>, n: nat)
    requires n <= |ps|
    ensures HiAfter(hi, ps, n) == hi
      || exists k :: 0 <= k < n && Absorbed(hi, ps, k) && ps[k].hi == HiAfter(hi, ps, n)
    decreases n
  {
    if n > 0 {
      HiAfterAttained(hi, ps, n - 1);
      if HiAfter(hi, ps, n) != HiAfter(hi, ps, n - 1) {
        assert Absorbed(hi, ps, n - 1);
      }
    }
  }

  /** The merged upper bound is the maximum of the input upper bound and the upper bounds
      of the absorbed pairs. */
  lemma MergeHiIsMax(lo: int, hi: int, s: seq<int>)
    ensures var r := MergeInto(lo, hi, s);
      var ps := Pairs(s);
      && (forall k :: 0 <= k < |ps| && Absorbed(hi, ps, k) ==> ps[k].hi <= r.hi)
      && (r.hi == hi || exists k :: 0 <= k < |ps| && Absorbed(hi, ps, k) && ps[k].hi == r.hi)
  {
    MergeIntoIsFold(lo, hi, s);
    HiAfterGrows(hi, Pairs(s), |s| / 2);
    HiAfterAttained(hi, Pairs(s), |s| / 2);
  }

  /** On an even-length sequence the merger hands back its input unchanged exactly when no
      pair starts below the input upper bound; the upper bound is then unchanged too. A
      pair touching the bound (`a == hi`) therefore stays. */
  lemma {:induction false} MergeUnchanged(lo: int, hi: int, s: seq<int>)
    requires |s| % 2 == 0
    ensures MergeInto(lo, hi, s).rest == s <==> forall p :: p in Pairs(s) ==> hi <= p.lo
    ensures (forall p :: p in Pairs(s) ==> hi <= p.lo) ==> MergeInto(lo, hi, s).hi == hi
    decreases |s|
  {
    if |s| >= 2 {
      var p := Interval(s[0], s[1]);
      assert Pairs(s) == [p] + Pairs(s[2..]);
      MergeUnchanged(lo, hi, s[2..]);
      if s[0] >= hi {
        assert s == s[..2] + s[2..];
      }
    }
  }

  /** A lone trailing slot makes no difference to the merger. */
  lemma {:induction false} MergeDropsOddTail(lo: int, hi: int, s: seq<int>, x: int)
    requires |s| % 2 == 0
    ensures MergeInto(lo, hi, s + [x]) == MergeInto(lo, hi, s)
    decreases |s|
  {
    if |s| >= 2 {
      assert (s + [x])[2..] == s[2..] + [x];
      if s[0] < hi {
        MergeDropsOddTail(lo, if s[1] > hi then s[1] else hi, s[2..], x);
      } else {
        MergeDropsOddTail(lo, hi, s[2..], x);
      }
    }
  }

  /** When every pair starts at or above `lo`, the points covered by the working interval
      and the kept pairs after n pairs are the points covered by the working interval at
      the start and the first n pairs: absorption loses and invents no point. */
  lemma {:induction false} KeptCoverage(lo: int, hi: int, ps: seq<Interval>, n: nat)
    requires n <= |ps|
    requires LowerBounded(ps, lo)
    ensures forall x ::
      ((lo <= x <= HiAfter(hi, ps, n) || Covered(KeptPairs(hi, ps, n), x))
       <==> (lo <= x <= hi || Covered(ps[..n], x)))
    decreases n
  {
    if n > 0 {
      KeptCoverage(lo, hi, ps, n - 1);
      var p := ps[n - 1];
      assert ps[..n] == ps[..n - 1] + [p];
      forall x
        ensures (lo <= x <= HiAfter(hi, ps, n) || Covered(KeptPairs(hi, ps, n), x))
          <==> (lo <= x <= hi || Covered(ps[..n], x))
      {
        CoveredConcat(ps[..n - 1], [p], x);
        CoveredSingle(p, x);
        var kept := KeptPairs(hi, ps, n - 1);
        if Absorbed(hi, ps, n - 1) {
          assert KeptPairs(hi, ps, n) == kept + [];
          assert kept + [] == kept;
        } else {
          CoveredConcat(kept, [p], x);
        }
      }
    }
  }

  /** When every pair starts at or above `lo`, merging loses and invents no point: the
      merged interval and the remainder cover what `[lo, hi]` and the input pairs cover. */
  lemma MergeCoverage(lo: int, hi: int, s: seq<int>)
    requires LowerBounded(Pairs(s), lo)
    ensures var r := MergeInto(lo, hi, s);
      forall x :: (lo <= x <= r.hi || Covered(Pairs(r.rest), x)) <==> (lo <= x <= hi || Covered(Pairs(s), x))
  {
    var ps := Pairs(s);
    MergeIntoIsFold(lo, hi, s);
    KeptCoverage(lo, hi, ps, |ps|);
    assert ps[..|ps|] == ps;
  }
}
