/** Intervals and the flat integer sequences `[a1, b1, a2, b2, ...]` that the merge
    engine threads between its steps. */
module Intervals {

  /** One `[lo,hi]` pair. */
  datatype Interval = Interval(lo: int, hi: int)

  function Max(a: int, b: int): int {
    if a < b then b else a
  }

  /** Groups a flat sequence into consecutive pairs; a trailing odd element is dropped. */
  function Pairs(s: seq<int>): (ps: seq<Interval>)
    ensures |ps| == |s| / 2
    decreases |s|
  {
    if |s| < 2 then [] else [Interval(s[0], s[1])] + Pairs(s[2..])
  }

  /** Writes pairs back as a flat sequence. */
  function Flatten(ps: seq<Interval>): (s: seq<int>)
    ensures |s| == 2 * |ps|
  {
    if ps == [] then [] else [ps[0].lo, ps[0].hi] + Flatten(ps[1..])
  }

  /** Every pair has its lower bound strictly below its upper bound. */
  predicate Ascending(ps: seq<Interval>) {
    forall p :: p in ps ==> p.lo < p.hi
  }

  /** The shape the parser produces: even length, and every pair ascending. */
  predicate PairsOrdered(s: seq<int>) {
    |s| % 2 == 0 && Ascending(Pairs(s))
  }

  predicate LowerBounded(ps: seq<Interval>, lb: int) {
    forall p :: p in ps ==> lb <= p.lo
  }

  predicate UpperBounded(ps: seq<Interval>, ub: int) {
    forall p :: p in ps ==> p.hi <= ub
  }

  /** The point `x` lies in the closed range of some interval of `ps`. */
  ghost predicate Covered(ps: seq<Interval>, x: int) {
    exists k :: 0 <= k < |ps| && ps[k].lo <= x <= ps[k].hi
  }

  lemma {:induction false} PairsIndex(s: seq<int>, k: nat)
    requires k < |s| / 2
    ensures Pairs(s)[k] == Interval(s[2 * k], s[2 * k + 1])
    decreases k
  {
    if k > 0 {
      PairsIndex(s[2..], k - 1);
    }
  }

  /** A flat sequence holds ascending pairs exactly when it has even length and each
      even slot is below the slot after it. */
  lemma PairsOrderedByIndex(s: seq<int>)
    ensures PairsOrdered(s) <==>
      |s| % 2 == 0 && forall k :: 0 <= k < |s| / 2 ==> s[2 * k] < s[2 * k + 1]
  {
    if |s| % 2 == 0 {
      if forall k :: 0 <= k < |s| / 2 ==> s[2 * k] < s[2 * k + 1] {
        forall p | p in Pairs(s)
          ensures p.lo < p.hi
        {
          var k :| 0 <= k < |Pairs(s)| && Pairs(s)[k] == p;
          PairsIndex(s, k);
        }
      }
      if PairsOrdered(s) {
        forall k | 0 <= k < |s| / 2
          ensures s[2 * k] < s[2 * k + 1]
        {
          PairsIndex(s, k);
          assert Pairs(s)[k] in Pairs(s);
        }
      }
    }
  }

  /** Pairs of a sequence that starts with one whole pair. */
  lemma PairsCons(a: int, b: int, s: seq<int>)
    ensures Pairs([a, b] + s) == [Interval(a, b)] + Pairs(s)
  {
    assert ([a, b] + s)[2..] == s;
  }

  /** Regrouping a flattened list gives the list back. */
  lemma {:induction false} PairsOfFlatten(ps: seq<Interval>)
    ensures Pairs(Flatten(ps)) == ps
  {
    if ps != [] {
      PairsOfFlatten(ps[1..]);
      PairsCons(ps[0].lo, ps[0].hi, Flatten(ps[1..]));
    }
  }

  /** Flattening the pairs of an even-length sequence gives the sequence back. */
  lemma {:induction false} FlattenOfPairs(s: seq<int>)
    requires |s| % 2 == 0
    ensures Flatten(Pairs(s)) == s
    decreases |s|
  {
    if |s| >= 2 {
      FlattenOfPairs(s[2..]);
      assert Pairs(s)[1..] == Pairs(s[2..]);
      assert s == [s[0], s[1]] + s[2..];
    }
  }

  /** Removing slots 2k and 2k+1 of a flat sequence removes exactly its k-th pair. */
  lemma {:induction false} PairsRemove(s: seq<int>, k: nat)
    requires k < |s| / 2
    ensures Pairs(s[..2 * k] + s[2 * k + 2..]) == Pairs(s)[..k] + Pairs(s)[k + 1..]
    decreases k
  {
    if k == 0 {
      assert s[..0] + s[2..] == s[2..];
      assert Pairs(s)[1..] == Pairs(s[2..]);
      assert Pairs(s)[..0] + Pairs(s)[1..] == Pairs(s)[1..];
    } else {
      var t := s[2..];
      var u := t[..2 * (k - 1)] + t[2 * (k - 1) + 2..];
      PairsRemove(t, k - 1);
      assert s[..2 * k] + s[2 * k + 2..] == [s[0], s[1]] + u;
      PairsCons(s[0], s[1], u);
      var p := Interval(s[0], s[1]);
      var ps := Pairs(t);
      assert Pairs(s) == [p] + ps;
      RemoveAfterHead(p, ps, k);
    }
  }

  /** Removing element `k` of `[p] + ps` removes element `k - 1` of `ps`. */
  lemma RemoveAfterHead<T>(p: T, ps: seq<T>, k: nat)
    requires 0 < k <= |ps|
    ensures ([p] + ps)[..k] + ([p] + ps)[k + 1..] == [p] + (ps[..k - 1] + ps[k..])
  {
    assert ([p] + ps)[..k] == [p] + ps[..k - 1];
    assert ([p] + ps)[k + 1..] == ps[k..];
  }

  lemma CoveredSingle(p: Interval, x: int)
    ensures Covered([p], x) <==> p.lo <= x <= p.hi
  {
    if p.lo <= x <= p.hi {
      assert [p][0] == p;
    }
  }

  lemma CoveredConcat(a: seq<Interval>, b: seq<Interval>, x: int)
    ensures Covered(a + b, x) <==> Covered(a, x) || Covered(b, x)
  {
    if Covered(a + b, x) {
      var k :| 0 <= k < |a + b| && (a + b)[k].lo <= x <= (a + b)[k].hi;
      if k < |a| {
        assert a[k] == (a + b)[k];
      } else {
        assert b[k - |a|] == (a + b)[k];
      }
    }
    if Covered(a, x) {
      var k :| 0 <= k < |a| && a[k].lo <= x <= a[k].hi;
      assert (a + b)[k] == a[k];
    }
    if Covered(b, x) {
      var k :| 0 <= k < |b| && b[k].lo <= x <= b[k].hi;
      assert (a + b)[|a| + k] == b[k];
    }
  }

  /** Splitting one interval out of a list splits its covered points accordingly. */
  lemma CoveredRemove(ps: seq<Interval>, k: nat)
    requires k < |ps|
    ensures forall x :: Covered(ps, x) <==> (ps[k].lo <= x <= ps[k].hi || Covered(ps[..k] + ps[k + 1..], x))
  {
    assert ps == ps[..k] + [ps[k]] + ps[k + 1..];
    forall x
      ensures Covered(ps, x) <==> (ps[k].lo <= x <= ps[k].hi || Covered(ps[..k] + ps[k + 1..], x))
    {
      CoveredConcat(ps[..k] + [ps[k]], ps[k + 1..], x);
      CoveredConcat(ps[..k], [ps[k]], x);
      CoveredSingle(ps[k], x);
      CoveredConcat(ps[..k], ps[k + 1..], x);
    }
  }

  /** Removing one interval keeps a lower bound on the lower ends. */
  lemma SubPairsBounded(ps: seq<Interval>, k: nat, lb: int)
    requires k < |ps| && LowerBounded(ps, lb)
    ensures LowerBounded(ps[..k] + ps[k + 1..], lb)
  {
    forall p | p in ps[..k] + ps[k + 1..]
      ensures lb <= p.lo
    {
      assert p in ps[..k] || p in ps[k + 1..];
    }
  }
}
