/** `MERGE`: parse the text, then repeatedly extract the smallest pair and merge the rest
    into it until nothing is left, writing each finished interval out in that order. */
module Driver {
  import opened Wrappers
  import opened Decimal
  import opened Grammar
  import opened Intervals
  import opened Parser
  import opened Extractor
  import opened Merger

  /** The loop of the driver over the working sequence, one finished interval per round.
      Each round removes at least one pair, so the loop ends. */
  function Rounds(nums: seq<int>): (out: seq<Interval>)
    requires PairsOrdered(nums)
    ensures |out| <= |nums| / 2
    ensures |out| == 0 <==> |nums| == 0
    ensures Ascending(out)
    ensures forall i, j :: 0 <= i < j < |out| ==> out[i].lo < out[j].lo
    ensures forall lb :: LowerBounded(Pairs(nums), lb) ==> LowerBounded(out, lb)
    decreases |nums|
  {
    if |nums| == 0 then []
    else
      ExtractWholePair(nums);
      var e := ExtractSmallest(nums);
      var m := MergeInto(e.first, e.second, e.rest);
      assert LowerBounded(Pairs(m.rest), e.second);
      var later := Rounds(m.rest);
      assert LowerBounded(later, e.second);
      assert forall lb :: LowerBounded(Pairs(nums), lb) ==> lb <= e.first by {
        assert Interval(e.first, e.second) in Pairs(nums);
      }
      PrependFinished(Interval(m.lo, m.hi), later, e.second);
      [Interval(m.lo, m.hi)] + later
  }

  /** A finished interval placed before later ones that start at or above `b`. */
  lemma PrependFinished(iv: Interval, later: seq<Interval>, b: int)
    requires iv.lo < iv.hi && iv.lo < b
    requires LowerBounded(later, b) && Ascending(later)
    requires forall i, j :: 0 <= i < j < |later| ==> later[i].lo < later[j].lo
    ensures Ascending([iv] + later)
    ensures forall i, j :: 0 <= i < j < |later| + 1 ==> ([iv] + later)[i].lo < ([iv] + later)[j].lo
    ensures forall lb :: lb <= iv.lo ==> LowerBounded([iv] + later, lb)
  {
    var out := [iv] + later;
    forall i, j | 0 <= i < j < |out|
      ensures out[i].lo < out[j].lo
    {
      assert out[j] == later[j - 1];
      if i > 0 {
        assert out[i] == later[i - 1];
      } else {
        assert later[j - 1] in later;
      }
    }
  }

  /** One round of the loop, unfolded. */
  lemma RoundsStep(nums: seq<int>, first: int, second: int, rest: seq<int>, hi: int, left: seq<int>)
    requires PairsOrdered(nums) && |nums| > 0
    requires CanExtract(nums) && ExtractSmallest(nums) == Extracted(first, second, rest)
    requires MergeInto(first, second, rest) == Merged(first, hi, left)
    ensures PairsOrdered(left)
    ensures Rounds(nums) == [Interval(first, hi)] + Rounds(left)
  {
    ExtractWholePair(nums);
  }

  /** One output token, as the source writes it with `strconv.Itoa`. For non-negative
      bounds it is a token of the input grammar, with no space after it. */
  function Format(iv: Interval): (s: string)
    ensures iv.lo >= 0 && iv.hi >= 0 ==>
      var t := Token(Itoa(iv.lo), Itoa(iv.hi), false);
      WellFormed(t) && s == Text(t)
  {
    "[" + Itoa(iv.lo) + "," + Itoa(iv.hi) + "]"
  }

  /** A written interval with bounds the parser accepts reads back as that interval. */
  lemma FormatReparses(iv: Interval)
    requires 0 <= iv.lo < iv.hi <= MaxBound
    ensures Parse(Format(iv)) == Success([iv.lo, iv.hi])
  {
    var t := Token(Itoa(iv.lo), Itoa(iv.hi), false);
    UnlexOne(t);
    assert CheckPair(t) == Success(iv);
    assert Flatten([iv]) == [iv.lo, iv.hi];
    ParseUnlex([t], [iv]);
  }

  /** The output text: the tokens in order, separated by single spaces. The source builds
      the same string by appending `[lo,hi]` in the first round and ` [lo,hi]` after. */
  function Render(ivs: seq<Interval>): (s: string)
    ensures s == [] <==> ivs == []
  {
    if ivs == [] then ""
    else if |ivs| == 1 then Format(ivs[0])
    else Format(ivs[0]) + " " + Render(ivs[1..])
  }

  /** The tokens of the output: every interval, each but the last followed by a space. */
  function OutputTokens(ivs: seq<Interval>): seq<Token> {
    seq(|ivs|, i requires 0 <= i < |ivs| => Token(Itoa(ivs[i].lo), Itoa(ivs[i].hi), i < |ivs| - 1))
  }

  function Merge(input: string): (output: string)
    ensures output == [] <==> Parse(input).Failure?
  {
    match Parse(input)
    case Failure(_) => ""
    case Success(nums) => Render(Rounds(nums))
  }

  /** On accepted input the output is the rendering of the rounds. */
  lemma MergeParsed(input: string)
    requires Parse(input).Success?
    ensures Merge(input) == Render(Rounds(Parse(input).value))
  {
  }

  /** Every finished interval stays below any bound the input pairs respect. */
  lemma {:induction false} RoundsUpperBounded(nums: seq<int>, ub: int)
    requires PairsOrdered(nums) && UpperBounded(Pairs(nums), ub)
    ensures UpperBounded(Rounds(nums), ub)
    decreases |nums|
  {
    if |nums| > 0 {
      ExtractWholePair(nums);
      var e := ExtractSmallest(nums);
      var k := FirstMinIndex(nums) / 2;
      var m := MergeInto(e.first, e.second, e.rest);
      assert Pairs(nums)[k] in Pairs(nums);
      assert UpperBounded(Pairs(e.rest), ub) by {
        forall p | p in Pairs(e.rest)
          ensures p.hi <= ub
        {
          assert p in Pairs(nums)[..k] || p in Pairs(nums)[k + 1..];
        }
      }
      MergeIntoBounded(e.first, e.second, e.rest, ub);
      RoundsUpperBounded(m.rest, ub);
      assert Rounds(nums) == [Interval(e.first, m.hi)] + Rounds(m.rest);
    }
  }

  /** One round loses and invents no point: the input pairs cover what the finished
      interval and the pairs left for later rounds cover. */
  lemma RoundCoverage(nums: seq<int>)
    requires PairsOrdered(nums) && |nums| > 0
    ensures CanExtract(nums)
    ensures var e := ExtractSmallest(nums);
      var m := MergeInto(e.first, e.second, e.rest);
      forall x :: Covered(Pairs(nums), x) <==> (e.first <= x <= m.hi || Covered(Pairs(m.rest), x))
  {
    ExtractWholePair(nums);
    ExtractCoverage(nums);
    var e := ExtractSmallest(nums);
    MergeCoverage(e.first, e.second, e.rest);
  }

  /** The finished intervals cover exactly the points the input pairs cover. */
  lemma {:induction false} RoundsCoverage(nums: seq<int>)
    requires PairsOrdered(nums)
    ensures forall x :: Covered(Rounds(nums), x) <==> Covered(Pairs(nums), x)
    decreases |nums|
  {
    if |nums| > 0 {
      RoundCoverage(nums);
      var e := ExtractSmallest(nums);
      var m := MergeInto(e.first, e.second, e.rest);
      MergeIntoIsFold(e.first, e.second, e.rest);
      RoundsStep(nums, e.first, e.second, e.rest, m.hi, m.rest);
      RoundsCoverage(m.rest);
      var first := Interval(e.first, m.hi);
      forall x
        ensures Covered(Rounds(nums), x) <==> Covered(Pairs(nums), x)
      {
        CoveredConcat([first], Rounds(m.rest), x);
        CoveredSingle(first, x);
      }
    }
  }

  /** The output text is the text of its token list. */
  lemma {:induction false} RenderIsUnlex(ivs: seq<Interval>)
    ensures Render(ivs) == Unlex(OutputTokens(ivs))
    decreases |ivs|
  {
    if |ivs| > 0 {
      var ts := OutputTokens(ivs);
      RenderIsUnlex(ivs[1..]);
      assert ts[1..] == OutputTokens(ivs[1..]);
      if |ivs| == 1 {
        assert Unlex(ts[1..]) == [];
      }
    }
  }

  /** The tokens of in-bounds ascending intervals pass the parser's checks and denote
      those intervals. */
  lemma OutputTokensDenote(ivs: seq<Interval>)
    requires Ascending(ivs) && LowerBounded(ivs, 0) && UpperBounded(ivs, MaxBound)
    ensures AllWellFormed(OutputTokens(ivs))
    ensures forall i :: 0 <= i < |ivs| ==>
      CheckPair(OutputTokens(ivs)[i]) == Success(ivs[i])
  {
    var ts := OutputTokens(ivs);
    forall i | 0 <= i < |ivs|
      ensures WellFormed(ts[i]) && CheckPair(ts[i]) == Success(ivs[i])
    {
      assert ivs[i] in ivs;
      ValueOfDigits(ivs[i].lo);
      ValueOfDigits(ivs[i].hi);
    }
  }

  /** Non-negative output is written in the grammar of the input: reading it back yields
      the same intervals. */
  lemma RenderReparses(ivs: seq<Interval>)
    requires 1 <= |ivs| <= MaxPairs
    requires Ascending(ivs) && LowerBounded(ivs, 0) && UpperBounded(ivs, MaxBound)
    ensures Lex(Render(ivs)) == Some(OutputTokens(ivs))
    ensures Parse(Render(ivs)) == Success(Flatten(ivs))
  {
    var ts := OutputTokens(ivs);
    assert Lex(Render(ivs)) == Some(ts) by {
      OutputTokensDenote(ivs);
      RenderIsUnlex(ivs);
      LexUnlex(ts);
    }
    OutputTokensDenote(ivs);
    ConvertPairsOf(ts, ivs);
  }

  /** What `MERGE` guarantees on input the parser accepts: at least one and at most as
      many intervals as input pairs, each ascending and within the input bounds, lower
      bounds strictly increasing in output order, the same points covered as by the
      input, and a text that is itself valid input denoting those intervals. */
  lemma MergeAccepted(input: string)
    requires Parse(input).Success?
    ensures var nums := Parse(input).value;
      var out := Rounds(nums);
      && 1 <= |out| <= |nums| / 2 <= MaxPairs
      && Ascending(out) && LowerBounded(out, 0) && UpperBounded(out, MaxBound)
      && (forall i, j :: 0 <= i < j < |out| ==> out[i].lo < out[j].lo)
      && (forall x :: Covered(out, x) <==> Covered(Pairs(nums), x))
      && Lex(Merge(input)) == Some(OutputTokens(out))
      && Parse(Merge(input)) == Success(Flatten(out))
  {
    var nums := Parse(input).value;
    var out := Rounds(nums);
    RoundsUpperBounded(nums, MaxBound);
    RoundsCoverage(nums);
    RenderReparses(out);
  }
}
