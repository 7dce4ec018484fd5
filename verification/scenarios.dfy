/** The concrete cases the source's own tests exercise, and the example of its entry point. */
module Scenarios {
  import opened Wrappers
  import opened Decimal
  import opened Grammar
  import opened Intervals
  import opened Parser
  import opened Extractor
  import opened Merger
  import opened Driver

  lemma ParseNotAscending()
    ensures Parse("[30,25]") == Failure(NotAscending)
    ensures Message(Parse("[30,25]").error) == "first number in the pair must be smaller than the second"
  {
    var t := Token("30", "25", false);
    assert Unlex([t]) == "[30,25]" by {
      UnlexOne(t);
    }
    assert CheckPair(t) == Failure(NotAscending) by {
      TwoDigitValue("30");
      TwoDigitValue("25");
    }
    ParseUnlexFails([t], 0, NotAscending);
    OrderingMessage();
  }

  lemma OrderingMessage()
    ensures Message(NotAscending) == "first number in the pair must be smaller than the second"
  {
  }

  lemma TwoChecks()
    ensures CheckPair(Token("2", "7", true)) == Success(Interval(2, 7))
    ensures CheckPair(Token("4", "10", false)) == Success(Interval(4, 10))
  {
    TwoDigitValue("10");
  }

  lemma ParseTwoPairs()
    ensures Parse("[2,7] [4,10]") == Success([2, 7, 4, 10])
  {
    var ts := [Token("2", "7", true), Token("4", "10", false)];
    var ivs := [Interval(2, 7), Interval(4, 10)];
    UnlexTwo(ts[0], ts[1]);
    assert Text(ts[0]) + Text(ts[1]) == "[2,7] [4,10]";
    TwoChecks();
    assert Flatten(ivs) == [2, 7, 4, 10] by {
      assert Flatten(ivs[1..]) == [4, 10];
    }
    ParseUnlex(ts, ivs);
  }

  lemma RoundsTwoPairs()
    ensures Rounds([2, 7, 4, 10]) == [Interval(2, 10)]
  {
    assert FirstMinIndex([2, 7, 4, 10]) == 0;
    assert ExtractSmallest([2, 7, 4, 10]) == Extracted(2, 7, [4, 10]);
    assert MergeInto(2, 7, [4, 10]) == Merged(2, 10, []);
  }

  lemma RenderOne()
    ensures Render([Interval(2, 10)]) == "[2,10]"
  {
    assert Digits(10) == "10";
  }

  lemma MergeTwoPairs()
    ensures Merge("[2,7] [4,10]") == "[2,10]"
  {
    RenderOne();
    ParseTwoPairs();
    RoundsTwoPairs();
    MergeParsed("[2,7] [4,10]");
  }

  lemma ParseRepeatedPair()
    ensures Parse("[2,7] [2,7]") == Success([2, 7, 2, 7])
  {
    var ts := [Token("2", "7", true), Token("2", "7", false)];
    var ivs := [Interval(2, 7), Interval(2, 7)];
    UnlexTwo(ts[0], ts[1]);
    assert Text(ts[0]) + Text(ts[1]) == "[2,7] [2,7]";
    assert Flatten(ivs) == [2, 7, 2, 7] by {
      assert Flatten(ivs[1..]) == [2, 7];
    }
    ParseUnlex(ts, ivs);
  }

  /** The second copy of the smallest pair is not the first minimum (the scan replaces
      its best only on a strictly smaller value), and it is then absorbed. */
  lemma RoundsRepeatedPair()
    ensures Rounds([2, 7, 2, 7]) == [Interval(2, 7)]
  {
    assert FirstMinIndex([2, 7, 2, 7]) == 0;
    assert ExtractSmallest([2, 7, 2, 7]) == Extracted(2, 7, [2, 7]);
    assert MergeInto(2, 7, [2, 7]) == Merged(2, 7, []);
  }

  lemma RenderSeven()
    ensures Render([Interval(2, 7)]) == "[2,7]"
  {
    assert Itoa(2) == "2" && Itoa(7) == "7";
  }

  lemma MergeRepeatedPair()
    ensures Merge("[2,7] [2,7]") == "[2,7]"
  {
    RenderSeven();
    ParseRepeatedPair();
    RoundsRepeatedPair();
    MergeParsed("[2,7] [2,7]");
  }

  lemma ParseApartPairs()
    ensures Parse("[2,5] [10,15]") == Success([2, 5, 10, 15])
  {
    var ts := [Token("2", "5", true), Token("10", "15", false)];
    var ivs := [Interval(2, 5), Interval(10, 15)];
    UnlexTwo(ts[0], ts[1]);
    assert Text(ts[0]) + Text(ts[1]) == "[2,5] [10,15]";
    TwoDigitValue("10");
    TwoDigitValue("15");
    assert Flatten(ivs) == [2, 5, 10, 15] by {
      assert Flatten(ivs[1..]) == [10, 15];
    }
    ParseUnlex(ts, ivs);
  }

  lemma ApartExtract()
    ensures PairsOrdered([2, 5, 10, 15])
    ensures CanExtract([2, 5, 10, 15])
    ensures ExtractSmallest([2, 5, 10, 15]) == Extracted(2, 5, [10, 15])
  {
    var s := [2, 5, 10, 15];
    PairsOrderedByIndex(s);
    ExtractAt(s, 0);
    assert s[..0] + s[2..] == [10, 15];
  }

  lemma ApartSweep()
    ensures MergeInto(2, 5, [10, 15]) == Merged(2, 5, [10, 15])
  {
  }

  /** A pair starting above the finished interval is left for the next round. */
  lemma ApartFirstRound()
    ensures PairsOrdered([2, 5, 10, 15]) && PairsOrdered([10, 15])
    ensures Rounds([2, 5, 10, 15]) == [Interval(2, 5)] + Rounds([10, 15])
  {
    ApartExtract();
    ApartSweep();
    RoundsStep([2, 5, 10, 15], 2, 5, [10, 15], 5, [10, 15]);
  }

  lemma RoundsApartPairs()
    ensures Rounds([2, 5, 10, 15]) == [Interval(2, 5), Interval(10, 15)]
  {
    var out := [Interval(2, 5), Interval(10, 15)];
    assert [Interval(2, 5)] + [Interval(10, 15)] == out by {
      assert out[..1] == [Interval(2, 5)] && out[1..] == [Interval(10, 15)];
    }
    ApartFirstRound();
    RoundsOfOne(10, 15);
  }

  lemma RenderApart()
    ensures Render([Interval(2, 5), Interval(10, 15)]) == "[2,5] [10,15]"
  {
    var ivs := [Interval(2, 5), Interval(10, 15)];
    assert Itoa(2) == "2" && Itoa(5) == "5";
    assert Itoa(10) == "10" && Itoa(15) == "15";
    assert ivs[1..] == [Interval(10, 15)];
    assert Render(ivs) == "[2,5]" + " " + "[10,15]";
  }

  lemma MergeApartPairs()
    ensures Merge("[2,5] [10,15]") == "[2,5] [10,15]"
  {
    ParseApartPairs();
    RoundsApartPairs();
    RenderApart();
    MergeParsed("[2,5] [10,15]");
  }

  lemma ValueOf10001()
    ensures Value("10001") == 10001
  {
    assert "10" [..1] == "1";
    assert Value("10") == 10;
    assert "100"[..2] == "10";
    assert Value("100") == 100;
    assert "1000"[..3] == "100";
    assert Value("1000") == 1000;
    assert "10001"[..4] == "1000";
  }

  lemma ParseBoundExceeded()
    ensures Parse("[1,10001]") == Failure(BoundExceeded)
    ensures Message(Parse("[1,10001]").error) == "numbers cannot be bigger than 10,000"
  {
    var ts := [Token("1", "10001", false)];
    assert Unlex(ts) == "[1,10001]";
    LexUnlex(ts);
    ValueOf10001();
    assert CheckPair(ts[0]) == Failure(BoundExceeded);
  }

  lemma ParseRejectsFormat()
    ensures Parse("invalid string format") == Failure(FormatInvalid)
    ensures Message(Parse("invalid string format").error) == "input format is invalid"
  {
  }

  /** The empty input is rejected by the format check, and the driver then writes nothing. */
  lemma MergeEmptyInput()
    ensures Parse("") == Failure(FormatInvalid)
    ensures Merge("") == ""
  {
  }

  lemma ExtractCases()
    ensures ExtractSmallest([]) == Extracted(0, 0, [])
    ensures ExtractSmallest([3, 5]) == Extracted(3, 5, [])
  {
    var s := [3, 5];
    ExtractAt(s, 0);
    assert s[..0] + s[2..] == [];
  }

  lemma MiddleRest(s: seq<int>)
    requires s == [25, 30, 2, 19, 14, 23, 4, 8]
    ensures s[..2] + s[4..] == [25, 30, 14, 23, 4, 8]
  {
    assert s[..2] == [25, 30];
    assert s[4..] == [14, 23, 4, 8];
  }

  lemma MiddleMin(s: seq<int>)
    requires s == [25, 30, 2, 19, 14, 23, 4, 8]
    ensures forall j :: 0 <= j < |s| ==> s[2] <= s[j]
    ensures forall j :: 0 <= j < 2 ==> s[2] < s[j]
  {
    forall j | 0 <= j < |s|
      ensures s[2] <= s[j]
    {
      assert j in {0, 1, 2, 3, 4, 5, 6, 7};
    }
  }

  lemma ExtractFromMiddle()
    ensures ExtractSmallest([25, 30, 2, 19, 14, 23, 4, 8]) == Extracted(2, 19, [25, 30, 14, 23, 4, 8])
  {
    var s := [25, 30, 2, 19, 14, 23, 4, 8];
    MiddleMin(s);
    ExtractAt(s, 2);
    MiddleRest(s);
  }

  lemma ExtractFromFront()
    ensures ExtractSmallest([10, 20, 30, 40, 50, 60]) == Extracted(10, 20, [30, 40, 50, 60])
  {
    var s := [10, 20, 30, 40, 50, 60];
    forall j | 0 <= j < |s|
      ensures s[0] <= s[j]
    {
      assert j in {0, 1, 2, 3, 4, 5};
    }
    ExtractAt(s, 0);
    assert s[..0] + s[2..] == [30, 40, 50, 60];
  }

  lemma MergeIntoAbsorbs()
    ensures MergeInto(10, 20, [15, 25, 21, 23, 22, 24, 60, 70]) == Merged(10, 25, [60, 70])
  {
  }

  lemma MergeIntoKeeps()
    ensures MergeInto(10, 12, [15, 25, 21, 23, 22, 24]) == Merged(10, 12, [15, 25, 21, 23, 22, 24])
  {
  }

  /** A single remaining pair is finished as it is. */
  lemma RoundsOfOne(a: int, b: int)
    requires a < b
    ensures Rounds([a, b]) == [Interval(a, b)]
  {
    FirstMinIndexUnique([a, b], 0);
    assert PairsOrdered([a, b]) by {
      PairsCons(a, b, []);
    }
    RoundsStep([a, b], a, b, [], b, []);
  }

  lemma OverlapSweep()
    ensures MergeInto(1, 5, [6, 10, 4, 7]) == Merged(1, 7, [6, 10])
  {
  }

  lemma OverlapExtract()
    ensures PairsOrdered([1, 5, 6, 10, 4, 7])
    ensures CanExtract([1, 5, 6, 10, 4, 7])
    ensures ExtractSmallest([1, 5, 6, 10, 4, 7]) == Extracted(1, 5, [6, 10, 4, 7])
  {
    var s := [1, 5, 6, 10, 4, 7];
    PairsOrderedByIndex(s);
    ExtractAt(s, 0);
    assert s[..0] + s[2..] == [6, 10, 4, 7];
  }

  /** The single sweep can leave overlapping intervals: `[4,7]` is absorbed into `[1,5]`
      after `[6,10]` has already been passed over and kept. */
  lemma OverlapFirstRound()
    ensures PairsOrdered([1, 5, 6, 10, 4, 7]) && PairsOrdered([6, 10])
    ensures Rounds([1, 5, 6, 10, 4, 7]) == [Interval(1, 7)] + Rounds([6, 10])
  {
    OverlapExtract();
    OverlapSweep();
    RoundsStep([1, 5, 6, 10, 4, 7], 1, 5, [6, 10, 4, 7], 7, [6, 10]);
  }

  lemma RoundsMayOverlap()
    ensures Rounds([1, 5, 6, 10, 4, 7]) == [Interval(1, 7), Interval(6, 10)]
  {
    var out := [Interval(1, 7), Interval(6, 10)];
    assert [Interval(1, 7)] + [Interval(6, 10)] == out by {
      assert out[..1] == [Interval(1, 7)] && out[1..] == [Interval(6, 10)];
    }
    OverlapFirstRound();
    RoundsOfOne(6, 10);
  }

  lemma TwoDigitValue(ds: string)
    requires |ds| == 2 && AllDigits(ds)
    ensures Value(ds) == 10 * DigitValue(ds[0]) + DigitValue(ds[1])
  {
    var head := ds[..|ds| - 1];
    assert head == [ds[0]];
    assert head[..|head| - 1] == [];
    assert Value(head) == DigitValue(ds[0]);
  }

  function FiveTokens(): seq<Token> {
    [Token("25", "30", true), Token("17", "23", true), Token("5", "24", true),
     Token("33", "48", true), Token("2", "18", false)]
  }

  function FiveIntervals(): seq<Interval> {
    [Interval(25, 30), Interval(17, 23), Interval(5, 24), Interval(33, 48), Interval(2, 18)]
  }

  lemma FiveTextParts()
    ensures Text(FiveTokens()[0]) == "[25,30] " && Text(FiveTokens()[1]) == "[17,23] "
    ensures Text(FiveTokens()[2]) == "[5,24] " && Text(FiveTokens()[3]) == "[33,48] "
    ensures Text(FiveTokens()[4]) == "[2,18]"
  {
  }

  lemma FiveLiteral()
    ensures "[25,30] " + ("[17,23] " + ("[5,24] " + ("[33,48] " + "[2,18]")))
         == "[25,30] [17,23] [5,24] [33,48] [2,18]"
  {
  }

  lemma FiveText()
    ensures Unlex(FiveTokens()) == "[25,30] [17,23] [5,24] [33,48] [2,18]"
  {
    var ts := FiveTokens();
    FiveTextParts();
    FiveLiteral();
    UnlexCons(ts[4], []);
    assert [ts[4]] + [] == ts[4..];
    UnlexCons(ts[3], ts[4..]);
    assert [ts[3]] + ts[4..] == ts[3..];
    UnlexCons(ts[2], ts[3..]);
    assert [ts[2]] + ts[3..] == ts[2..];
    UnlexCons(ts[1], ts[2..]);
    assert [ts[1]] + ts[2..] == ts[1..];
    UnlexCons(ts[0], ts[1..]);
    assert [ts[0]] + ts[1..] == ts;
  }

  lemma FiveChecks()
    ensures AllWellFormed(FiveTokens())
    ensures forall i :: 0 <= i < 5 ==> CheckPair(FiveTokens()[i]) == Success(FiveIntervals()[i])
  {
    var ts := FiveTokens();
    var ivs := FiveIntervals();
    forall i | 0 <= i < 5
      ensures WellFormed(ts[i]) && CheckPair(ts[i]) == Success(ivs[i])
    {
      if |ts[i].first| == 2 {
        TwoDigitValue(ts[i].first);
      }
      TwoDigitValue(ts[i].second);
    }
  }

  lemma FiveFlat()
    ensures Flatten(FiveIntervals()) == [25, 30, 17, 23, 5, 24, 33, 48, 2, 18]
  {
    var ivs := FiveIntervals();
    assert Flatten(ivs[4..]) == [2, 18];
    assert Flatten(ivs[3..]) == [33, 48, 2, 18];
    assert Flatten(ivs[2..]) == [5, 24, 33, 48, 2, 18];
    assert Flatten(ivs[1..]) == [17, 23, 5, 24, 33, 48, 2, 18];
  }

  lemma ParseFivePairs()
    ensures Parse("[25,30] [17,23] [5,24] [33,48] [2,18]") == Success([25, 30, 17, 23, 5, 24, 33, 48, 2, 18])
  {
    FiveText();
    FiveChecks();
    FiveFlat();
    ParseUnlex(FiveTokens(), FiveIntervals());
  }
}
