/** `ParseStringOfIntervalsToNumbersArrayOfIntervals`: validates the input text and turns it
    into the flat sequence `[a1, b1, a2, b2, ...]`. */
module Parser {
  import opened Wrappers
  import opened Decimal
  import opened Grammar
  import opened Intervals

  /** At most this many pairs are accepted. */
  const MaxPairs := 20

  /** No number may exceed this bound. */
  const MaxBound := 10000

  /** The largest Go `int` (64-bit platforms); `strconv.Atoi` rejects anything above it. */
  const MaxInt := 0x7fff_ffff_ffff_ffff

  datatype ParseError =
    | FormatInvalid              // the text is not in the grammar
    | TooManyPairs               // more than MaxPairs tokens
    | OutOfRange(digits: string) // Atoi's range error for this digit run
    | BoundExceeded              // a number above MaxBound
    | NotAscending               // a pair whose first number is not below its second

  /** The error text the source reports for each failure. */
  function Message(e: ParseError): string {
    match e
    case FormatInvalid => "input format is invalid"
    case TooManyPairs => "no more than 20 pairs are allowed"
    case OutOfRange(ds) => "strconv.Atoi: parsing \"" + ds + "\": value out of range"
    case BoundExceeded => "numbers cannot be bigger than 10,000"
    case NotAscending => "first number in the pair " + "must be smaller than the second"
  }

  /** `strconv.Atoi` on a run of ASCII digits. */
  function Atoi(ds: string): (r: Result<int, ParseError>)
    requires AllDigits(ds)
    ensures r.Success? <==> Value(ds) <= MaxInt
    ensures r.Success? ==> r.value == Value(ds)
    ensures r.Failure? ==> r.error == OutOfRange(ds)
  {
    if Value(ds) > MaxInt then Failure(OutOfRange(ds)) else Success(Value(ds))
  }

  /** Reading back what `strconv.Itoa` writes for a number Atoi can hold gives the number. */
  lemma AtoiOfItoa(n: int)
    requires 0 <= n <= MaxInt
    ensures AllDigits(Itoa(n)) && Atoi(Itoa(n)) == Success(n)
  {
  }

  /** The first two characters of the texts of the format and count errors. */
  lemma ShapeMessageStart()
    ensures Message(FormatInvalid)[0] == 'i' && Message(FormatInvalid)[1] == 'n'
    ensures Message(TooManyPairs)[0] == 'n' && Message(TooManyPairs)[1] == 'o'
  {
  }

  /** The first two characters of the texts of the bound and ordering errors. */
  lemma PairMessageStart()
    ensures Message(BoundExceeded)[0] == 'n' && Message(BoundExceeded)[1] == 'u'
    ensures Message(NotAscending)[0] == 'f' && Message(NotAscending)[1] == 'i'
  {
  }

  /** The text of Atoi's range error starts with `st` and quotes the digit run. */
  lemma RangeMessageLayout(ds: string)
    ensures var m := Message(OutOfRange(ds));
      var n := |"strconv.Atoi: parsing \""|;
      && |m| == n + |ds| + |"\": value out of range"|
      && m[0] == 's' && m[1] == 't' && m[n..n + |ds|] == ds
  {
    var p := "strconv.Atoi: parsing \"";
    assert Message(OutOfRange(ds)) == p + (ds + "\": value out of range");
  }

  /** Different errors have different texts, so a caller comparing the text of the error
      (as the source's tests do) tells every error apart, down to the digit run Atoi
      rejected. */
  lemma MessagesDistinct(e1: ParseError, e2: ParseError)
    ensures Message(e1) == Message(e2) ==> e1 == e2
  {
    if Message(e1) == Message(e2) {
      ShapeMessageStart();
      PairMessageStart();
      var m := Message(e1);
      assert m[0] == Message(e2)[0] && m[1] == Message(e2)[1];
      if e1.OutOfRange? {
        RangeMessageLayout(e1.digits);
      }
      if e2.OutOfRange? {
        RangeMessageLayout(e2.digits);
      }
    }
  }

  /** The checks one token goes through, in the source's order: convert the first number,
      convert the second, the bound check on both, then the ordering check. */
  function CheckPair(t: Token): (r: Result<Interval, ParseError>)
    requires WellFormed(t)
    ensures r.Success? <==> Value(t.first) < Value(t.second) <= MaxBound
    ensures r.Success? ==> r.value == Interval(Value(t.first), Value(t.second))
    ensures Value(t.first) > MaxInt ==> r == Failure(OutOfRange(t.first))
    ensures Value(t.first) <= MaxInt < Value(t.second) ==> r == Failure(OutOfRange(t.second))
    ensures r == Failure(BoundExceeded) <==>
      Value(t.first) <= MaxInt && Value(t.second) <= MaxInt
      && (Value(t.first) > MaxBound || Value(t.second) > MaxBound)
    ensures r == Failure(NotAscending) <==>
      Value(t.first) <= MaxBound && Value(t.second) <= MaxBound && Value(t.first) >= Value(t.second)
  {
    match Atoi(t.first)
    case Failure(e) => Failure(e)
    case Success(a) =>
      match Atoi(t.second)
      case Failure(e) => Failure(e)
      case Success(b) =>
        if a > MaxBound || b > MaxBound then Failure(BoundExceeded)
        else if a >= b then Failure(NotAscending)
        else Success(Interval(a, b))
  }

  /** The loop over the tokens: stops at the first token that fails its checks. */
  function ConvertPairs(ts: seq<Token>): (r: Result<seq<int>, ParseError>)
    requires AllWellFormed(ts)
    ensures r.Success? <==> forall i :: 0 <= i < |ts| ==> CheckPair(ts[i]).Success?
    ensures r.Success? ==> |r.value| == 2 * |ts|
    ensures r.Success? ==> forall i :: 0 <= i < |ts| ==> Pairs(r.value)[i] == CheckPair(ts[i]).value
  {
    if ts == [] then Success([])
    else
      match CheckPair(ts[0])
      case Failure(e) => Failure(e)
      case Success(p) =>
        match ConvertPairs(ts[1..])
        case Failure(e) => Failure(e)
        case Success(rest) =>
          PairsCons(p.lo, p.hi, rest);
          Success([p.lo, p.hi] + rest)
  }

  /** A failed conversion reports the error of the first token that fails its checks. */
  lemma {:induction false} ConvertPairsFirstFailure(ts: seq<Token>)
    requires AllWellFormed(ts) && ConvertPairs(ts).Failure?
    ensures exists k :: (0 <= k < |ts| && CheckPair(ts[k]) == Failure(ConvertPairs(ts).error)
      && forall i :: 0 <= i < k ==> CheckPair(ts[i]).Success?)
    decreases |ts|
  {
    var e := ConvertPairs(ts).error;
    if CheckPair(ts[0]).Success? {
      var tail := ts[1..];
      ConvertPairsAfterHead(ts);
      ConvertPairsFirstFailure(tail);
      var k :| 0 <= k < |tail| && CheckPair(tail[k]) == Failure(e)
        && forall i :: 0 <= i < k ==> CheckPair(tail[i]).Success?;
      FirstFailureShift(ts, k, e);
    } else {
      assert CheckPair(ts[0]) == Failure(e);
    }
  }

  /** Once the first token passes, the conversion fails exactly as that of the rest. */
  lemma ConvertPairsAfterHead(ts: seq<Token>)
    requires AllWellFormed(ts) && |ts| > 0 && CheckPair(ts[0]).Success?
    ensures ConvertPairs(ts).Failure? ==> ConvertPairs(ts[1..]) == Failure(ConvertPairs(ts).error)
  {
  }

  /** The first failing token of the rest is, in the whole list, one position later. */
  lemma FirstFailureShift(ts: seq<Token>, k: nat, e: ParseError)
    requires AllWellFormed(ts) && k + 1 < |ts| && CheckPair(ts[0]).Success?
    requires CheckPair(ts[1..][k]) == Failure(e)
    requires forall i :: 0 <= i < k ==> CheckPair(ts[1..][i]).Success?
    ensures CheckPair(ts[k + 1]) == Failure(e)
    ensures forall i :: 0 <= i < k + 1 ==> CheckPair(ts[i]).Success?
  {
    forall i | 0 <= i < k + 1
      ensures CheckPair(ts[i]).Success?
    {
      if i > 0 {
        assert ts[i] == ts[1..][i - 1];
      }
    }
  }

  /** The whole parser: grammar check, count limit, then the per-pair checks. */
  function Parse(s: string): (r: Result<seq<int>, ParseError>)
    ensures Lex(s).None? <==> r == Failure(FormatInvalid)
    ensures Lex(s).Some? && |Lex(s).value| > MaxPairs ==> r == Failure(TooManyPairs)
    ensures r.Success? ==>
      && PairsOrdered(r.value)
      && 2 <= |r.value| <= 2 * MaxPairs
      && LowerBounded(Pairs(r.value), 0)
      && UpperBounded(Pairs(r.value), MaxBound)
  {
    match Lex(s)
    case None => Failure(FormatInvalid)
    case Some(ts) =>
      if |ts| > MaxPairs then Failure(TooManyPairs)
      else
        var r := ConvertPairs(ts);
        assert r.Failure? ==> r.error != FormatInvalid by {
          if r.Failure? {
            ConvertPairsFirstFailure(ts);
            var k :| 0 <= k < |ts| && CheckPair(ts[k]) == Failure(r.error);
          }
        }
        assert r.Success? ==>
          PairsOrdered(r.value) && LowerBounded(Pairs(r.value), 0) && UpperBounded(Pairs(r.value), MaxBound) by {
          if r.Success? {
            ConvertedShape(ts, r.value);
          }
        }
        r
  }

  lemma ConvertedShape(ts: seq<Token>, v: seq<int>)
    requires AllWellFormed(ts)
    requires ConvertPairs(ts) == Success(v)
    ensures PairsOrdered(v) && LowerBounded(Pairs(v), 0) && UpperBounded(Pairs(v), MaxBound)
  {
    var ps := Pairs(v);
    assert |ps| == |ts|;
    forall p | p in ps
      ensures 0 <= p.lo < p.hi <= MaxBound
    {
      var i :| 0 <= i < |ps| && ps[i] == p;
      assert CheckPair(ts[i]).Success? && ps[i] == CheckPair(ts[i]).value;
    }
  }

  /** Once the text is in the grammar and has at most MaxPairs tokens, the tokens are
      checked in textual order: the parse succeeds exactly when every token passes, the
      result then holds their numbers in order, and otherwise the first failing token
      decides the error. */
  lemma ParseChecksInOrder(s: string)
    requires Lex(s).Some? && |Lex(s).value| <= MaxPairs
    ensures var ts := Lex(s).value;
      Parse(s).Success? <==> forall i :: 0 <= i < |ts| ==> CheckPair(ts[i]).Success?
    ensures var ts := Lex(s).value;
      Parse(s).Success? ==>
        |Pairs(Parse(s).value)| == |ts|
        && forall i :: 0 <= i < |ts| ==> Pairs(Parse(s).value)[i] == Interval(Value(ts[i].first), Value(ts[i].second))
    ensures var ts := Lex(s).value;
      Parse(s).Failure? ==>
        exists k :: 0 <= k < |ts| && CheckPair(ts[k]) == Failure(Parse(s).error)
          && forall i :: 0 <= i < k ==> CheckPair(ts[i]).Success?
  {
    assert Parse(s) == ConvertPairs(Lex(s).value);
    if Parse(s).Failure? {
      ConvertPairsFirstFailure(Lex(s).value);
    }
  }

  /** Tokens that each pass the checks convert to the flattened list of their intervals. */
  lemma {:induction false} ConvertPairsOf(ts: seq<Token>, ivs: seq<Interval>)
    requires AllWellFormed(ts) && |ts| == |ivs|
    requires forall i :: 0 <= i < |ts| ==> CheckPair(ts[i]) == Success(ivs[i])
    ensures ConvertPairs(ts) == Success(Flatten(ivs))
    decreases |ts|
  {
    if ts != [] {
      ConvertPairsOf(ts[1..], ivs[1..]);
    }
  }

  /** Tokens whose first failing check is at `k` convert to that check's error. */
  lemma {:induction false} ConvertPairsFails(ts: seq<Token>, k: nat, e: ParseError)
    requires AllWellFormed(ts) && k < |ts|
    requires forall i :: 0 <= i < k ==> CheckPair(ts[i]).Success?
    requires CheckPair(ts[k]) == Failure(e)
    ensures ConvertPairs(ts) == Failure(e)
    decreases k
  {
    if k > 0 {
      ConvertPairsFails(ts[1..], k - 1, e);
    }
  }

  /** The text of at most MaxPairs tokens whose first failing check is at `k` is rejected
      with that check's error. */
  lemma ParseUnlexFails(ts: seq<Token>, k: nat, e: ParseError)
    requires 0 < |ts| <= MaxPairs && AllWellFormed(ts) && k < |ts|
    requires forall i :: 0 <= i < k ==> CheckPair(ts[i]).Success?
    requires CheckPair(ts[k]) == Failure(e)
    ensures Parse(Unlex(ts)) == Failure(e)
  {
    LexUnlex(ts);
    ConvertPairsFails(ts, k, e);
  }

  /** The text of more than MaxPairs tokens is rejected for its length, whatever the
      numbers in it. */
  lemma ParseUnlexTooMany(ts: seq<Token>)
    requires |ts| > MaxPairs && AllWellFormed(ts)
    ensures Parse(Unlex(ts)) == Failure(TooManyPairs)
    ensures Message(Parse(Unlex(ts)).error) == "no more than 20 pairs are allowed"
  {
    LexUnlex(ts);
  }

  /** The text of tokens that each pass the checks, at most MaxPairs of them, parses to
      the flattened list of their intervals. */
  lemma ParseUnlex(ts: seq<Token>, ivs: seq<Interval>)
    requires 0 < |ts| <= MaxPairs && AllWellFormed(ts) && |ts| == |ivs|
    requires forall i :: 0 <= i < |ts| ==> CheckPair(ts[i]) == Success(ivs[i])
    ensures Parse(Unlex(ts)) == Success(Flatten(ivs))
  {
    LexUnlex(ts);
    ConvertPairsOf(ts, ivs);
  }
}
