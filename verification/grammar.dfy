/** The input grammar `^(\[\d+,\d+\] ?)+$`: one or more `[digits,digits]` tokens, each
    optionally followed by one space, and nothing else. The tokens of a string in this
    language are also exactly what the pair pattern `\[(\d+),(\d+)\]` finds in it, left to
    right, so one recognizer serves both regular expressions. */
module Grammar {
  import opened Wrappers
  import opened Decimal

  /** One `[first,second]` token and whether a single space follows it. */
  datatype Token = Token(first: string, second: string, spaced: bool)

  predicate WellFormed(t: Token) {
    |t.first| > 0 && AllDigits(t.first) && |t.second| > 0 && AllDigits(t.second)
  }

  predicate AllWellFormed(ts: seq<Token>) {
    forall i :: 0 <= i < |ts| ==> WellFormed(ts[i])
  }

  /** The text of one token. */
  function Text(t: Token): string {
    "[" + t.first + "," + t.second + "]" + (if t.spaced then " " else "")
  }

  /** The text of a token list: the inverse of `Lex`. */
  function Unlex(ts: seq<Token>): string {
    if ts == [] then "" else Text(ts[0]) + Unlex(ts[1..])
  }

  lemma UnlexCons(t: Token, ts: seq<Token>)
    ensures Unlex([t] + ts) == Text(t) + Unlex(ts)
  {
    assert ([t] + ts)[1..] == ts;
  }

  lemma UnlexOne(t: Token)
    ensures Unlex([t]) == Text(t)
  {
    UnlexCons(t, []);
    assert [t] + [] == [t];
  }

  lemma UnlexTwo(t0: Token, t1: Token)
    ensures Unlex([t0, t1]) == Text(t0) + Text(t1)
  {
    UnlexOne(t1);
    UnlexCons(t0, [t1]);
    assert [t0] + [t1] == [t0, t1];
  }

  lemma WellFormedCons(t: Token, ts: seq<Token>)
    requires WellFormed(t) && AllWellFormed(ts)
    ensures AllWellFormed([t] + ts)
  {
    forall i | 0 <= i < |ts| + 1
      ensures WellFormed(([t] + ts)[i])
    {
      if i > 0 {
        assert ([t] + ts)[i] == ts[i - 1];
      }
    }
  }

  /** The strings the full-string pattern matches. */
  ghost predicate InLanguage(s: string) {
    exists ts :: |ts| > 0 && AllWellFormed(ts) && Unlex(ts) == s
  }

  /** Length of the longest digit prefix of `s` (what a greedy `\d+` consumes). */
  function DigitRun(s: string): (n: nat)
    ensures n <= |s|
  {
    if s == [] || !IsDigit(s[0]) then 0 else 1 + DigitRun(s[1..])
  }

  /** The run is all digits and stops at the first non-digit: the match is greedy. */
  lemma {:induction false} DigitRunIsLongest(s: string)
    ensures AllDigits(s[..DigitRun(s)])
    ensures DigitRun(s) < |s| ==> !IsDigit(s[DigitRun(s)])
    decreases |s|
  {
    if s != [] && IsDigit(s[0]) {
      DigitRunIsLongest(s[1..]);
      var n := DigitRun(s[1..]);
      assert s[..n + 1] == [s[0]] + s[1..][..n];
    }
  }

  /** Reads one token at the start of `s`, with its optional space. */
  function ScanToken(s: string): (r: Option<Token>)
    ensures r.Some? ==> WellFormed(r.value)
  {
    if |s| == 0 || s[0] != '[' then None
    else
      var n1 := DigitRun(s[1..]);
      var i := 1 + n1;
      if n1 == 0 || i >= |s| || s[i] != ',' then None
      else
        var n2 := DigitRun(s[i + 1..]);
        var j := i + 1 + n2;
        if n2 == 0 || j >= |s| || s[j] != ']' then None
        else
          DigitRunIsLongest(s[1..]);
          DigitRunIsLongest(s[i + 1..]);
          assert s[1..i] == s[1..][..n1] && s[i + 1..j] == s[i + 1..][..n2];
          Some(Token(s[1..i], s[i + 1..j], j + 1 < |s| && s[j + 1] == ' '))
  }

  /** What `ScanToken` consumes is the text of the token it returns. */
  lemma ScanTokenPrefix(s: string)
    ensures ScanToken(s).Some? ==> |Text(ScanToken(s).value)| <= |s|
    ensures ScanToken(s).Some? ==> s[..|Text(ScanToken(s).value)|] == Text(ScanToken(s).value)
  {
    if ScanToken(s).Some? {
      var i := 1 + DigitRun(s[1..]);
      var j := i + 1 + DigitRun(s[i + 1..]);
      TokenPrefix(s, i, j);
    }
  }

  /** The prefix of `s` that `ScanToken` consumes is the text of the token it returns. */
  lemma TokenPrefix(s: string, i: nat, j: nat)
    requires 1 < i && i + 1 < j < |s|
    requires s[0] == '[' && s[i] == ',' && s[j] == ']'
    ensures var t := Token(s[1..i], s[i + 1..j], j + 1 < |s| && s[j + 1] == ' ');
      |Text(t)| <= |s| && s[..|Text(t)|] == Text(t)
  {
    assert s[..i] == "[" + s[1..i];
    assert s[..i + 1] == s[..i] + ",";
    assert s[..j] == s[..i + 1] + s[i + 1..j];
    assert s[..j + 1] == s[..j] + "]";
    if j + 1 < |s| && s[j + 1] == ' ' {
      assert s[..j + 2] == s[..j + 1] + " ";
    }
  }

  /** Recognizes `s` as a non-empty token list, or rejects it. */
  function Lex(s: string): (r: Option<seq<Token>>)
    ensures r.Some? ==> |r.value| > 0 && AllWellFormed(r.value) && Unlex(r.value) == s
    decreases |s|
  {
    match ScanToken(s)
    case None => None
    case Some(t) =>
      ScanTokenPrefix(s);
      var n := |Text(t)|;
      assert s == Text(t) + s[n..];
      if n == |s| then
        UnlexCons(t, []);
        assert [t] + [] == [t];
        Some([t])
      else
        match Lex(s[n..])
        case None => None
        case Some(ts) =>
          UnlexCons(t, ts);
          WellFormedCons(t, ts);
          Some([t] + ts)
  }

  lemma {:induction false} DigitRunOf(d: string, rest: string)
    requires AllDigits(d)
    requires rest == [] || !IsDigit(rest[0])
    ensures DigitRun(d + rest) == |d|
    decreases |d|
  {
    if d != [] {
      assert (d + rest)[1..] == d[1..] + rest;
      DigitRunOf(d[1..], rest);
    } else {
      assert d + rest == rest;
    }
  }

  /** A token is read back from its own text, whatever follows it, provided that
      does not start with a space when the token has none. */
  lemma ScanTokenOfText(t: Token, more: string)
    requires WellFormed(t)
    requires more == [] || more[0] == '['
    ensures ScanToken(Text(t) + more) == Some(t)
  {
    var s := Text(t) + more;
    var i := 1 + |t.first|;
    var j := i + 1 + |t.second|;
    TextThen(t, more);
    TextLayout(t, more, s, i, j);
    ScanTokenAt(s, t, i, j);
  }

  /** Where the delimiters and digit runs of a token's text lie, in the text `s` of the
      token followed by `more`. */
  lemma TextLayout(t: Token, more: string, s: string, i: nat, j: nat)
    requires WellFormed(t)
    requires more == [] || more[0] == '['
    requires s == "[" + (t.first + ("," + (t.second + ("]" + ((if t.spaced then " " else "") + more)))))
    requires i == 1 + |t.first| && j == i + 1 + |t.second|
    ensures 1 < i && i + 1 < j < |s|
    ensures s[0] == '[' && s[i] == ',' && s[j] == ']'
    ensures DigitRun(s[1..]) == |t.first| && DigitRun(s[i + 1..]) == |t.second|
    ensures s[1..i] == t.first && s[i + 1..j] == t.second
    ensures t.spaced == (j + 1 < |s| && s[j + 1] == ' ')
  {
    var sp: string := if t.spaced then " " else "";
    var c := "]" + (sp + more);
    var a := "," + (t.second + c);
    assert s[0..] == "[" + (t.first + a);
    SuffixAfter(s, 0, 1, "[", t.first + a);
    DigitField(s, 1, i, t.first, a);
    SuffixAfter(s, 1, i, t.first, a);
    SuffixAfter(s, i, i + 1, ",", t.second + c);
    DigitField(s, i + 1, j, t.second, c);
    SuffixAfter(s, i + 1, j, t.second, c);
    TailLayout(s, j, t.spaced, more, c);
  }

  /** The closing bracket at `j`, and the space after it exactly when the token has one. */
  lemma TailLayout(s: string, j: nat, spaced: bool, more: string, c: string)
    requires c == "]" + ((if spaced then " " else "") + more)
    requires more == [] || more[0] == '['
    requires j <= |s| && s[j..] == c
    ensures j < |s| && s[j] == ']'
    ensures spaced == (j + 1 < |s| && s[j + 1] == ' ')
  {
    var sp: string := if spaced then " " else "";
    assert s[j..][0] == ']';
    SuffixAfter(s, j, j + 1, "]", sp + more);
    if spaced {
      assert s[j + 1..][0] == ' ';
    } else {
      assert s[j + 1..] == more;
    }
  }

  /** When `x + y` starts at position `k`, `y` starts at `e`, right after `x`. */
  lemma SuffixAfter(s: string, k: nat, e: nat, x: string, y: string)
    requires k <= |s| && s[k..] == x + y && e == k + |x|
    ensures e <= |s| && s[e..] == y
  {
    assert s[e..] == s[k..][|x|..];
    assert (x + y)[|x|..] == y;
  }

  /** A run of digits from position `k` to `e`, followed by a non-digit, is read whole. */
  lemma DigitField(s: string, k: nat, e: nat, d: string, rest: string)
    requires k <= |s| && s[k..] == d + rest && AllDigits(d) && e == k + |d|
    requires |rest| > 0 && !IsDigit(rest[0])
    ensures e < |s| && DigitRun(s[k..]) == |d|
    ensures s[k..e] == d && s[e] == rest[0]
  {
    DigitRunOf(d, rest);
    assert s[k..e] == s[k..][..|d|];
  }

  /** What `ScanToken` returns once the delimiters and digit runs of a token have been
      located in `s`. */
  lemma ScanTokenAt(s: string, t: Token, i: nat, j: nat)
    requires 1 < i && i + 1 < j < |s|
    requires s[0] == '[' && s[i] == ',' && s[j] == ']'
    requires DigitRun(s[1..]) == i - 1 && DigitRun(s[i + 1..]) == j - i - 1
    requires s[1..i] == t.first && s[i + 1..j] == t.second
    requires t.spaced == (j + 1 < |s| && s[j + 1] == ' ')
    ensures ScanToken(s) == Some(t)
  {
  }

  lemma TextThen(t: Token, more: string)
    ensures Text(t) + more == "[" + (t.first + ("," + (t.second + ("]" + ((if t.spaced then " " else "") + more)))))
  {
  }

  lemma UnlexStart(ts: seq<Token>)
    requires |ts| > 0
    ensures |Unlex(ts)| > 0 && Unlex(ts)[0] == '['
  {
  }

  lemma LexLast(s: string, t: Token)
    requires ScanToken(s) == Some(t) && |Text(t)| == |s|
    ensures Lex(s) == Some([t])
  {
  }

  lemma LexMore(s: string, t: Token, ts: seq<Token>)
    requires ScanToken(s) == Some(t) && |Text(t)| < |s|
    requires Lex(s[|Text(t)|..]) == Some(ts)
    ensures Lex(s) == Some([t] + ts)
  {
  }

  /** Recognizing the text of a non-empty well-formed token list gives that list back. */
  lemma {:induction false} LexUnlex(ts: seq<Token>)
    requires |ts| > 0 && AllWellFormed(ts)
    ensures Lex(Unlex(ts)) == Some(ts)
    decreases |ts|
  {
    var t := ts[0];
    var more := Unlex(ts[1..]);
    assert [t] + ts[1..] == ts;
    UnlexCons(t, ts[1..]);
    var s := Text(t) + more;
    assert s[|Text(t)|..] == more;
    if |ts| > 1 {
      UnlexStart(ts[1..]);
      ScanTokenOfText(t, more);
      LexUnlex(ts[1..]);
      LexMore(s, t, ts[1..]);
    } else {
      assert more == [];
      ScanTokenOfText(t, more);
      LexLast(s, t);
      assert [t] == ts;
    }
  }

  /** The recognizer accepts exactly the strings of the grammar (the empty string among
      the rejected ones), and reads each accepted string in only one way. */
  lemma LexAcceptsLanguage(s: string)
    ensures Lex(s).Some? <==> InLanguage(s)
    ensures forall ts :: |ts| > 0 && AllWellFormed(ts) && Unlex(ts) == s ==> Lex(s) == Some(ts)
  {
    forall ts | |ts| > 0 && AllWellFormed(ts) && Unlex(ts) == s
      ensures Lex(s) == Some(ts)
    {
      LexUnlex(ts);
    }
  }
}
