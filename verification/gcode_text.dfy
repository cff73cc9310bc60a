/**
 * Move lines written as words, and what `get_g_move` reads back from them:
 * every field word sets its field, the last word for a letter wins, and words
 * without a field letter (such as a feed rate "F8000") change nothing.
 */
module GCodeText {
  import opened Wrappers
  import opened Text
  import opened Num
  import opened GCode

  /** A decimal `[-]whole[.frac]`, as slicers write coordinates. */
  datatype Decimal = Decimal(neg: bool, whole: string, frac: string)

  predicate ValidDecimal(d: Decimal)
  {
    |d.whole| > 0 && AllDigits(d.whole) && AllDigits(d.frac)
  }

  function DecimalText(d: Decimal): string
  {
    (if d.neg then "-" else "") + d.whole + FracText(d)
  }

  /** The value a decimal denotes: whole part plus fraction. */
  function DecimalValue(d: Decimal): real
    requires ValidDecimal(d)
  {
    var m := DigitsValue(d.whole) as real + DigitsValue(d.frac) as real / Pow10(|d.frac|) as real;
    if d.neg then -m else m
  }

  /** One space-separated word of a move line. */
  datatype Word = Field(letter: char, num: Decimal) | Other(text: string)

  predicate ValidWord(w: Word)
  {
    match w
    case Field(c, d) => IsFieldLetter(c) && ValidDecimal(d)
    case Other(t) => |t| > 0 && forall k :: 0 <= k < |t| ==> !IsSpace(t[k]) && !IsFieldLetter(t[k])
  }

  predicate ValidWords(ws: seq<Word>)
  {
    forall k :: 0 <= k < |ws| ==> ValidWord(ws[k])
  }

  function WordText(w: Word): string
  {
    match w
    case Field(c, d) => [c] + DecimalText(d)
    case Other(t) => t
  }

  /** Every word preceded by one space. */
  function WordsText(ws: seq<Word>): string
  {
    if ws == [] then "" else " " + WordText(ws[0]) + WordsText(ws[1..])
  }

  function RenderLine(cmd: string, ws: seq<Word>): string
  {
    cmd + WordsText(ws)
  }

  predicate HasField(ws: seq<Word>)
  {
    exists k :: 0 <= k < |ws| && ws[k].Field?
  }

  /** What one word does to the move: a field word sets its field. */
  function ApplyWord(m: Move, w: Word): Move
    requires ValidWord(w)
  {
    match w
    case Field(c, d) => SetField(m, c, DecimalValue(d))
    case Other(_) => m
  }

  /** The words applied left to right, as the field loop meets them. */
  function Apply(m: Move, ws: seq<Word>): Move
    requires ValidWords(ws)
    decreases |ws|
  {
    if ws == [] then m else Apply(ApplyWord(m, ws[0]), ws[1..])
  }

  /** The value of the last word for letter `c`, or `dflt` when there is none. */
  function LastValue(ws: seq<Word>, c: char, dflt: real): real
    requires ValidWords(ws)
  {
    if ws == [] then dflt
    else
      var w := ws[|ws| - 1];
      if w.Field? && w.letter == c then DecimalValue(w.num)
      else LastValue(ws[..|ws| - 1], c, dflt)
  }

  /** Applying the words leaves each field at its last written value. */
  lemma {:induction false} ApplyLastWins(m: Move, ws: seq<Word>, c: char)
    requires ValidWords(ws) && IsFieldLetter(c)
    ensures FieldValue(Apply(m, ws), c) == LastValue(ws, c, FieldValue(m, c))
    decreases |ws|
  {
    if ws != [] {
      ApplyLastWins(ApplyWord(m, ws[0]), ws[1..], c);
      LastValueSplit(ws, c, FieldValue(m, c));
    }
  }

  /** `LastValue` over `[w] + rest` is `LastValue` over `rest`, started from what `w` wrote. */
  lemma {:induction false} LastValueSplit(ws: seq<Word>, c: char, dflt: real)
    requires ValidWords(ws) && ws != [] && IsFieldLetter(c)
    ensures LastValue(ws, c, dflt) ==
      LastValue(ws[1..], c, if ws[0].Field? && ws[0].letter == c then DecimalValue(ws[0].num) else dflt)
    decreases |ws|
  {
    if |ws| > 1 {
      var init := ws[..|ws| - 1];
      assert init[1..] == ws[1..][..|ws[1..]| - 1];
      assert init[0] == ws[0];
      LastValueSplit(init, c, dflt);
    }
  }

  /** A space or a non-field character is consumed without effect. */
  lemma SkipOne(s: string, i: nat, m: Move, found: bool)
    requires i < |s| && (IsSpace(s[i]) || !IsFieldLetter(s[i]))
    ensures ScanFields(s, i, m, found) == ScanFields(s, i + 1, m, found)
  {
    if IsSpace(s[i]) {
      assert SkipSpace(s, i) == SkipSpace(s, i + 1);
    }
  }

  /** A word without field letters is consumed character by character without effect. */
  lemma {:induction false} SkipOther(s: string, i: nat, n: nat, m: Move, found: bool)
    requires i + n <= |s|
    requires forall k :: i <= k < i + n ==> !IsFieldLetter(s[k])
    ensures ScanFields(s, i, m, found) == ScanFields(s, i + n, m, found)
    decreases n
  {
    if n > 0 {
      SkipOne(s, i, m, found);
      SkipOther(s, i + 1, n - 1, m, found);
    }
  }

  /** What may follow a word on a rendered line: nothing, or a space. */
  predicate BreakAt(s: string, p: nat) { p <= |s| && (p == |s| || s[p] == ' ') }

  /** `t` occurs in `s` at position `i`, read one character at a time. */
  predicate At(s: string, i: nat, t: string)
    decreases |t|
  {
    i + |t| <= |s| && (t == [] || (s[i] == t[0] && At(s, i + 1, t[1..])))
  }

  lemma {:induction false} AtIndex(s: string, i: nat, t: string)
    requires At(s, i, t)
    ensures forall k :: 0 <= k < |t| ==> s[i + k] == t[k]
    decreases |t|
  {
    if t != [] {
      AtIndex(s, i + 1, t[1..]);
      forall k | 1 <= k < |t| ensures s[i + k] == t[k] {
        assert s[i + 1 + (k - 1)] == t[1..][k - 1];
      }
    }
  }

  /** Every suffix of a string occurs where it starts. */
  lemma {:induction false} AtSuffix(s: string, i: nat)
    requires i <= |s|
    ensures At(s, i, s[i..])
    decreases |s| - i
  {
    if i < |s| {
      AtSuffix(s, i + 1);
      assert s[i..][1..] == s[i + 1..];
    }
  }

  lemma {:induction false} AtSplit(s: string, i: nat, t: string, u: string)
    requires At(s, i, t + u)
    ensures At(s, i, t) && At(s, i + |t|, u)
    decreases |t|
  {
    if t == [] {
      assert t + u == u;
    } else {
      assert (t + u)[0] == t[0] && (t + u)[1..] == t[1..] + u;
      AtSplit(s, i + 1, t[1..], u);
    }
  }

  lemma AtSlice(s: string, i: nat, t: string)
    requires At(s, i, t)
    ensures s[i..i + |t|] == t
  {
    AtIndex(s, i, t);
  }

  /** A run of digits followed by a non-digit is scanned to its end. */
  lemma DigitRun(s: string, a: nat, w: string)
    requires At(s, a, w) && AllDigits(w)
    requires a + |w| == |s| || !IsDigit(s[a + |w|])
    ensures DigitsEnd(s, a) == a + |w| && s[a..a + |w|] == w
  {
    AtIndex(s, a, w);
    AtSlice(s, a, w);
    DigitsEndAt(s, a, |w|);
  }

  function FracText(d: Decimal): string
  {
    if d.frac == [] then "" else "." + d.frac
  }

  lemma MantissaNoDot(s: string, a: nat, b: nat)
    requires a <= b <= |s| && DigitsEnd(s, a) == b && (b == |s| || s[b] != '.')
    ensures ScanMantissa(s, a) == Mantissa(s[a..b], "", b)
  {
  }

  lemma MantissaDot(s: string, a: nat, b: nat, c: nat)
    requires a <= b < c <= |s| && DigitsEnd(s, a) == b && s[b] == '.' && DigitsEnd(s, b + 1) == c
    ensures ScanMantissa(s, a) == Mantissa(s[a..b], s[b + 1..c], c)
  {
  }

  /** The mantissa scan of a rendered decimal's digits recovers both digit strings. */
  lemma MantissaOfDecimal(s: string, a: nat, d: Decimal)
    requires ValidDecimal(d)
    requires At(s, a, d.whole + FracText(d)) && BreakAt(s, a + |d.whole| + |FracText(d)|)
    ensures ScanMantissa(s, a) == Mantissa(d.whole, d.frac, a + |d.whole| + |FracText(d)|)
  {
    var b := a + |d.whole|;
    AtSplit(s, a, d.whole, FracText(d));
    if d.frac == [] {
      DigitRun(s, a, d.whole);
      MantissaNoDot(s, a, b);
    } else {
      AtSplit(s, b, ".", d.frac);
      assert s[b] == '.';
      DigitRun(s, a, d.whole);
      DigitRun(s, b + 1, d.frac);
      MantissaDot(s, a, b, b + 1 + |d.frac|);
    }
  }

  /** A rendered decimal followed by a space or the end is read back exactly. */
  lemma ScanDecimal(s: string, i: nat, d: Decimal)
    requires ValidDecimal(d)
    requires At(s, i, DecimalText(d)) && BreakAt(s, i + |DecimalText(d)|)
    ensures ScanFloat(s, i) == NumOk(DecimalValue(d), i + |DecimalText(d)|)
  {
    var sign := if d.neg then "-" else "";
    assert DecimalText(d) == sign + (d.whole + FracText(d));
    AtSplit(s, i, sign, d.whole + FracText(d));
    var a := i + |sign|;
    var e := a + |d.whole| + |FracText(d)|;
    assert s[i] == DecimalText(d)[0];
    SignAt(s, i, d);
    assert SkipSpace(s, i) == i;
    MantissaOfDecimal(s, a, d);
    assert ScanExponent(s, e) == ExpNone;
    ScanFloatNoExp(s, i, a, e);
    assert ScanFloat(s, i) == NumOk(ScanValue(d), e);
    ScanValueIsValue(d);
  }

  lemma SignAt(s: string, i: nat, d: Decimal)
    requires ValidDecimal(d) && i < |s| && s[i] == DecimalText(d)[0]
    ensures SignEnd(s, i) == i + (if d.neg then 1 else 0)
    ensures !IsSpace(s[i]) && (s[i] == '-' <==> d.neg)
  {
    if !d.neg { assert DecimalText(d)[0] == d.whole[0]; }
  }

  /** `ScanFloat` of a number with a sign, a mantissa and no exponent. */
  lemma ScanFloatNoExp(s: string, i: nat, a: nat, e: nat)
    requires i < |s| && SkipSpace(s, i) == i && SignEnd(s, i) == a && a <= e <= |s|
    requires ScanMantissa(s, a).end == e && ScanExponent(s, e) == ExpNone
    requires |ScanMantissa(s, a).whole| > 0
    ensures var mt := ScanMantissa(s, a);
      ScanFloat(s, i) == NumOk(Signed(s[i] == '-', Scale(DigitsValue(mt.whole + mt.frac), 0 - |mt.frac|)), e)
  {
  }

  /** The value `ScanFloat` computes for a decimal without exponent. */
  function ScanValue(d: Decimal): real
    requires ValidDecimal(d)
  {
    DigitsValueConcat(d.whole, d.frac);
    Signed(d.neg, Scale(DigitsValue(d.whole + d.frac), 0 - |d.frac|))
  }

  lemma ScanValueIsValue(d: Decimal)
    requires ValidDecimal(d)
    ensures ScanValue(d) == DecimalValue(d)
  {
    DigitsValueConcat(d.whole, d.frac);
    ScaleSplit(DigitsValue(d.whole), DigitsValue(d.frac), |d.frac|);
  }

  /** Scaling `w * 10^n + f` down by `10^n` is `w + f / 10^n`. */
  lemma ScaleSplit(w: nat, f: nat, n: nat)
    ensures Scale(w * Pow10(n) + f, 0 - n) == w as real + f as real / Pow10(n) as real
  {
    var p := Pow10(n);
    if n == 0 {
      assert p == 1;
      ScaleByOne(w, f);
    } else {
      assert Scale(w * p + f, 0 - n) == (w * p + f) as real / p as real;
      ScaleDown(w, f, p);
    }
  }

  lemma ScaleByOne(w: nat, f: nat)
    ensures Scale(w * Pow10(0) + f, 0) == w as real + f as real / Pow10(0) as real
  {
    assert Pow10(0) == 1;
  }

  lemma ScaleDown(w: nat, f: nat, p: nat)
    requires p > 0
    ensures (w * p + f) as real / p as real == w as real + f as real / p as real
  {
    CastSplit(w, p, f);
    DivAdd((w * p + f) as real, w as real, f as real, p as real);
  }

  lemma CastSplit(w: nat, p: nat, f: nat)
    ensures (w * p + f) as real == w as real * p as real + f as real
  {
  }

  lemma DivAdd(m: real, w: real, f: real, p: real)
    requires p > 0.0 && m == w * p + f
    ensures m / p == w + f / p
  {
    assert (w * p) / p == w;
    assert (w * p + f) / p == (w * p) / p + f / p;
  }

  /** The field loop over rendered words applies them in order. */
  lemma {:induction false} ScanWords(s: string, i: nat, ws: seq<Word>, m: Move, found: bool)
    requires ValidWords(ws)
    requires At(s, i, WordsText(ws)) && i + |WordsText(ws)| == |s|
    ensures ScanFields(s, i, m, found) == (Apply(m, ws), found || HasField(ws))
    decreases |ws|
  {
    if ws == [] {
      assert SkipSpace(s, i) == |s|;
    } else {
      var w := ws[0];
      var rest := WordsText(ws[1..]);
      var k := i + 1 + |WordText(w)|;
      assert ValidWords(ws[1..]) by {
        forall j | 0 <= j < |ws[1..]| ensures ValidWord(ws[1..][j]) { assert ws[1..][j] == ws[j + 1]; }
      }
      AtSplit(s, i, " " + WordText(w), rest);
      assert BreakAt(s, k) by {
        if k < |s| { assert s[k] == rest[0]; }
      }
      ScanWord(s, i, w, m, found, k);
      ScanWords(s, k, ws[1..], ApplyWord(m, w), found || w.Field?);
      HasFieldStep(ws);
    }
  }

  lemma HasFieldStep(ws: seq<Word>)
    requires ws != []
    ensures HasField(ws) <==> ws[0].Field? || HasField(ws[1..])
  {
    if HasField(ws) && !ws[0].Field? {
      var j :| 0 <= j < |ws| && ws[j].Field?;
      assert ws[1..][j - 1].Field?;
    }
    if HasField(ws[1..]) {
      var j :| 0 <= j < |ws[1..]| && ws[1..][j].Field?;
      assert ws[j + 1].Field?;
    }
  }

  /** One word, preceded by its space, is read in a single step of the field loop. */
  lemma ScanWord(s: string, i: nat, w: Word, m: Move, found: bool, k: nat)
    requires ValidWord(w) && k == i + 1 + |WordText(w)|
    requires At(s, i, " " + WordText(w)) && BreakAt(s, k)
    ensures ScanFields(s, i, m, found) == ScanFields(s, k, ApplyWord(m, w), found || w.Field?)
  {
    AtSplit(s, i, " ", WordText(w));
    assert s[i] == ' ';
    SkipOne(s, i, m, found);
    if w.Field? {
      var c, t := w.letter, DecimalText(w.num);
      assert WordText(w) == [c] + t;
      AtSplit(s, i + 1, [c], t);
      assert s[i + 1] == c && At(s, i + 2, t) && BreakAt(s, i + 2 + |t|);
      ScanFieldWord(s, i + 1, c, w.num, m, found, k);
    } else {
      ScanOtherWord(s, i + 1, w.text, m, found, k);
    }
  }

  lemma ScanFieldWord(s: string, j: nat, c: char, d: Decimal, m: Move, found: bool, k: nat)
    requires IsFieldLetter(c) && ValidDecimal(d) && k == j + 1 + |DecimalText(d)|
    requires j < |s| && s[j] == c && At(s, j + 1, DecimalText(d)) && BreakAt(s, k)
    ensures ScanFields(s, j, m, found) == ScanFields(s, k, SetField(m, c, DecimalValue(d)), true)
  {
    ScanDecimal(s, j + 1, d);
    FieldStep(s, j, c, DecimalValue(d), k, m, found);
  }

  lemma ScanOtherWord(s: string, j: nat, t: string, m: Move, found: bool, e: nat)
    requires At(s, j, t) && e == j + |t| && forall k :: 0 <= k < |t| ==> !IsFieldLetter(t[k])
    ensures ScanFields(s, j, m, found) == ScanFields(s, e, m, found)
  {
    AtIndex(s, j, t);
    assert forall k :: j <= k < j + |t| ==> !IsFieldLetter(s[k]) by {
      forall k | j <= k < j + |t| ensures !IsFieldLetter(s[k]) {
        assert s[j + (k - j)] == t[k - j];
      }
    }
    SkipOther(s, j, |t|, m, found);
  }

  /** A field letter followed by a number sets the field and the loop resumes after the number. */
  lemma FieldStep(s: string, j: nat, c: char, v: real, k: nat, m: Move, found: bool)
    requires j < |s| && s[j] == c && IsFieldLetter(c) && ScanFloat(s, j + 1) == NumOk(v, k)
    ensures ScanFields(s, j, m, found) == ScanFields(s, k, SetField(m, c, v), true)
  {
    assert SkipSpace(s, j) == j;
  }

  /**
   * Round trip: a command word beginning "G0" or "G1" followed by rendered
   * words parses to the words applied to the zero move, and fails for want of
   * a parameter exactly when no word is a field.
   */
  lemma ParseRendered(cmd: string, ws: seq<Word>)
    requires HasMovePrefix(cmd) && forall k :: 0 <= k < |cmd| ==> !IsSpace(cmd[k])
    requires ValidWords(ws)
    ensures HasField(ws) ==> GetGMove(RenderLine(cmd, ws)) == Success(Apply(ZeroMove, ws))
    ensures !HasField(ws) ==> GetGMove(RenderLine(cmd, ws)) == Failure(NoParameter)
  {
    var line := RenderLine(cmd, ws);
    assert line[..2] == cmd[..2];
    AtSuffix(line, 0);
    assert line[0..] == line;
    AtSplit(line, 0, cmd, WordsText(ws));
    assert TokenEnd(line, 0) == |cmd| by {
      TokenEndAt(line, 0, |cmd|);
      if ws != [] { assert line[|cmd|] == WordsText(ws)[0] == ' '; }
    }
    ScanWords(line, |cmd|, ws, ZeroMove, false);
  }

  lemma {:induction false} TokenEndAt(s: string, i: nat, n: nat)
    requires i <= n <= |s| && forall k :: i <= k < n ==> !IsSpace(s[k])
    requires n == |s| || IsSpace(s[n])
    ensures TokenEnd(s, i) == n
    decreases n - i
  {
    if i < n {
      TokenEndAt(s, i + 1, n);
    }
  }

  /** An unsigned decimal without fraction, as a word's number. */
  function Int(digits: string): Decimal { Decimal(false, digits, "") }

  /** A rendered line with a field word parses to the move its words make. */
  lemma ParsesAs(cmd: string, ws: seq<Word>, line: string, m: Move)
    requires HasMovePrefix(cmd) && forall k :: 0 <= k < |cmd| ==> !IsSpace(cmd[k])
    requires ValidWords(ws) && HasField(ws)
    requires RenderLine(cmd, ws) == line && Apply(ZeroMove, ws) == m
    ensures GetGMove(line) == Success(m)
  {
    ParseRendered(cmd, ws);
  }

  /** The words of "G1 X0 Y700 Z23 E65.23". */
  const ExtrudingWords: seq<Word> :=
    [Field('X', Int("0")), Field('Y', Int("700")), Field('Z', Int("23")), Field('E', Decimal(false, "65", "23"))]

  /** The values of the decimals in the example lines. */
  lemma ExampleDecimals()
    ensures DecimalValue(Int("0")) == 0.0 && DecimalValue(Int("700")) == 700.0
    ensures DecimalValue(Int("23")) == 23.0 && DecimalValue(Int("24")) == 24.0
    ensures DecimalValue(Decimal(false, "65", "23")) == 65.23
  {
    assert DigitsValue("70") == 70;
    assert DigitsValue("700") == 700;
    assert DigitsValue("23") == 23 && DigitsValue("65") == 65 && DigitsValue("24") == 24;
    assert Pow10(2) == 100;
  }

  lemma ExtrudingWordsMove()
    ensures ValidWords(ExtrudingWords) && HasField(ExtrudingWords)
    ensures Apply(ZeroMove, ExtrudingWords) == Move(0.0, 700.0, 23.0, 65.23)
  {
    var ws := ExtrudingWords;
    assert ws[0].Field?;
    ExampleDecimals();
    var m1 := Move(0.0, 0.0, 0.0, 0.0);
    var m2 := Move(0.0, 700.0, 0.0, 0.0);
    var m3 := Move(0.0, 700.0, 23.0, 0.0);
    assert Apply(ZeroMove, ws) == Apply(m1, ws[1..]);
    assert Apply(m1, ws[1..]) == Apply(m2, ws[2..]);
    assert Apply(m2, ws[2..]) == Apply(m3, ws[3..]);
  }

  /** "G1 X0 Y700 Z23 E65.23": a full extruding move as a slicer writes it. */
  lemma ExtrudingMoveExample()
    ensures GetGMove(RenderLine("G1", ExtrudingWords)) == Success(Move(0.0, 700.0, 23.0, 65.23))
    ensures IsExtrusionMove(GetGMove(RenderLine("G1", ExtrudingWords)).value)
  {
    ExtrudingWordsMove();
    ParsesAs("G1", ExtrudingWords, RenderLine("G1", ExtrudingWords), Move(0.0, 700.0, 23.0, 65.23));
  }

  /** The words of "G1 X0 Y700 Z24". */
  const TravelWords: seq<Word> := [Field('X', Int("0")), Field('Y', Int("700")), Field('Z', Int("24"))]

  lemma TravelWordsMove()
    ensures ValidWords(TravelWords) && HasField(TravelWords)
    ensures Apply(ZeroMove, TravelWords) == Move(0.0, 700.0, 24.0, 0.0)
  {
    assert TravelWords[0].Field?;
    ExampleDecimals();
  }

  /** "G1 X0 Y700 Z24": without an E word the move does not extrude. */
  lemma TravelMoveExample()
    ensures GetGMove(RenderLine("G1", TravelWords)) == Success(Move(0.0, 700.0, 24.0, 0.0))
    ensures !IsExtrusionMove(GetGMove(RenderLine("G1", TravelWords)).value)
  {
    TravelWordsMove();
    ParsesAs("G1", TravelWords, RenderLine("G1", TravelWords), Move(0.0, 700.0, 24.0, 0.0));
  }

  /** The words of "G1 F8000 Y5 Y7". */
  const RepeatWords: seq<Word> := [Other("F8000"), Field('Y', Int("5")), Field('Y', Int("7"))]

  lemma RepeatWordsMove()
    ensures ValidWords(RepeatWords) && HasField(RepeatWords)
    ensures Apply(ZeroMove, RepeatWords) == Move(0.0, 7.0, 0.0, 0.0)
  {
    assert RepeatWords[1].Field?;
  }

  /** "G1 F8000 Y5 Y7": a feed-rate word changes nothing, and a repeated letter keeps its last value. */
  lemma FeedRateAndRepeatExample()
    ensures GetGMove(RenderLine("G1", RepeatWords)) == Success(Move(0.0, 7.0, 0.0, 0.0))
  {
    RepeatWordsMove();
    ParsesAs("G1", RepeatWords, RenderLine("G1", RepeatWords), Move(0.0, 7.0, 0.0, 0.0));
  }

  /** "G10 X5": only two characters of the command word are checked, so it passes as a move. */
  lemma LongCommandExample(line: string)
    requires line == "G10 X5"
    ensures GetGMove(line) == Success(Move(5.0, 0.0, 0.0, 0.0))
  {
    var ws := [Field('X', Int("5"))];
    assert HasField(ws) by { assert ws[0].Field?; }
    ParsesAs("G10", ws, line, Move(5.0, 0.0, 0.0, 0.0));
  }

  /** Lines `get_g_move` rejects: a foreign command word, and a move without fields. */
  lemma RejectedExamples()
    ensures GetGMove("G6 X5 Y120 Z9") == Failure(NotAGMove)
    ensures GetGMove("G1") == Failure(NoParameter)
    ensures GetGMove("G1 F8000") == Failure(NoParameter)
    ensures GetGMove("G") == Failure(NotAGMove)
  {
    assert "G6 X5 Y120 Z9"[..2] == "G6";
    ParseRendered("G1", []);
    assert RenderLine("G1", []) == "G1";
    var w := [Other("F8000")];
    assert !HasField(w);
    ParseRendered("G1", w);
    assert RenderLine("G1", w) == "G1 F8000";
  }
}
