/**
 * A layer fragment fed line by line into a parser bound to a 15-row pattern
 * of the standard head: two extruding strokes, one after a travel move.
 */
module Scenario {
  import opened Wrappers
  import opened Text
  import opened Num
  import opened Head
  import opened GCode
  import opened GCodeText
  import opened Pattern
  import opened Parser

  /** "G0 X0 Y0 E0", "G1 X0 Y5 E12.1", "G1 X15 Y10", "G1 X15 Y0 E123.1". */
  const Line1Words: seq<Word> := [Field('X', Int("0")), Field('Y', Int("0")), Field('E', Int("0"))]
  const Line2Words: seq<Word> := [Field('X', Int("0")), Field('Y', Int("5")), Field('E', Decimal(false, "12", "1"))]
  const Line3Words: seq<Word> := [Field('X', Int("15")), Field('Y', Int("10"))]
  const Line4Words: seq<Word> := [Field('X', Int("15")), Field('Y', Int("0")), Field('E', Decimal(false, "123", "1"))]

  const L1: string := RenderLine("G0", Line1Words)
  const L2: string := RenderLine("G1", Line2Words)
  const L3: string := RenderLine("G1", Line3Words)
  const L4: string := RenderLine("G1", Line4Words)

  function Lines(): seq<string>
  {
    [L1, L2, L3, L4]
  }

  const Move1: Move := Move(0.0, 0.0, 0.0, 0.0)
  const Move2: Move := Move(0.0, 5.0, 0.0, 12.1)
  const Move3: Move := Move(15.0, 10.0, 0.0, 0.0)
  const Move4: Move := Move(15.0, 0.0, 0.0, 123.1)

  lemma ScenarioValues()
    ensures DecimalValue(Int("0")) == 0.0 && DecimalValue(Int("5")) == 5.0
    ensures DecimalValue(Int("10")) == 10.0 && DecimalValue(Int("15")) == 15.0
    ensures DecimalValue(Decimal(false, "12", "1")) == 12.1
    ensures DecimalValue(Decimal(false, "123", "1")) == 123.1
  {
    assert "10"[..1] == "1" && "15"[..1] == "1";
    assert DigitsValue("10") == 10 && DigitsValue("15") == 15;
    assert "121"[..2] == "12" && "12"[..1] == "1";
    assert DigitsValue("121") == 121;
    assert DigitsValue("12") == 12;
    assert DigitsValue("123") == 123;
    assert "1231"[..3] == "123";
    assert DigitsValue("1231") == 1231;
    assert Pow10(1) == 10;
  }

  lemma Line1Move()
    ensures ValidWords(Line1Words) && HasField(Line1Words) && Apply(ZeroMove, Line1Words) == Move1
  {
    var ws := Line1Words;
    assert ws[0].Field?;
    ScenarioValues();
    assert Apply(ZeroMove, ws) == Apply(ZeroMove, ws[1..]);
    assert Apply(ZeroMove, ws[1..]) == Apply(ZeroMove, ws[2..]);
  }

  lemma Line2Move()
    ensures ValidWords(Line2Words) && HasField(Line2Words) && Apply(ZeroMove, Line2Words) == Move2
  {
    var ws := Line2Words;
    assert ws[0].Field?;
    ScenarioValues();
    assert Apply(ZeroMove, ws) == Apply(ZeroMove, ws[1..]);
    assert Apply(ZeroMove, ws[1..]) == Apply(Move(0.0, 5.0, 0.0, 0.0), ws[2..]);
  }

  lemma Line3Move()
    ensures ValidWords(Line3Words) && HasField(Line3Words) && Apply(ZeroMove, Line3Words) == Move3
  {
    var ws := Line3Words;
    assert ws[0].Field?;
    ScenarioValues();
    assert Apply(ZeroMove, ws) == Apply(Move(15.0, 0.0, 0.0, 0.0), ws[1..]);
  }

  lemma Line4Move()
    ensures ValidWords(Line4Words) && HasField(Line4Words) && Apply(ZeroMove, Line4Words) == Move4
  {
    var ws := Line4Words;
    assert ws[0].Field?;
    ScenarioValues();
    assert Apply(ZeroMove, ws) == Apply(Move(15.0, 0.0, 0.0, 0.0), ws[1..]);
    assert Apply(Move(15.0, 0.0, 0.0, 0.0), ws[1..]) == Apply(Move(15.0, 0.0, 0.0, 0.0), ws[2..]);
  }

  /** Each line reads as the move its words spell. */
  lemma Line1Parses()
    ensures GetGMove(L1) == Success(Move1)
  {
    Line1Move();
    ParsesAs("G0", Line1Words, L1, Move1);
  }

  lemma Line2Parses()
    ensures GetGMove(L2) == Success(Move2)
  {
    Line2Move();
    ParsesAs("G1", Line2Words, L2, Move2);
  }

  lemma Line3Parses()
    ensures GetGMove(L3) == Success(Move3)
  {
    Line3Move();
    ParsesAs("G1", Line3Words, L3, Move3);
  }

  lemma Line4Parses()
    ensures GetGMove(L4) == Success(Move4)
  {
    Line4Move();
    ParsesAs("G1", Line4Words, L4, Move4);
  }

  /** The parser's empty pattern: 15 rows of 22 bytes. */
  function Fresh(): SprayPattern
  {
    StandardWidth(15);
    NewSprayPattern(StandardHead, 15, 2)
  }

  /** After the first stroke: valve 0 of block 0 in rows 0 to 4. */
  function AfterFirst(): SprayPattern
  {
    StrokesWritable();
    SetValves(Fresh(), 0, 0, 5)
  }

  /** After the second stroke: also valve 3 of block 0 in rows 0 to 9. */
  function AfterSecond(): SprayPattern
  {
    StrokesWritable();
    SetValves(AfterFirst(), 15, 0, 10)
  }

  lemma StrokesWritable()
    ensures CanSetValves(Fresh(), 0, 0, 5) && Address(Fresh(), 0) == (0, 0)
    ensures SameShape(Fresh(), SetValves(Fresh(), 0, 0, 5))
    ensures CanSetValves(SetValves(Fresh(), 0, 0, 5), 15, 0, 10)
    ensures Address(SetValves(Fresh(), 0, 0, 5), 15) == (0, 3)
  {
    StandardWidth(15);
    AddressOfValve(StandardHead, 0, 0, 0.0);
    AddressOfValve(StandardHead, 0, 3, 15.0);
    assert CanSetValves(Fresh(), 0, 0, 5);
  }

  /** The first line is the first move: it paints nothing. */
  lemma Step1()
    ensures NewParser(StandardHead, 880, 15) == ParserState(false, Fresh(), ZeroMove)
    ensures CanParse(ParserState(false, Fresh(), ZeroMove), L1)
    ensures Parse(ParserState(false, Fresh(), ZeroMove), L1) == ParserState(true, Fresh(), Move1)
  {
    FilterParserShape(15);
    Line1Parses();
  }

  /** The second line extrudes from (0, 0) to (0, 5). */
  lemma Step2()
    ensures CanParse(ParserState(true, Fresh(), Move1), L2)
    ensures Parse(ParserState(true, Fresh(), Move1), L2) == ParserState(true, AfterFirst(), Move2)
  {
    Line2Parses();
    StrokesWritable();
    assert Trunc(0.0) == 0 && Trunc(5.0) == 5;
    assert CanAddSprayLine(Fresh(), Move1, Move2);
  }

  /** The third line travels to (15, 10). */
  lemma Step3()
    ensures CanParse(ParserState(true, AfterFirst(), Move2), L3)
    ensures Parse(ParserState(true, AfterFirst(), Move2), L3) == ParserState(true, AfterFirst(), Move3)
  {
    Line3Parses();
  }

  /** The fourth line extrudes from (15, 10) down to (15, 0). */
  lemma Step4()
    ensures CanParse(ParserState(true, AfterFirst(), Move3), L4)
    ensures Parse(ParserState(true, AfterFirst(), Move3), L4) == ParserState(true, AfterSecond(), Move4)
  {
    Line4Parses();
    StrokesWritable();
    assert Trunc(0.0) == 0 && Trunc(10.0) == 10 && Trunc(15.0) == 15;
    assert CanAddSprayLine(AfterFirst(), Move3, Move4);
  }

  /** The run ends holding the last move and the pattern of both strokes. */
  lemma ScenarioRun()
    ensures SafeRun(NewParser(StandardHead, 880, 15), Lines())
    ensures ParseAll(NewParser(StandardHead, 880, 15), Lines()) == ParserState(true, AfterSecond(), Move4)
  {
    Step1();
    Step2();
    Step3();
    Step4();
    var ls := Lines();
    assert ls[0] == L1 && ls[1] == L2 && ls[2] == L3 && ls[3] == L4;
    var s0 := ParserState(false, Fresh(), ZeroMove);
    var s1 := ParserState(true, Fresh(), Move1);
    var s2 := ParserState(true, AfterFirst(), Move2);
    var s3 := ParserState(true, AfterFirst(), Move3);
    var s4 := ParserState(true, AfterSecond(), Move4);
    assert ls[1..][1..][1..][1..] == [];
    assert SafeRun(s3, ls[3..]) && ParseAll(s3, ls[3..]) == s4;
    assert ls[2..][1..] == ls[3..];
    assert SafeRun(s2, ls[2..]) && ParseAll(s2, ls[2..]) == s4;
    assert ls[1..][1..] == ls[2..];
    assert SafeRun(s1, ls[1..]) && ParseAll(s1, ls[1..]) == s4;
  }

  /**
   * One bit after the whole fragment: on exactly when a stroke covers it,
   * the first stroke valve 0 of block 0 in rows 0 to 4, the second valve 3
   * of block 0 in rows 0 to 9. The travel move paints nothing.
   */
  lemma ScenarioBit(n: nat, k: nat, j: nat)
    requires n < 15 && k < 22 && j < 8
    ensures var st := NewParser(StandardHead, 880, 15);
      SafeRun(st, Lines()) &&
      var p := ParseAll(st, Lines()).pattern;
      n < |p.rows| && k < |p.rows[n]| &&
      (On(p, n, k, j) <==> (n < 5 && (k, j) == (0, 0)) || (n < 10 && (k, j) == (0, 3)))
  {
    ScenarioRun();
    StrokesWritable();
    StandardWidth(15);
    FreshIsEmpty(StandardHead, 15, 2, n, k, j);
    SetValvesBit(Fresh(), 0, 0, 5, n, k, j);
    SetValvesBit(AfterFirst(), 15, 0, 10, n, k, j);
  }

  /** The whole fragment, row by row for the two valves it paints. */
  lemma ScenarioPattern()
    ensures var st := NewParser(StandardHead, 880, 15);
      SafeRun(st, Lines()) &&
      var p := ParseAll(st, Lines()).pattern;
      |p.rows| == 15 && (forall n :: 0 <= n < 15 ==> |p.rows[n]| == 22) &&
      (forall n :: 0 <= n < 15 ==> (On(p, n, 0, 0) <==> n < 5)) &&
      (forall n :: 0 <= n < 15 ==> (On(p, n, 0, 3) <==> n < 10))
  {
    ScenarioRun();
    StrokesWritable();
    StandardWidth(15);
    forall n | 0 <= n < 15
      ensures (On(AfterSecond(), n, 0, 0) <==> n < 5) && (On(AfterSecond(), n, 0, 3) <==> n < 10)
    {
      ScenarioBit(n, 0, 0);
      ScenarioBit(n, 0, 3);
    }
  }
}
