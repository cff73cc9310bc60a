/**
 * The text `GCodeGenerator` writes for one layer, line by line: the layer
 * header, a forward pass with the even nozzles of every row, the turn, a
 * return pass with the odd nozzles in reverse row order, and the layer end.
 * Each line is followed by a newline in the generated text.
 */
module Emitter {
  import opened Wrappers
  import opened Num
  import opened Text
  import opened Bits
  import opened Interlace
  import opened GCode
  import opened GCodeText
  import opened Pattern

  /** The command and field words of `G1 Y<y>`, followed by `F8000` when `feed` is set. */
  function YWords(y: int, feed: bool): seq<Word>
  {
    [Field('Y', Decimal(y < 0, NatToString(if y < 0 then -y else y), ""))] + (if feed then [Other("F8000")] else [])
  }

  /** A positioning line along Y: `"G1 Y" + std::to_string(y)`, optionally `+ " F8000"`. */
  function YLine(y: int, feed: bool): string
  {
    RenderLine("G1", YWords(y, feed))
  }

  /** The line is the text the generator concatenates. */
  lemma YLineText(y: int, feed: bool)
    ensures YLine(y, feed) == "G1 Y" + IntToString(y) + (if feed then " F8000" else "")
  {
    var w, tail := "Y" + IntToString(y), if feed then " F8000" else "";
    YWordsText(y, feed);
    Regroup("G1", " ", w, tail);
  }

  lemma Regroup(a: string, b: string, c: string, d: string)
    ensures a + (b + c + d) == (a + b) + c + d
  {
  }

  lemma YWordsText(y: int, feed: bool)
    ensures WordsText(YWords(y, feed)) == " " + ("Y" + IntToString(y)) + (if feed then " F8000" else "")
  {
    var ws := YWords(y, feed);
    YWordText(y);
    assert ws[0] == YWords(y, false)[0];
    if feed {
      assert ws[1..][1..] == [];
      assert WordsText(ws[1..]) == " " + "F8000" + WordsText([]);
    } else {
      assert ws[1..] == [];
    }
  }

  lemma YWordText(y: int)
    ensures WordText(YWords(y, false)[0]) == "Y" + IntToString(y)
  {
    var d := YWords(y, false)[0].num;
    assert FracText(d) == "";
    if y < 0 {
      assert DecimalText(d) == "-" + NatToString(-y);
    } else {
      assert DecimalText(d) == NatToString(y);
    }
  }

  /** `get_g_move` reads a positioning line back as a move to Y = y that does not extrude. */
  lemma YLineReads(y: int, feed: bool)
    ensures GetGMove(YLine(y, feed)) == Success(Move(0.0, y as real, 0.0, 0.0))
    ensures !IsExtrusionMove(GetGMove(YLine(y, feed)).value)
  {
    var ws := YWords(y, feed);
    var d := ws[0].num;
    var a := if y < 0 then -y else y;
    assert DigitsValue(d.whole) == a;
    assert DigitsValue(d.frac) == 0 && Pow10(0) == 1;
    assert ValidDecimal(d);
    assert DecimalValue(d) == y as real;
    FeedWordValid();
    assert ValidWords(ws) && HasField(ws) by {
      assert ws[0].Field?;
    }
    var m := Move(0.0, y as real, 0.0, 0.0);
    assert ApplyWord(ZeroMove, ws[0]) == m;
    assert Apply(ZeroMove, ws) == Apply(m, ws[1..]);
    if feed {
      assert ws[1..][1..] == [];
      assert Apply(m, ws[1..]) == Apply(m, []);
    }
    ParseRendered("G1", ws);
  }

  /** The feed-rate word carries no field letter, so reading it changes nothing. */
  lemma FeedWordValid()
    ensures ValidWord(Other("F8000"))
  {
    var t := "F8000";
    assert t[0] == 'F' && t[1] == '8' && t[2] == '0' && t[3] == '0' && t[4] == '0';
  }

  const ValuesPrefix: string := "VALVES_SET VALUES="

  /** The decimal text of each byte, as `std::to_string(b.to_ulong())` writes it. */
  function ValueTexts(vs: seq<bv8>): (ts: seq<string>)
    ensures |ts| == |vs|
  {
    seq(|vs|, i requires 0 <= i < |vs| => NatToString(vs[i] as nat))
  }

  /** The string without its last character, as `pop_back` leaves it. */
  function DropLast(s: string): string
    requires |s| > 0
  {
    s[..|s| - 1]
  }

  /**
   * A valve line: the prefix, each value followed by a comma, and the last
   * character popped. With no values the '=' of the prefix is what goes.
   */
  function ValuesLine(vs: seq<bv8>): (line: string)
    ensures |vs| > 0 ==> line == ValuesPrefix + Join(ValueTexts(vs), ',')
    ensures |vs| == 0 ==> line == "VALVES_SET VALUES"
  {
    var line := DropLast(ValuesPrefix + Terminated(ValueTexts(vs), ','));
    if |vs| > 0 then
      TerminatedIsJoin(ValueTexts(vs), ',');
      line
    else line
  }

  /** The numbers a valve line carries, or `None` for a line that is not one. */
  function ReadValues(line: string): Option<seq<nat>>
  {
    if line == "VALVES_SET VALUES" then Some([])
    else if StartsWith(line, ValuesPrefix) then
      var parts := SplitOn(line[|ValuesPrefix|..], ',');
      Some(seq(|parts|, i requires 0 <= i < |parts| => DigitsValue(parts[i])))
    else None
  }

  /** The bytes as numbers, as `to_ulong` gives them. */
  function AsNats(vs: seq<bv8>): (ns: seq<nat>)
    ensures |ns| == |vs| && forall i :: 0 <= i < |vs| ==> ns[i] == vs[i] as nat && ns[i] < 256
  {
    seq(|vs|, i requires 0 <= i < |vs| => vs[i] as nat)
  }

  /** Reading a valve line gives back the bytes it was written from. */
  lemma ValuesRoundTrip(vs: seq<bv8>)
    ensures ReadValues(ValuesLine(vs)) == Some(AsNats(vs))
  {
    var line := ValuesLine(vs);
    if |vs| > 0 {
      var ts := ValueTexts(vs);
      assert NoneContains(ts, ',') by {
        forall i | 0 <= i < |ts| ensures ',' !in ts[i] {
          DigitsHaveNo(ts[i], ',');
        }
      }
      SplitJoin(ts, ',');
      assert line != "VALVES_SET VALUES" by {
        assert |line| > |"VALVES_SET VALUES"|;
      }
      assert StartsWith(line, ValuesPrefix);
      assert line[|ValuesPrefix|..] == Join(ts, ',');
      var parts := SplitOn(line[|ValuesPrefix|..], ',');
      assert parts == ts;
      assert forall i :: 0 <= i < |vs| ==> DigitsValue(ts[i]) == vs[i] as nat;
      assert ReadValues(line) == Some(seq(|parts|, i requires 0 <= i < |parts| => DigitsValue(parts[i])));
      assert seq(|parts|, i requires 0 <= i < |parts| => DigitsValue(parts[i])) ==
             AsNats(vs);
    } else {
      assert ReadValues(line) == Some([]);
      assert AsNats(vs) == [];
    }
  }

  /** `n` zeros separated by commas. */
  function ZeroList(n: nat): string
    requires n > 0
  {
    if n == 1 then "0" else "0," + ZeroList(n - 1)
  }

  lemma {:induction false} JoinZeros(n: nat)
    requires n > 0
    ensures Join(ValueTexts(seq(n, _ => 0 as bv8)), ',') == ZeroList(n)
  {
    var ts := ValueTexts(seq(n, _ => 0 as bv8));
    if n > 1 {
      JoinZeros(n - 1);
      assert ts[1..] == ValueTexts(seq(n - 1, _ => 0 as bv8));
      assert ts[0] == "0";
    } else {
      assert ts == ["0"];
    }
  }

  /** Eleven closed valves: the line written at the turn and at the end of a layer. */
  const IdleLine: string := "VALVES_SET VALUES=0,0,0,0,0,0,0,0,0,0,0"

  /** The idle line is the valve line of eleven zero bytes, one per block of the standard head. */
  lemma IdleLineIsZeros()
    ensures IdleLine == ValuesLine(seq(11, _ => 0 as bv8))
  {
    JoinZeros(11);
    ElevenZeros();
    IdlePrefix();
  }

  lemma ElevenZeros()
    ensures ZeroList(11) == "0,0,0,0,0,0,0,0,0,0,0"
  {
  }

  lemma IdlePrefix()
    ensures IdleLine == ValuesPrefix + "0,0,0,0,0,0,0,0,0,0,0"
  {
  }

  /** Read back, the idle line closes all eleven blocks. */
  lemma IdleLineReads()
    ensures ReadValues(IdleLine) == Some(seq(11, _ => 0))
  {
    var z := seq(11, _ => 0 as bv8);
    IdleLineIsZeros();
    ValuesRoundTrip(z);
    assert AsNats(z) == seq(11, _ => 0);
  }

  /**
   * One line of generated text, before rendering: a positioning move, a
   * valve line with its values, the valve line of the zero override with
   * the number of values it replaces, the two lines carrying the layer
   * number, or a fixed command.
   */
  datatype Line =
    | MoveY(y: int, feed: bool)
    | Valves(vs: seq<bv8>)
    | ZeroValves(count: nat)
    | LayerComment(n: int)
    | LayerStats(n: int)
    | Fixed(c: Command)

  /** The fixed lines of the layer commands. */
  datatype Command = SetFirstPass | ZOneLayer | FillHopper | PausePrinter | DepositOneLayer | CloseValves | SetSecondPass | Dwell

  function CommandText(c: Command): string
  {
    match c
    case SetFirstPass => "SET_FIRST_PASS"
    case ZOneLayer => "Z_ONE_LAYER"
    case FillHopper => "FILL_HOPPER_UNTIL_FULL"
    case PausePrinter => "PAUSE_PRINTER ;wait for button press"
    case DepositOneLayer => "DEPOSIT_ONE_LAYER"
    case CloseValves => IdleLine
    case SetSecondPass => "SET_SECOND_PASS"
    case Dwell => "G4 P3000"
  }

  const LayerCommentPrefix: string := ";Layer"
  const LayerStatsPrefix: string := "SET_PRINT_STATS_INFO CURRENT_LAYER="

  /** Eleven zeros and a comma: what the zero override writes per replaced value. */
  const ZeroGroup: string := "0,0,0,0,0,0,0,0,0,0,0,"

  function Render(l: Line): string
  {
    match l
    case MoveY(y, feed) => YLine(y, feed)
    case Valves(vs) => ValuesLine(vs)
    case ZeroValves(n) => DropLast(ValuesPrefix + Repeat(ZeroGroup, n))
    case LayerComment(n) => LayerCommentPrefix + IntToString(n)
    case LayerStats(n) => LayerStatsPrefix + IntToString(n)
    case Fixed(c) => CommandText(c)
  }

  /** `t` written `n` times. */
  function Repeat(t: string, n: nat): string
  {
    if n == 0 then "" else t + Repeat(t, n - 1)
  }

  /** Digits of a number after a fixed prefix read back as that number. */
  predicate CarriesNumber(line: string, prefix: string, n: int)
  {
    StartsWith(line, prefix) && AllDigits(line[|prefix|..]) && DigitsValue(line[|prefix|..]) == n
  }

  lemma NumberAfter(prefix: string, n: nat)
    ensures CarriesNumber(prefix + NatToString(n), prefix, n)
  {
    var line := prefix + NatToString(n);
    assert line[..|prefix|] == prefix && line[|prefix|..] == NatToString(n);
  }

  /**
   * `layer_begin_cmd`: the layer comment and the print-statistics line with
   * the one-based layer number, then the five commands that start a layer.
   */
  function LayerBeginLines(layerIdx: int): (ls: seq<Line>)
    ensures |ls| == 7
    ensures forall k :: 0 <= k < |ls| ==> !DrivesValves(ls[k])
  {
    [LayerComment(layerIdx + 1), LayerStats(layerIdx + 1), Fixed(SetFirstPass), Fixed(ZOneLayer),
     Fixed(FillHopper), Fixed(PausePrinter), Fixed(DepositOneLayer)]
  }

  /** Read back, both numbered header lines carry the one-based layer number. */
  lemma LayerBeginReads(layerIdx: int)
    requires layerIdx >= -1
    ensures var ls := LayerBeginLines(layerIdx);
      CarriesNumber(Render(ls[0]), LayerCommentPrefix, layerIdx + 1) &&
      CarriesNumber(Render(ls[1]), LayerStatsPrefix, layerIdx + 1)
  {
    var ls := LayerBeginLines(layerIdx);
    NumberedLine(ls[0], LayerCommentPrefix, layerIdx + 1);
    NumberedLine(ls[1], LayerStatsPrefix, layerIdx + 1);
  }

  lemma NumberedLine(l: Line, prefix: string, n: nat)
    requires (l == LayerComment(n) && prefix == LayerCommentPrefix) || (l == LayerStats(n) && prefix == LayerStatsPrefix)
    ensures CarriesNumber(Render(l), prefix, n)
  {
    assert Render(l) == prefix + NatToString(n);
    NumberAfter(prefix, n);
  }

  /**
   * `layer_return_cmd`: the head moves to `y` and closes every valve, steps
   * on to `y + 1`, switches to the second pass and dwells three seconds.
   */
  function LayerReturnLines(y: int): (ls: seq<Line>)
    ensures |ls| == 5
    ensures forall k :: 0 <= k < |ls| ==> (DrivesValves(ls[k]) <==> k == 1)
  {
    [MoveY(y, false), Fixed(CloseValves), MoveY(y + 1, false), Fixed(SetSecondPass), Fixed(Dwell)]
  }

  /** The closing line, read back, closes all eleven blocks. */
  lemma CloseValvesReads(l: Line)
    requires l == Fixed(CloseValves)
    ensures ReadValues(Render(l)) == Some(seq(11, _ => 0))
  {
    assert Render(l) == IdleLine;
    IdleLineReads();
  }

  /** Read back, the turn moves to `y`, closes all eleven blocks and moves to `y + 1`. */
  lemma LayerReturnReads(y: int)
    ensures var ls := LayerReturnLines(y);
      GetGMove(Render(ls[0])) == Success(Move(0.0, y as real, 0.0, 0.0)) &&
      ReadValues(Render(ls[1])) == Some(seq(11, _ => 0)) &&
      GetGMove(Render(ls[2])) == Success(Move(0.0, (y + 1) as real, 0.0, 0.0))
  {
    var ls := LayerReturnLines(y);
    assert ls[0] == MoveY(y, false) && ls[2] == MoveY(y + 1, false);
    YLineReads(y, false);
    YLineReads(y + 1, false);
    CloseValvesReads(ls[1]);
  }

  /**
   * `layer_end_cmd`: one row short of `yStartBedPos` the valves close, and
   * the head goes home to Y = 0.
   */
  function LayerEndLines(yStartBedPos: int): (ls: seq<Line>)
    ensures |ls| == 3
    ensures forall k :: 0 <= k < |ls| ==> (DrivesValves(ls[k]) <==> k == 1)
  {
    [MoveY(yStartBedPos - 1, false), Fixed(CloseValves), MoveY(0, false)]
  }

  /** Read back, the layer end moves to `yStartBedPos - 1`, closes all blocks and moves home. */
  lemma LayerEndReads(yStartBedPos: int)
    ensures var ls := LayerEndLines(yStartBedPos);
      GetGMove(Render(ls[0])) == Success(Move(0.0, (yStartBedPos - 1) as real, 0.0, 0.0)) &&
      ReadValues(Render(ls[1])) == Some(seq(11, _ => 0)) &&
      GetGMove(Render(ls[2])) == Success(ZeroMove)
  {
    var ls := LayerEndLines(yStartBedPos);
    assert ls[0] == MoveY(yStartBedPos - 1, false) && ls[2] == MoveY(0, false);
    YLineReads(yStartBedPos - 1, false);
    YLineReads(0, false);
    CloseValvesReads(ls[1]);
  }

  /** Every row has an even number of bytes, as `interlace_and_separate` demands. */
  predicate AllEven(rows: seq<seq<bv8>>)
  {
    forall n :: 0 <= n < |rows| ==> |rows[n]| % 2 == 0
  }

  /** The rows after `interlace_and_separate`: even nozzles in the first half of each, odd in the second. */
  function Separated(rows: seq<seq<bv8>>): (ds: seq<seq<bv8>>)
    requires AllEven(rows)
    ensures |ds| == |rows| && forall n :: 0 <= n < |rows| ==> ds[n] == Deinterleave(rows[n])
  {
    seq(|rows|, n requires 0 <= n < |rows| => Deinterleave(rows[n]))
  }

  /** The forward-pass values of a separated row: its first half, each byte bit-reversed. */
  function FrontValues(d: seq<bv8>): (vs: seq<bv8>)
    ensures |vs| == |d| / 2
  {
    seq(|d| / 2, i requires 0 <= i < |d| / 2 => ReverseByte(d[i]))
  }

  /** The return-pass values of a separated row: its second half, each byte bit-reversed. */
  function BackValues(d: seq<bv8>): (vs: seq<bv8>)
    ensures |vs| == |d| - |d| / 2
  {
    seq(|d| - |d| / 2, i requires 0 <= i < |d| - |d| / 2 => ReverseByte(d[|d| / 2 + i]))
  }

  /**
   * A return-pass valve line. At Y = 0 every value of the row is replaced by
   * eleven zeros; elsewhere the row's odd-nozzle values are written.
   */
  function ReturnValues(d: seq<bv8>, y: int): Line
  {
    if y == 0 then ZeroValves(|d| - |d| / 2) else Valves(BackValues(d))
  }

  /**
   * The forward loop of `generate` from row `i`, the head at `yStart + i`: the
   * row is separated (which throws on an odd length), then a positioning line,
   * with the feed rate while the head is still at `yStart`, and the
   * even-nozzle valve line.
   */
  function ForwardPass(rows: seq<seq<bv8>>, yStart: int, i: nat): (r: Result<seq<Line>, Error>)
    requires i <= |rows|
    ensures r.Success? ==> |r.value| == 2 * (|rows| - i)
    ensures r.Success? ==> forall k :: 0 <= k < |r.value| ==> (r.value[k].MoveY? <==> k % 2 == 0)
    ensures r.Success? ==> forall k :: 0 <= k < |r.value| ==> (DrivesValves(r.value[k]) <==> k % 2 == 1)
    decreases |rows| - i
  {
    if i == |rows| then Success([])
    else if |rows[i]| % 2 != 0 then Failure(OddRowLength)
    else
      var y := yStart + i;
      var d := Deinterleave(rows[i]);
      var head := [MoveY(y, y == yStart), Valves(FrontValues(d))];
      match ForwardPass(rows, yStart, i + 1)
      case Failure(e) => Failure(e)
      case Success(rest) => Success(head + rest)
  }

  /**
   * The return loop of `generate` over the separated rows, last row first:
   * the head position `y` is decremented before each row is written.
   */
  function ReturnPass(ds: seq<seq<bv8>>, y: int): (ls: seq<Line>)
    ensures |ls| == 2 * |ds|
    ensures forall k :: 0 <= k < |ls| ==> (ls[k].MoveY? <==> k % 2 == 0)
    ensures forall k :: 0 <= k < |ls| ==> (DrivesValves(ls[k]) <==> k % 2 == 1)
    decreases |ds|
  {
    if ds == [] then []
    else
      var y' := y - 1;
      [MoveY(y', false), ReturnValues(ds[|ds| - 1], y')] + ReturnPass(ds[..|ds| - 1], y')
  }

  /**
   * The lines of `generate`: the layer header, the forward pass, the turn at
   * the row after the last, the return pass from there back down, and the
   * layer end. `bed_length` is not used.
   */
  function GenerateLines(sp: SprayPattern, layerNr: U16, yStart: U16): Result<seq<Line>, Error>
  {
    match ForwardPass(sp.rows, yStart as int, 0)
    case Failure(e) => Failure(e)
    case Success(forward) =>
      ForwardPassFails(sp.rows, yStart as int, 0);
      var y := yStart as int + |sp.rows|;
      Success(LayerBeginLines(layerNr as int) + forward + LayerReturnLines(y) +
              ReturnPass(Separated(sp.rows), y + 1) + LayerEndLines(y + 1 - |sp.rows|))
  }

  /** The text of some lines, each rendered and followed by a newline. */
  function RenderAll(ls: seq<Line>): string
  {
    Terminated(seq(|ls|, i requires 0 <= i < |ls| => Render(ls[i])), '\n')
  }

  /** `generate`: the layer's text, or the error of an odd row. */
  function Generate(sp: SprayPattern, layerNr: U16, yStart: U16, bedLength: U16): (r: Result<string, Error>)
    ensures r.Failure? <==> !AllEven(sp.rows)
    ensures r.Failure? ==> r.error == OddRowLength
  {
    ForwardPassFails(sp.rows, yStart as int, 0);
    match GenerateLines(sp, layerNr, yStart)
    case Failure(e) => Failure(e)
    case Success(ls) => Success(RenderAll(ls))
  }

  /** The forward loop throws exactly when one of the remaining rows has odd length. */
  lemma {:induction false} ForwardPassFails(rows: seq<seq<bv8>>, yStart: int, i: nat)
    requires i <= |rows|
    ensures var r := ForwardPass(rows, yStart, i);
      (r.Failure? <==> exists n :: i <= n < |rows| && |rows[n]| % 2 != 0) &&
      (r.Failure? ==> r.error == OddRowLength)
    decreases |rows| - i
  {
    if i < |rows| && |rows[i]| % 2 == 0 {
      ForwardPassFails(rows, yStart, i + 1);
      assert (exists n :: i <= n < |rows| && |rows[n]| % 2 != 0) <==>
             (exists n :: i + 1 <= n < |rows| && |rows[n]| % 2 != 0);
    }
  }

  lemma {:induction false} ForwardPassLength(rows: seq<seq<bv8>>, yStart: int, i: nat)
    requires i <= |rows| && ForwardPass(rows, yStart, i).Success?
    ensures |ForwardPass(rows, yStart, i).value| == 2 * (|rows| - i)
    decreases |rows| - i
  {
    if i < |rows| {
      ForwardPassLength(rows, yStart, i + 1);
    }
  }

  /**
   * Row `r` of the forward pass: a move to `yStart + r`, with the feed rate
   * on the first row only, and the row's even-nozzle values.
   */
  lemma {:induction false} ForwardPassRow(rows: seq<seq<bv8>>, yStart: int, i: nat, r: nat)
    requires i <= r < |rows| && ForwardPass(rows, yStart, i).Success?
    ensures |rows[r]| % 2 == 0
    ensures var ls := ForwardPass(rows, yStart, i).value;
      2 * (r - i) + 1 < |ls| &&
      ls[2 * (r - i)] == MoveY(yStart + r, r == 0) &&
      ls[2 * (r - i) + 1] == Valves(FrontValues(Deinterleave(rows[r])))
    decreases |rows| - i
  {
    ForwardPassLength(rows, yStart, i);
    if r > i {
      ForwardPassRow(rows, yStart, i + 1, r);
      var ls := ForwardPass(rows, yStart, i).value;
      var rest := ForwardPass(rows, yStart, i + 1).value;
      assert ls[2..] == rest;
      assert ls[2 * (r - i)] == rest[2 * (r - i - 1)];
      assert ls[2 * (r - i) + 1] == rest[2 * (r - i - 1) + 1];
    }
  }

  lemma {:induction false} ReturnPassLength(ds: seq<seq<bv8>>, y: int)
    ensures |ReturnPass(ds, y)| == 2 * |ds|
    decreases |ds|
  {
    if ds != [] {
      ReturnPassLength(ds[..|ds| - 1], y - 1);
    }
  }

  /**
   * Row `r` of the return pass, written `|ds| - 1 - r` rows after the pass
   * starts at `y`: a move to `y - |ds| + r` and the row's return values there.
   */
  lemma {:induction false} ReturnPassRow(ds: seq<seq<bv8>>, y: int, r: nat)
    requires r < |ds|
    ensures var ls := ReturnPass(ds, y); var k := 2 * (|ds| - 1 - r);
      k + 1 < |ls| &&
      ls[k] == MoveY(y - |ds| + r, false) &&
      ls[k + 1] == ReturnValues(ds[r], y - |ds| + r)
    decreases |ds|
  {
    ReturnPassLength(ds, y);
    if r < |ds| - 1 {
      var init := ds[..|ds| - 1];
      ReturnPassRow(init, y - 1, r);
      assert init[r] == ds[r];
      var ls := ReturnPass(ds, y);
      assert ls[2..] == ReturnPass(init, y - 1);
    }
  }

  /** Away from Y = 0 the return pass writes every row's own values. */
  lemma ReturnPassValues(ds: seq<seq<bv8>>, y: int, r: nat)
    requires r < |ds| && y - |ds| + r != 0
    ensures var ls := ReturnPass(ds, y); var k := 2 * (|ds| - 1 - r);
      k + 1 < |ls| &&
      ls[k] == MoveY(y - |ds| + r, false) &&
      ls[k + 1] == Valves(BackValues(ds[r]))
  {
    ReturnPassRow(ds, y, r);
  }

  /**
   * The layout of a layer: 7 header lines, 2 lines per row forward, the 5
   * lines of the turn, 2 lines per row back, and the 3 lines of the end, which
   * closes the valves at `yStart`.
   */
  lemma GenerateFrame(sp: SprayPattern, layerNr: U16, yStart: U16)
    requires AllEven(sp.rows)
    ensures GenerateLines(sp, layerNr, yStart).Success?
    ensures var ls := GenerateLines(sp, layerNr, yStart).value; var R := |sp.rows|;
      |ls| == 15 + 4 * R &&
      ls[..7] == LayerBeginLines(layerNr as int) &&
      ls[7..7 + 2 * R] == ForwardPass(sp.rows, yStart as int, 0).value &&
      ls[7 + 2 * R..12 + 2 * R] == LayerReturnLines(yStart as int + R) &&
      ls[12 + 2 * R..12 + 4 * R] == ReturnPass(Separated(sp.rows), yStart as int + R + 1) &&
      ls[12 + 4 * R..] == LayerEndLines(yStart as int + 1)
  {
    var R := |sp.rows|;
    ForwardPassFails(sp.rows, yStart as int, 0);
    ForwardPassLength(sp.rows, yStart as int, 0);
    ReturnPassLength(Separated(sp.rows), yStart as int + R + 1);
    var a := LayerBeginLines(layerNr as int);
    var b := ForwardPass(sp.rows, yStart as int, 0).value;
    var c := LayerReturnLines(yStart as int + R);
    var d := ReturnPass(Separated(sp.rows), yStart as int + R + 1);
    var e := LayerEndLines(yStart as int + R + 1 - R);
    var ls := GenerateLines(sp, layerNr, yStart).value;
    assert ls == a + b + c + d + e;
    assert |a| == 7 && |b| == 2 * R && |c| == 5 && |d| == 2 * R;
    ConcatParts(a, b, c, d, e);
  }

  /** The lines of a layer whose rows all have even length, part by part. */
  lemma GenerateParts(sp: SprayPattern, layerNr: U16, yStart: U16)
    requires AllEven(sp.rows)
    ensures ForwardPass(sp.rows, yStart as int, 0).Success?
    ensures var R := |sp.rows|;
      GenerateLines(sp, layerNr, yStart) ==
        Success(LayerBeginLines(layerNr as int) + ForwardPass(sp.rows, yStart as int, 0).value +
                LayerReturnLines(yStart as int + R) + ReturnPass(Separated(sp.rows), yStart as int + R + 1) +
                LayerEndLines(yStart as int + R + 1 - R))
  {
    ForwardPassFails(sp.rows, yStart as int, 0);
  }

  /** The five parts of a concatenation are its slices at the running lengths. */
  lemma ConcatParts<T>(a: seq<T>, b: seq<T>, c: seq<T>, d: seq<T>, e: seq<T>)
    ensures var x, i, j, k, l := a + b + c + d + e, |a|, |a| + |b|, |a| + |b| + |c|, |a| + |b| + |c| + |d|;
      x[..i] == a && x[i..j] == b && x[j..k] == c && x[k..l] == d && x[l..] == e
  {
    var x := a + b + c + d + e;
    var i, j, k, l := |a|, |a| + |b|, |a| + |b| + |c|, |a| + |b| + |c| + |d|;
    assert x[..i] == a;
    assert x[i..j] == b;
    assert x[j..k] == c;
    assert x[k..l] == d;
    assert x[l..] == e;
  }

  /**
   * Row `r` of the pattern on the way out, at line `7 + 2r`: a move to
   * `yStart + r`, with the feed rate on row 0 only, and its even-nozzle values.
   */
  lemma GenerateForwardRow(sp: SprayPattern, layerNr: U16, yStart: U16, r: nat)
    requires AllEven(sp.rows) && r < |sp.rows|
    ensures GenerateLines(sp, layerNr, yStart).Success?
    ensures var ls := GenerateLines(sp, layerNr, yStart).value;
      |ls| == 15 + 4 * |sp.rows| &&
      ls[7 + 2 * r] == MoveY(yStart as int + r, r == 0) &&
      ls[8 + 2 * r] == Valves(FrontValues(Deinterleave(sp.rows[r])))
  {
    GenerateFrame(sp, layerNr, yStart);
    var ls := GenerateLines(sp, layerNr, yStart).value;
    var fw := ForwardPass(sp.rows, yStart as int, 0).value;
    ForwardPassRow(sp.rows, yStart as int, 0, r);
    assert ls[7 + 2 * r] == fw[2 * r] && ls[8 + 2 * r] == fw[2 * r + 1];
  }

  /**
   * Row `r` of the pattern on the way back, at line `10 + 4R - 2r`: a move to
   * `yStart + r + 1` and its odd-nozzle values. The head is never at Y = 0
   * on the way back, so the zero override never replaces a row's values.
   */
  lemma GenerateReturnRow(sp: SprayPattern, layerNr: U16, yStart: U16, r: nat)
    requires AllEven(sp.rows) && r < |sp.rows|
    ensures GenerateLines(sp, layerNr, yStart).Success?
    ensures var ls := GenerateLines(sp, layerNr, yStart).value; var R := |sp.rows|;
      |ls| == 15 + 4 * R &&
      ls[10 + 4 * R - 2 * r] == MoveY(yStart as int + r + 1, false) &&
      ls[11 + 4 * R - 2 * r] == Valves(BackValues(Deinterleave(sp.rows[r])))
  {
    var R := |sp.rows|;
    GenerateFrame(sp, layerNr, yStart);
    var ls := GenerateLines(sp, layerNr, yStart).value;
    var ds := Separated(sp.rows);
    var bw := ReturnPass(ds, yStart as int + R + 1);
    assert yStart as int + R + 1 - |ds| + r == yStart as int + r + 1;
    ReturnPassValues(ds, yStart as int + R + 1, r);
    assert ds[r] == Deinterleave(sp.rows[r]);
    ReturnRowAt(ls, bw, R, r, MoveY(yStart as int + r + 1, false), Valves(BackValues(ds[r])));
  }

  /** Line `k` of the return pass is line `12 + 2R + k` of the layer. */
  lemma ReturnRowAt(ls: seq<Line>, bw: seq<Line>, R: nat, r: nat, m: Line, v: Line)
    requires r < R && |ls| == 15 + 4 * R && |bw| == 2 * R && ls[12 + 2 * R..12 + 4 * R] == bw
    requires bw[2 * (R - 1 - r)] == m && bw[2 * (R - 1 - r) + 1] == v
    ensures ls[10 + 4 * R - 2 * r] == m && ls[11 + 4 * R - 2 * r] == v
  {
    var k := 2 * (R - 1 - r);
    assert ls[12 + 2 * R + k] == bw[k];
    assert ls[12 + 2 * R + k + 1] == bw[k + 1];
  }

  /**
   * A positioning line as the generator writes it: "G1 Y<y>", followed by
   * " F8000" when it sets the feed rate, and read back as a move to Y = y.
   */
  predicate PositionsAt(l: Line, y: int, feed: bool)
  {
    MovesTo(l, y) && Render(l) == "G1 Y" + IntToString(y) + (if feed then " F8000" else "")
  }

  lemma MoveLineReads(l: Line, y: int, feed: bool)
    requires l == MoveY(y, feed)
    ensures PositionsAt(l, y, feed)
  {
    YLineReads(y, feed);
    YLineText(y, feed);
  }

  /** A valve line reads back as its values. */
  lemma ValvesLineReads(l: Line, vs: seq<bv8>)
    requires l == Valves(vs)
    ensures ReadValues(Render(l)) == Some(AsNats(vs))
  {
    ValuesRoundTrip(vs);
  }

  /** Two lists of byte values of equal length, as the two passes write for one row. */
  predicate Decodable(front: seq<nat>, back: seq<nat>)
  {
    |front| == |back| &&
    (forall i :: 0 <= i < |front| ==> front[i] < 256) &&
    (forall i :: 0 <= i < |back| ==> back[i] < 256)
  }

  /**
   * The row a pair of valve lines was written from: the values of both passes
   * bit-reversed back, then the even and odd nozzles interleaved again.
   */
  function DecodeRow(front: seq<nat>, back: seq<nat>): seq<bv8>
    requires Decodable(front, back)
  {
    var vals := front + back;
    Interleave(seq(|vals|, i requires 0 <= i < |vals| => ReverseByte(vals[i] as bv8)))
  }

  /** The two passes' values of a row determine the row. */
  lemma DecodeValues(row: seq<bv8>)
    requires |row| % 2 == 0
    ensures var d := Deinterleave(row);
      Decodable(AsNats(FrontValues(d)), AsNats(BackValues(d))) &&
      DecodeRow(AsNats(FrontValues(d)), AsNats(BackValues(d))) == row
  {
    var d := Deinterleave(row);
    var vals := AsNats(FrontValues(d)) + AsNats(BackValues(d));
    var bytes := seq(|vals|, i requires 0 <= i < |vals| && vals[i] < 256 => ReverseByte(vals[i] as bv8));
    forall i | 0 <= i < |d| ensures bytes[i] == d[i] {
      ValueReverses(d, i);
    }
    assert bytes == d;
    InterleaveDeinterleave(row);
  }

  /** Each value of either pass, bit-reversed back, is the byte of the separated row it came from. */
  lemma ValueReverses(d: seq<bv8>, i: nat)
    requires i < |d|
    ensures var vals := AsNats(FrontValues(d)) + AsNats(BackValues(d));
      i < |vals| && vals[i] < 256 && ReverseByte(vals[i] as bv8) == d[i]
  {
    var f := FrontValues(d);
    var b := BackValues(d);
    if i < |d| / 2 {
      assert (AsNats(f) + AsNats(b))[i] == f[i] as nat;
    } else {
      assert (AsNats(f) + AsNats(b))[i] == b[i - |d| / 2] as nat;
    }
    ReverseInvolution(d[i]);
  }

  /**
   * In a layer of `R` rows, the valve line of row `r` on the way out and the
   * one on the way back read as values that decode to `row`.
   */
  predicate RowReadsBack(ls: seq<Line>, R: nat, r: nat, row: seq<bv8>)
    requires r < R && |ls| == 15 + 4 * R
  {
    var front := ReadValues(Render(ls[8 + 2 * r]));
    var back := ReadValues(Render(ls[11 + 4 * R - 2 * r]));
    front.Some? && back.Some? && Decodable(front.value, back.value) &&
    DecodeRow(front.value, back.value) == row
  }

  /**
   * Reading back the two valve lines of row `r`, one from each pass, gives
   * the row of the spray pattern again: no nozzle is lost or moved.
   */
  lemma GenerateRecoversRow(sp: SprayPattern, layerNr: U16, yStart: U16, r: nat)
    requires AllEven(sp.rows) && r < |sp.rows|
    ensures GenerateLines(sp, layerNr, yStart).Success?
    ensures var ls := GenerateLines(sp, layerNr, yStart).value;
      |ls| == 15 + 4 * |sp.rows| && RowReadsBack(ls, |sp.rows|, r, sp.rows[r])
  {
    var d := Deinterleave(sp.rows[r]);
    var R := |sp.rows|;
    GenerateForwardRow(sp, layerNr, yStart, r);
    GenerateReturnRow(sp, layerNr, yStart, r);
    var ls := GenerateLines(sp, layerNr, yStart).value;
    ValvesLineReads(ls[8 + 2 * r], FrontValues(d));
    ValvesLineReads(ls[11 + 4 * R - 2 * r], BackValues(d));
    DecodeValues(sp.rows[r]);
  }

  /** Every byte bit-reversed, in place. */
  function ReverseAll(d: seq<bv8>): (r: seq<bv8>)
    ensures |r| == |d|
  {
    seq(|d|, i requires 0 <= i < |d| => ReverseByte(d[i]))
  }

  lemma {:induction false} ReverseAllPopCount(d: seq<bv8>)
    ensures RowPopCount(ReverseAll(d)) == RowPopCount(d)
    decreases |d|
  {
    if d != [] {
      assert ReverseAll(d)[1..] == ReverseAll(d[1..]);
      ReversePopCount(d[0]);
      ReverseAllPopCount(d[1..]);
    }
  }

  /**
   * The two valve lines of a row open as many valves, counted over both
   * passes, as the row has bits set: no nozzle is dropped or duplicated.
   */
  lemma ValvesPopCount(row: seq<bv8>)
    requires |row| % 2 == 0
    ensures var d := Deinterleave(row);
      RowPopCount(FrontValues(d)) + RowPopCount(BackValues(d)) == RowPopCount(row)
  {
    SplitPopCount(Deinterleave(row));
    DeinterleavePopCount(row);
  }

  /** The two halves of a separated row, bit-reversed, keep its bit count. */
  lemma SplitPopCount(d: seq<bv8>)
    ensures RowPopCount(FrontValues(d)) + RowPopCount(BackValues(d)) == RowPopCount(d)
  {
    var f, b := FrontValues(d), BackValues(d);
    assert f + b == ReverseAll(d) by {
      forall i | 0 <= i < |d| ensures (f + b)[i] == ReverseAll(d)[i] {
        if i < |f| { assert (f + b)[i] == f[i]; } else { assert (f + b)[i] == b[i - |f|]; }
      }
    }
    RowPopCountConcat(f, b);
    ReverseAllPopCount(d);
  }

  /** A line `get_g_move` reads as a move to Y = y that does not extrude. */
  predicate MovesTo(l: Line, y: int)
  {
    GetGMove(Render(l)) == Success(Move(0.0, y as real, 0.0, 0.0))
  }

  /**
   * Read back, the positioning lines of row `r` move the head to `yStart + r`
   * on the way out and to `yStart + r + 1` on the way back; only the first
   * row's line carries the feed rate.
   */
  lemma GenerateRowPositions(sp: SprayPattern, layerNr: U16, yStart: U16, r: nat)
    requires AllEven(sp.rows) && r < |sp.rows|
    ensures GenerateLines(sp, layerNr, yStart).Success?
    ensures var ls := GenerateLines(sp, layerNr, yStart).value; var R := |sp.rows|;
      |ls| == 15 + 4 * R &&
      PositionsAt(ls[7 + 2 * r], yStart as int + r, r == 0) &&
      PositionsAt(ls[10 + 4 * R - 2 * r], yStart as int + r + 1, false)
  {
    GenerateForwardRow(sp, layerNr, yStart, r);
    GenerateReturnRow(sp, layerNr, yStart, r);
    RowPositions(GenerateLines(sp, layerNr, yStart).value, |sp.rows|, yStart as int, r);
  }

  lemma RowPositions(ls: seq<Line>, R: nat, y0: int, r: nat)
    requires r < R && |ls| == 15 + 4 * R
    requires ls[7 + 2 * r] == MoveY(y0 + r, r == 0) && ls[10 + 4 * R - 2 * r] == MoveY(y0 + r + 1, false)
    ensures PositionsAt(ls[7 + 2 * r], y0 + r, r == 0) && PositionsAt(ls[10 + 4 * R - 2 * r], y0 + r + 1, false)
  {
    MoveLineReads(ls[7 + 2 * r], y0 + r, r == 0);
    MoveLineReads(ls[10 + 4 * R - 2 * r], y0 + r + 1, false);
  }

  /** The text opens with the comment line of layer `n`. */
  predicate OpensLayer(text: string, n: nat)
  {
    StartsWith(text, LayerCommentPrefix + NatToString(n) + "\n")
  }

  /** A layer's text opens with its one-based number on a comment line of its own. */
  lemma GenerateOpensLayer(sp: SprayPattern, layerNr: U16, yStart: U16, bedLength: U16)
    requires AllEven(sp.rows)
    ensures Generate(sp, layerNr, yStart, bedLength).Success?
    ensures OpensLayer(Generate(sp, layerNr, yStart, bedLength).value, layerNr as int + 1)
  {
    GenerateFrame(sp, layerNr, yStart);
    var ls := GenerateLines(sp, layerNr, yStart).value;
    assert ls[0] == ls[..7][0] == LayerComment(layerNr as int + 1);
    var rs := seq(|ls|, i requires 0 <= i < |ls| => Render(ls[i]));
    assert rs[0] == LayerCommentPrefix + NatToString(layerNr as int + 1);
    TerminatedStarts(rs, '\n');
  }

  /** No rendered line holds a newline, so each is one line of the generated text. */
  lemma RenderNoNewline(l: Line)
    ensures '\n' !in Render(l)
  {
    match l
    case MoveY(y, feed) => YLineNoNewline(y, feed);
    case Valves(vs) => ValuesLineNoNewline(vs);
    case ZeroValves(n) => ZeroValvesNoNewline(n);
    case LayerComment(n) => PrefixedNoNewline(LayerCommentPrefix, n);
    case LayerStats(n) => PrefixedNoNewline(LayerStatsPrefix, n);
    case Fixed(c) => CommandNoNewline(c);
  }

  lemma YLineNoNewline(y: int, feed: bool)
    ensures '\n' !in YLine(y, feed)
  {
    YLineText(y, feed);
    IntTextHasNo(y, '\n');
    var tail := if feed then " F8000" else "";
    assert '\n' !in "G1 Y" && '\n' !in tail;
    NoneIn3("G1 Y", IntToString(y), tail, '\n');
  }

  /** A character absent from three texts is absent from their concatenation. */
  lemma NoneIn3(a: string, b: string, d: string, c: char)
    requires c !in a && c !in b && c !in d
    ensures c !in a + b + d
  {
  }

  lemma PrefixedNoNewline(prefix: string, n: int)
    requires '\n' !in prefix
    ensures '\n' !in prefix + IntToString(n)
  {
    IntTextHasNo(n, '\n');
    NoneIn3(prefix, IntToString(n), "", '\n');
    assert prefix + IntToString(n) + "" == prefix + IntToString(n);
  }

  lemma ZeroValvesNoNewline(n: nat)
    ensures '\n' !in DropLast(ValuesPrefix + Repeat(ZeroGroup, n))
  {
    RepeatHasNo(ZeroGroup, n, '\n');
    var t := ValuesPrefix + Repeat(ZeroGroup, n);
    NoneIn3(ValuesPrefix, Repeat(ZeroGroup, n), "", '\n');
    assert t + "" == t;
    assert forall i :: 0 <= i < |t| - 1 ==> DropLast(t)[i] == t[i];
  }

  lemma CommandNoNewline(c: Command)
    ensures '\n' !in CommandText(c)
  {
  }

  lemma ValuesLineNoNewline(vs: seq<bv8>)
    ensures '\n' !in ValuesLine(vs)
  {
    if |vs| > 0 {
      var ts := ValueTexts(vs);
      assert NoneContains(ts, '\n') by {
        forall i | 0 <= i < |ts| ensures '\n' !in ts[i] {
          DigitsHaveNo(ts[i], '\n');
        }
      }
      JoinHasNo(ts, ',', '\n');
    }
  }

  lemma {:induction false} RepeatHasNo(t: string, n: nat, c: char)
    requires c !in t
    ensures c !in Repeat(t, n)
  {
    if n > 0 {
      RepeatHasNo(t, n - 1, c);
    }
  }

  /**
   * Split at its newlines, the generated text is the rendered lines in
   * order, with the empty piece after the final newline.
   */
  lemma GenerateText(sp: SprayPattern, layerNr: U16, yStart: U16, bedLength: U16)
    requires AllEven(sp.rows)
    ensures Generate(sp, layerNr, yStart, bedLength).Success? && GenerateLines(sp, layerNr, yStart).Success?
    ensures var ls := GenerateLines(sp, layerNr, yStart).value;
      SplitOn(Generate(sp, layerNr, yStart, bedLength).value, '\n') ==
      seq(|ls|, i requires 0 <= i < |ls| => Render(ls[i])) + [""]
  {
    ForwardPassFails(sp.rows, yStart as int, 0);
    var ls := GenerateLines(sp, layerNr, yStart).value;
    RenderedLines(ls);
  }

  lemma RenderedLines(ls: seq<Line>)
    ensures SplitOn(RenderAll(ls), '\n') == seq(|ls|, i requires 0 <= i < |ls| => Render(ls[i])) + [""]
  {
    var rs := seq(|ls|, i requires 0 <= i < |ls| => Render(ls[i]));
    assert NoneContains(rs, '\n') by {
      forall i | 0 <= i < |rs| ensures '\n' !in rs[i] {
        RenderNoNewline(ls[i]);
      }
    }
    SplitTerminated(rs, '\n');
  }

  /** The start of every line that drives the valves. */
  const ValvesWord: string := "VALVES_SET"

  /** The line's text drives the valves. */
  predicate SetsValves(l: Line)
  {
    StartsWith(Render(l), ValvesWord)
  }

  /** A valve line, a zero override or the idle line. */
  predicate DrivesValves(l: Line)
  {
    l.Valves? || l.ZeroValves? || l == Fixed(CloseValves)
  }

  /** The kinds of line whose text starts with `VALVES_SET`. */
  lemma SetsValvesKinds(l: Line)
    ensures SetsValves(l) <==> DrivesValves(l)
  {
    var t := Render(l);
    match l
    case MoveY(y, feed) =>
      assert t == "G1" + WordsText(YWords(y, feed));
      assert t[0] != ValvesWord[0];
    case Valves(vs) =>
      assert t[..10] == ValvesWord;
    case ZeroValves(n) =>
      assert t[..10] == (ValuesPrefix + Repeat(ZeroGroup, n))[..10];
    case LayerComment(n) =>
      assert t[0] != ValvesWord[0];
    case LayerStats(n) =>
      assert t[0] != ValvesWord[0];
    case Fixed(c) =>
      if c == CloseValves {
        assert t[..10] == ValvesWord;
      } else {
        assert t[0] != ValvesWord[0];
      }
  }

  /** The number of lines whose text starts with `VALVES_SET`. */
  function ValveTextCount(ls: seq<Line>): nat
    decreases |ls|
  {
    if ls == [] then 0 else (if SetsValves(ls[0]) then 1 else 0) + ValveTextCount(ls[1..])
  }

  /** The number of lines of the kinds that drive the valves. */
  function ValveLineCount(ls: seq<Line>): nat
    decreases |ls|
  {
    if ls == [] then 0 else (if DrivesValves(ls[0]) then 1 else 0) + ValveLineCount(ls[1..])
  }

  lemma {:induction false} CountsAgree(ls: seq<Line>)
    ensures ValveTextCount(ls) == ValveLineCount(ls)
    decreases |ls|
  {
    if ls != [] {
      SetsValvesKinds(ls[0]);
      CountsAgree(ls[1..]);
    }
  }

  lemma {:induction false} ValveLineCountConcat(a: seq<Line>, b: seq<Line>)
    ensures ValveLineCount(a + b) == ValveLineCount(a) + ValveLineCount(b)
    decreases |a|
  {
    if a != [] {
      assert (a + b)[1..] == a[1..] + b;
      ValveLineCountConcat(a[1..], b);
    } else {
      assert a + b == b;
    }
  }

  /** Counting a line in front of others. */
  lemma ValveLineCountCons(l: Line, rest: seq<Line>)
    ensures ValveLineCount([l] + rest) == (if DrivesValves(l) then 1 else 0) + ValveLineCount(rest)
  {
    assert ([l] + rest)[1..] == rest;
  }

  /** The header drives no valve; the turn and the layer end close them once each. */
  lemma FixedPartsCount(layerIdx: int, y: int, yEnd: int)
    ensures ValveLineCount(LayerBeginLines(layerIdx)) == 0
    ensures ValveLineCount(LayerReturnLines(y)) == 1
    ensures ValveLineCount(LayerEndLines(yEnd)) == 1
  {
    LayerBeginCount(layerIdx);
    LayerReturnCount(y);
    LayerEndCount(yEnd);
  }

  lemma LayerBeginCount(layerIdx: int)
    ensures ValveLineCount(LayerBeginLines(layerIdx)) == 0
  {
    var a := LayerBeginLines(layerIdx);
    var t: seq<Line> := [];
    var k := 7;
    while k > 0
      invariant 0 <= k <= 7 && t == a[k..] && ValveLineCount(t) == 0
    {
      k := k - 1;
      assert a[k..] == [a[k]] + t;
      ValveLineCountCons(a[k], t);
      t := a[k..];
    }
  }

  lemma LayerReturnCount(y: int)
    ensures ValveLineCount(LayerReturnLines(y)) == 1
  {
    var b := LayerReturnLines(y);
    var t: seq<Line> := [];
    ValveLineCountCons(b[4], t);
    ValveLineCountCons(b[3], [b[4]]);
    ValveLineCountCons(b[2], [b[3], b[4]]);
    ValveLineCountCons(b[1], [b[2], b[3], b[4]]);
    ValveLineCountCons(b[0], [b[1], b[2], b[3], b[4]]);
    assert b == [b[0]] + [b[1], b[2], b[3], b[4]];
  }

  lemma LayerEndCount(yEnd: int)
    ensures ValveLineCount(LayerEndLines(yEnd)) == 1
  {
    var c := LayerEndLines(yEnd);
    ValveLineCountCons(c[2], []);
    ValveLineCountCons(c[1], [c[2]]);
    ValveLineCountCons(c[0], [c[1], c[2]]);
    assert c == [c[0]] + [c[1], c[2]];
  }

  /** The forward pass drives the valves once per row. */
  lemma {:induction false} ForwardPassCount(rows: seq<seq<bv8>>, yStart: int, i: nat)
    requires i <= |rows| && ForwardPass(rows, yStart, i).Success?
    ensures ValveLineCount(ForwardPass(rows, yStart, i).value) == |rows| - i
    decreases |rows| - i
  {
    if i < |rows| {
      var y := yStart + i;
      var head := [MoveY(y, y == yStart), Valves(FrontValues(Deinterleave(rows[i])))];
      var rest := ForwardPass(rows, yStart, i + 1).value;
      ForwardPassCount(rows, yStart, i + 1);
      assert head[1..][1..] == [];
      ValveLineCountConcat(head, rest);
    }
  }

  /** The return pass drives the valves once per row. */
  lemma {:induction false} ReturnPassCount(ds: seq<seq<bv8>>, y: int)
    ensures ValveLineCount(ReturnPass(ds, y)) == |ds|
    decreases |ds|
  {
    if ds != [] {
      var head := [MoveY(y - 1, false), ReturnValues(ds[|ds| - 1], y - 1)];
      ReturnPassCount(ds[..|ds| - 1], y - 1);
      assert head[1..][1..] == [];
      ValveLineCountConcat(head, ReturnPass(ds[..|ds| - 1], y - 1));
    }
  }

  /**
   * A layer has `2R + 2` lines that drive the valves: one per row and pass,
   * the idle line of the turn and the idle line of the layer end.
   */
  lemma GenerateValveLines(sp: SprayPattern, layerNr: U16, yStart: U16)
    requires AllEven(sp.rows)
    ensures GenerateLines(sp, layerNr, yStart).Success?
    ensures ValveLineCount(GenerateLines(sp, layerNr, yStart).value) == 2 * |sp.rows| + 2
  {
    var R := |sp.rows|;
    GenerateParts(sp, layerNr, yStart);
    var y := yStart as int + R;
    var a := LayerBeginLines(layerNr as int);
    var b := ForwardPass(sp.rows, yStart as int, 0).value;
    var c := LayerReturnLines(y);
    var d := ReturnPass(Separated(sp.rows), y + 1);
    var e := LayerEndLines(y + 1 - R);
    ForwardPassCount(sp.rows, yStart as int, 0);
    ReturnPassCount(Separated(sp.rows), y + 1);
    FixedPartsCount(layerNr as int, y, y + 1 - R);
    FivePartsCount(a, b, c, d, e);
  }

  /** In the layer's text, `2R + 2` lines start with `VALVES_SET`. */
  lemma GenerateValveText(sp: SprayPattern, layerNr: U16, yStart: U16)
    requires AllEven(sp.rows)
    ensures GenerateLines(sp, layerNr, yStart).Success?
    ensures ValveTextCount(GenerateLines(sp, layerNr, yStart).value) == 2 * |sp.rows| + 2
  {
    GenerateValveLines(sp, layerNr, yStart);
    CountsAgree(GenerateLines(sp, layerNr, yStart).value);
  }

  lemma FivePartsCount(a: seq<Line>, b: seq<Line>, c: seq<Line>, d: seq<Line>, e: seq<Line>)
    ensures ValveLineCount(a + b + c + d + e) ==
      ValveLineCount(a) + ValveLineCount(b) + ValveLineCount(c) + ValveLineCount(d) + ValveLineCount(e)
  {
    ValveLineCountConcat(a + b + c + d, e);
    ValveLineCountConcat(a + b + c, d);
    ValveLineCountConcat(a + b, c);
    ValveLineCountConcat(a, b);
  }
}
