/**
 * `GCodeParser`: the two-state machine (no move yet / a previous move) that
 * feeds consecutive moves into the spray pattern as vertical segments.
 */
module Parser {
  import opened Wrappers
  import opened Num
  import opened Bits
  import opened Head
  import opened GCode
  import opened Pattern

  /** `first_move_processed`, `pattern` and `prev_move`. */
  datatype ParserState = ParserState(firstMoveProcessed: bool, pattern: SprayPattern, prevMove: Move)

  /** The number of passes the constructor derives: the bed width over the head width, truncated. */
  function Passes(ph: PrintHead, xBed: U16): real
    requires PrintheadSize(ph) != 0.0
  {
    xBed as real / PrintheadSize(ph)
  }

  /**
   * What the constructor demands: a head of non-zero width, a pass count
   * that converts to `uint16_t`, and a pattern width that fits.
   */
  predicate CanCreateParser(ph: PrintHead, xBed: U16)
  {
    PrintheadSize(ph) != 0.0 && FitsU16(Passes(ph, xBed)) && CanCreate(ph, Trunc(Passes(ph, xBed)))
  }

  /** The `GCodeParser` constructor: an empty pattern and no previous move. */
  function NewParser(ph: PrintHead, xBed: U16, yBed: U16): (st: ParserState)
    requires CanCreateParser(ph, xBed)
    ensures !st.firstMoveProcessed && st.prevMove == ZeroMove
    ensures st.pattern.head == ph && |st.pattern.rows| == yBed && WellShaped(st.pattern)
  {
    ParserState(false, NewSprayPattern(ph, yBed, Trunc(Passes(ph, xBed))), ZeroMove)
  }

  /** The configuration of the layer filter: the standard head on an 880 mm bed has two passes of 11 bytes. */
  lemma FilterParserShape(yBed: U16)
    ensures CanCreateParser(StandardHead, 880)
    ensures Trunc(Passes(StandardHead, 880)) == 2
    ensures NewParser(StandardHead, 880, yBed).pattern.width == 22
    ensures NewParser(StandardHead, 880, yBed).pattern == NewSprayPattern(StandardHead, yBed, 2)
  {
    StandardHeadExamples();
    assert Passes(StandardHead, 880) == 2.0;
    StandardWidth(yBed);
  }

  /** A line that parses to an extruding move while a previous move is held: a segment to paint. */
  predicate PaintsSegment(st: ParserState, line: string)
  {
    var g := GetGMove(line);
    g.Success? && IsExtrusionMove(g.value) && st.firstMoveProcessed
  }

  /** What `parse` demands: a segment it paints must be writable. */
  predicate CanParse(st: ParserState, line: string)
  {
    PaintsSegment(st, line) ==> CanAddSprayLine(st.pattern, st.prevMove, GetGMove(line).value)
  }

  /**
   * `parse`: a line `get_g_move` rejects is ignored; a move becomes the
   * previous move, after an extruding move has painted the segment from the
   * previous one. A non-vertical segment throws inside `add_spray_line`, and
   * the `catch` swallows it before the assignments, so the state is kept.
   */
  function Parse(st: ParserState, line: string): (r: ParserState)
    requires CanParse(st, line)
    ensures SameShape(st.pattern, r.pattern)
  {
    match GetGMove(line)
    case Failure(_) => st
    case Success(m) =>
      if IsExtrusionMove(m) && st.firstMoveProcessed then
        match AddSprayLine(st.pattern, st.prevMove, m)
        case Failure(_) => st
        case Success(p) => ParserState(true, p, m)
      else ParserState(true, st.pattern, m)
  }

  /** A line that is not a move changes nothing. */
  lemma ParseIgnoresNonMoves(st: ParserState, line: string)
    requires GetGMove(line).Failure?
    ensures CanParse(st, line) && Parse(st, line) == st
  {
  }

  /** A move that does not extrude only becomes the previous move. */
  lemma ParseTravel(st: ParserState, line: string)
    requires GetGMove(line).Success? && !IsExtrusionMove(GetGMove(line).value)
    ensures CanParse(st, line)
    ensures Parse(st, line) == st.(firstMoveProcessed := true, prevMove := GetGMove(line).value)
  {
  }

  /** The first move, extruding or not, paints nothing. */
  lemma ParseFirstMove(st: ParserState, line: string)
    requires GetGMove(line).Success? && !st.firstMoveProcessed
    ensures CanParse(st, line)
    ensures Parse(st, line) == ParserState(true, st.pattern, GetGMove(line).value)
  {
  }

  /** A non-vertical extruding segment is skipped, and the previous move is kept for the next line. */
  lemma ParseSkipsNonVertical(st: ParserState, line: string)
    requires PaintsSegment(st, line) && NonVertical(st.prevMove, GetGMove(line).value)
    ensures CanParse(st, line) && Parse(st, line) == st
  {
  }

  /**
   * The bits after `parse`: a painted segment switches on the valve under the
   * previous move's X from the lower to the higher Y row; nothing else changes.
   */
  lemma ParseBit(st: ParserState, line: string, n: nat, k: nat, j: nat)
    requires CanParse(st, line)
    requires n < |st.pattern.rows| && k < |st.pattern.rows[n]| && j < 8
    ensures var r := Parse(st, line);
      n < |r.pattern.rows| && k < |r.pattern.rows[n]| &&
      (On(r.pattern, n, k, j) <==>
        On(st.pattern, n, k, j) ||
        (PaintsSegment(st, line) && !NonVertical(st.prevMove, GetGMove(line).value) &&
         var m := GetGMove(line).value;
         CanAddress(st.pattern.head, Trunc(st.prevMove.x) as real) &&
         Trunc(Min(st.prevMove.y, m.y)) <= n < Trunc(Max(st.prevMove.y, m.y)) &&
         (k, j) == Address(st.pattern, Trunc(st.prevMove.x))))
  {
    if PaintsSegment(st, line) && !NonVertical(st.prevMove, GetGMove(line).value) {
      AddSprayLineBit(st.pattern, st.prevMove, GetGMove(line).value, n, k, j);
    }
  }

  /** Every line of a run may be parsed from the state the earlier lines leave. */
  predicate SafeRun(st: ParserState, lines: seq<string>)
    decreases |lines|
  {
    lines == [] || (CanParse(st, lines[0]) && SafeRun(Parse(st, lines[0]), lines[1..]))
  }

  /** `parse` applied to each line in turn. */
  function ParseAll(st: ParserState, lines: seq<string>): ParserState
    requires SafeRun(st, lines)
    decreases |lines|
  {
    if lines == [] then st else ParseAll(Parse(st, lines[0]), lines[1..])
  }

  /** Parsing keeps the pattern's shape and never switches a valve off. */
  lemma {:induction false} ParseAllGrows(st: ParserState, lines: seq<string>, n: nat, k: nat, j: nat)
    requires SafeRun(st, lines)
    requires n < |st.pattern.rows| && k < |st.pattern.rows[n]| && j < 8
    ensures var r := ParseAll(st, lines).pattern;
      SameShape(st.pattern, r) && (On(st.pattern, n, k, j) ==> On(r, n, k, j))
    decreases |lines|
  {
    if lines != [] {
      var s1 := Parse(st, lines[0]);
      ParseBit(st, lines[0], n, k, j);
      ParseAllGrows(s1, lines[1..], n, k, j);
    }
  }

  /** No line of the run paints a segment. */
  predicate NoSegments(st: ParserState, lines: seq<string>)
    requires SafeRun(st, lines)
    decreases |lines|
  {
    lines == [] || (!PaintsSegment(st, lines[0]) && NoSegments(Parse(st, lines[0]), lines[1..]))
  }

  /** A run that paints no segment leaves the pattern as it was. */
  lemma {:induction false} ParseAllWithoutSegments(st: ParserState, lines: seq<string>)
    requires SafeRun(st, lines) && NoSegments(st, lines)
    ensures ParseAll(st, lines).pattern == st.pattern
    decreases |lines|
  {
    if lines != [] {
      ParseAllWithoutSegments(Parse(st, lines[0]), lines[1..]);
    }
  }

  /** Lines that are not moves never paint, so a run of them changes nothing at all. */
  lemma {:induction false} ParseAllNonMoves(st: ParserState, lines: seq<string>)
    requires forall i :: 0 <= i < |lines| ==> GetGMove(lines[i]).Failure?
    ensures SafeRun(st, lines) && ParseAll(st, lines) == st
    decreases |lines|
  {
    if lines != [] {
      ParseAllNonMoves(st, lines[1..]);
    }
  }

  /** Parsing a run in two parts: the second part starts from the state the first leaves. */
  lemma {:induction false} ParseAllAppend(st: ParserState, a: seq<string>, b: seq<string>)
    ensures SafeRun(st, a + b) <==> SafeRun(st, a) && SafeRun(ParseAll(st, a), b)
    ensures SafeRun(st, a + b) ==> ParseAll(st, a + b) == ParseAll(ParseAll(st, a), b)
    decreases |a|
  {
    if a == [] {
      assert a + b == b;
    } else {
      assert (a + b)[0] == a[0] && (a + b)[1..] == a[1..] + b;
      if CanParse(st, a[0]) {
        ParseAllAppend(Parse(st, a[0]), a[1..], b);
      }
    }
  }

  /** Parsing never changes the head, the width or any row's length. */
  lemma {:induction false} ParseAllShape(st: ParserState, lines: seq<string>)
    requires SafeRun(st, lines)
    ensures SameShape(st.pattern, ParseAll(st, lines).pattern)
    decreases |lines|
  {
    if lines != [] {
      ParseAllShape(Parse(st, lines[0]), lines[1..]);
    }
  }
}
