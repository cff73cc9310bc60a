/**
 * The layer driver of the post-processing plugin: the `;LAYER:` marker, the
 * last layer of a print, `filterLines`, which turns one layer of sliced
 * G-code into the valve program, and `PrintManager`, the same composition
 * with the head, start position and bed length as parameters.
 */
module Plugin {
  import opened Wrappers
  import opened Num
  import opened Text
  import opened Head
  import opened GCode
  import opened Pattern
  import opened Parser
  import opened Emitter

  /** The text a marker line has before its first ':'. */
  const LayerKey: string := ";LAYER"
  const LayerMarker: string := ";LAYER:"
  const TimeMarker: string := ";TIME_ELAPSED:"

  /** What `get_layer_nr` returns for a marker with no number after it. */
  const NotANumber: int := -2
  /** What `get_layer_nr` returns for a line that is not a marker. */
  const NotAMarker: int := -3

  /** `std::getline(ss, prefix, ':')`: everything before the first ':', or the whole line. */
  function Prefix(line: string): (p: string)
    ensures ':' !in p && p <= line
    ensures ':' in line ==> |p| < |line| && line[|p|] == ':'
  {
    if ':' in line then line[..IndexOf(line, ':')] else line
  }

  /** What the stream still holds after that `getline`: the text after the first ':'. */
  function AfterPrefix(line: string): (rest: string)
    ensures ':' !in line ==> rest == []
  {
    if ':' in line then line[|Prefix(line)| + 1..] else ""
  }

  /**
   * `ss >> n` for an `int`: whitespace is skipped, then an optional sign and
   * at least one digit are read; a value outside 32 bits fails as well.
   */
  function ScanInt(s: string): (r: Option<int>)
    ensures r.Some? ==> InInt32(r.value) && |s| > 0
  {
    var j := SkipSpace(s, 0);
    var d := if j < |s| && (s[j] == '+' || s[j] == '-') then j + 1 else j;
    var e := DigitsEnd(s, d);
    if e == d then None
    else
      var v := DigitsValue(s[d..e]);
      var n := if d > j && s[j] == '-' then -(v as int) else v;
      if InInt32(n) then Some(n) else None
  }

  /**
   * `get_layer_nr`: the number after ";LAYER:", which may be negative;
   * `NotANumber` when none can be read, `NotAMarker` when the line does not
   * start with ";LAYER" up to its first ':'.
   */
  function GetLayerNr(line: string): (r: int)
    ensures InInt32(r)
    ensures Prefix(line) != LayerKey ==> r == NotAMarker
    ensures r >= 0 ==> StartsWith(line, LayerMarker)
  {
    if Prefix(line) != LayerKey then NotAMarker
    else
      match ScanInt(AfterPrefix(line))
      case None => NotANumber
      case Some(n) =>
        if n >= 0 then
          assert ':' in line;
          assert line[..|LayerMarker|] == Prefix(line) + [':'];
          n
        else n
  }

  /** After ";LAYER:" the number is whatever `ss >> n` reads from the rest of the line. */
  lemma LayerNrOfRest(rest: string)
    ensures GetLayerNr(LayerMarker + rest) == (match ScanInt(rest) case None => NotANumber case Some(n) => n)
  {
    var line := LayerMarker + rest;
    assert line[6] == ':' && ':' !in line[..6];
    IndexOfFirst(line, ':', 6);
    assert Prefix(line) == LayerKey;
    assert AfterPrefix(line) == rest;
  }

  /** The sign `>>` accepts before the digits: none, '+' or '-'. */
  predicate IsSignText(sign: string) { sign == "" || sign == "+" || sign == "-" }

  /** The value a sign and a digit string denote. */
  function SignedValue(sign: string, digits: string): int
  {
    if sign == "-" then -(DigitsValue(digits) as int) else DigitsValue(digits)
  }

  /**
   * `ss >> n` reads whitespace, an optional sign and a maximal run of digits:
   * it yields their value when that fits an `int`, and fails otherwise.
   */
  lemma ScanIntReads(sp: string, sign: string, digits: string, tail: string)
    requires forall i :: 0 <= i < |sp| ==> IsSpace(sp[i])
    requires IsSignText(sign) && digits != [] && AllDigits(digits)
    requires tail == [] || !IsDigit(tail[0])
    ensures ScanInt(sp + sign + digits + tail) ==
      (if InInt32(SignedValue(sign, digits)) then Some(SignedValue(sign, digits)) else None)
  {
    var s := sp + sign + digits + tail;
    var d := |sp| + |sign|;
    SkipSpaceAt(s, |sp|);
    assert s[d..d + |digits|] == digits;
    assert d + |digits| == |s| || s[d + |digits|] == tail[0];
    DigitsEndAt(s, d, |digits|);
    if sign != "" {
      assert s[|sp|] == sign[0];
    }
  }

  /** With no digit after the whitespace and the optional sign, `ss >> n` fails. */
  lemma ScanIntNoDigits(sp: string, sign: string, tail: string)
    requires forall i :: 0 <= i < |sp| ==> IsSpace(sp[i])
    requires IsSignText(sign)
    requires tail == [] || !IsDigit(tail[0])
    requires sign == "" && tail != [] ==> !IsSpace(tail[0]) && tail[0] != '+' && tail[0] != '-'
    ensures ScanInt(sp + sign + tail) == None
  {
    var s := sp + sign + tail;
    SkipSpaceAt(s, |sp|);
    if sign != "" {
      assert s[|sp|] == sign[0];
    }
    var d := |sp| + |sign|;
    assert d == |s| || s[d] == tail[0];
  }

  /**
   * A marker followed by whitespace, a sign and digits gives their value
   * when it fits an `int`, and -2 when it does not.
   */
  lemma LayerNrReads(sp: string, sign: string, digits: string, tail: string)
    requires forall i :: 0 <= i < |sp| ==> IsSpace(sp[i])
    requires IsSignText(sign) && digits != [] && AllDigits(digits)
    requires tail == [] || !IsDigit(tail[0])
    ensures GetLayerNr(LayerMarker + sp + sign + digits + tail) ==
      (if InInt32(SignedValue(sign, digits)) then SignedValue(sign, digits) else NotANumber)
  {
    var rest := sp + sign + digits + tail;
    assert LayerMarker + sp + sign + digits + tail == LayerMarker + rest;
    LayerNrOfRest(rest);
    ScanIntReads(sp, sign, digits, tail);
  }

  /** A marker followed by no digit after its whitespace and optional sign gives -2. */
  lemma LayerNrNoDigits(sp: string, sign: string, tail: string)
    requires forall i :: 0 <= i < |sp| ==> IsSpace(sp[i])
    requires IsSignText(sign)
    requires tail == [] || !IsDigit(tail[0])
    requires sign == "" && tail != [] ==> !IsSpace(tail[0]) && tail[0] != '+' && tail[0] != '-'
    ensures GetLayerNr(LayerMarker + sp + sign + tail) == NotANumber
  {
    var rest := sp + sign + tail;
    assert LayerMarker + sp + sign + tail == LayerMarker + rest;
    LayerNrOfRest(rest);
    ScanIntNoDigits(sp, sign, tail);
  }

  /** The marker Cura writes, ";LAYER:" and the number, is read back as that number. */
  lemma LayerNrRoundTrip(n: int, tail: string)
    requires InInt32(n)
    requires tail == [] || !IsDigit(tail[0])
    ensures GetLayerNr(LayerMarker + IntToString(n) + tail) == n
  {
    var num := IntToString(n);
    var line := LayerMarker + num + tail;
    assert line[6] == ':' && ':' !in line[..6];
    IndexOfFirst(line, ':', 6);
    assert Prefix(line) == LayerKey;
    var rest := num + tail;
    assert AfterPrefix(line) == rest;
    var digits := NatToString(if n < 0 then -n else n);
    var d := if n < 0 then 1 else 0;
    assert rest[d..d + |digits|] == digits;
    assert SkipSpace(rest, 0) == 0 by {
      assert !IsSpace(rest[0]);
    }
    DigitsEndAt(rest, d, |digits|);
  }

  /** A marker followed by no digit at all has no number. */
  lemma LayerNrMissing(tail: string)
    requires forall i :: 0 <= i < |tail| ==> !IsDigit(tail[i])
    ensures GetLayerNr(LayerMarker + tail) == NotANumber
  {
    var line := LayerMarker + tail;
    assert line[6] == ':' && ':' !in line[..6];
    IndexOfFirst(line, ':', 6);
    assert AfterPrefix(line) == tail;
    var j := SkipSpace(tail, 0);
    var d := if j < |tail| && (tail[j] == '+' || tail[j] == '-') then j + 1 else j;
    assert DigitsEnd(tail, d) == d;
  }

  /**
   * `get_last_layer`: the text from the last ";LAYER:" up to the first
   * ";TIME_ELAPSED:" after it, or "" when either is missing.
   */
  function GetLastLayer(input: string): (r: string)
    ensures r != [] ==> StartsWith(r, LayerMarker)
    ensures r != [] ==> forall j :: 0 < j ==> !OccursAt(r, LayerMarker, j)
    ensures forall j :: !OccursAt(r, TimeMarker, j)
  {
    match RFind(input, LayerMarker)
    case None => []
    case Some(lp) =>
      match Find(input, TimeMarker, lp)
      case None => []
      case Some(tp) =>
        var r := input[lp..tp];
        MarkersApart(input, lp, tp);
        SliceOccurrences(input, lp, tp, LayerMarker);
        SliceOccurrences(input, lp, tp, TimeMarker);
        assert OccursAt(input, LayerMarker, lp);
        assert r[..|LayerMarker|] == input[lp..lp + |LayerMarker|];
        r
  }

  /** An occurrence inside a slice is an occurrence in the whole text. */
  lemma SliceOccurrences(s: string, a: nat, b: nat, pat: string)
    requires a <= b <= |s|
    ensures forall j :: OccursAt(s[a..b], pat, j) ==> OccursAt(s, pat, a + j)
  {
    forall j | OccursAt(s[a..b], pat, j) ensures OccursAt(s, pat, a + j) {
      SliceOfSlice(s, a, b, j, j + |pat|);
    }
  }

  lemma SliceOfSlice(s: string, a: nat, b: nat, i: nat, e: nat)
    requires a <= b <= |s| && i <= e <= b - a
    ensures s[a..b][i..e] == s[a + i..a + e]
  {
    var x, y := s[a..b][i..e], s[a + i..a + e];
    forall q | 0 <= q < |x| ensures x[q] == y[q] {
    }
  }

  /** A time stamp cannot begin inside a layer marker: the two differ after their ';'. */
  lemma MarkersApart(s: string, lp: nat, tp: nat)
    requires OccursAt(s, LayerMarker, lp) && OccursAt(s, TimeMarker, tp) && lp <= tp
    ensures lp + |LayerMarker| <= tp
  {
    LayerMarkerChars(s, lp);
    TimeMarkerChars(s, tp);
  }

  lemma LayerMarkerChars(s: string, lp: nat)
    requires OccursAt(s, LayerMarker, lp)
    ensures s[lp] == ';' && s[lp + 1] == 'L' && s[lp + 2] == 'A' && s[lp + 3] == 'Y'
    ensures s[lp + 4] == 'E' && s[lp + 5] == 'R' && s[lp + 6] == ':'
  {
    var l := s[lp..lp + |LayerMarker|];
    assert l[0] == s[lp] && l[1] == s[lp + 1] && l[2] == s[lp + 2] && l[3] == s[lp + 3];
    assert l[4] == s[lp + 4] && l[5] == s[lp + 5] && l[6] == s[lp + 6];
  }

  lemma TimeMarkerChars(s: string, tp: nat)
    requires OccursAt(s, TimeMarker, tp)
    ensures s[tp] == ';' && s[tp + 1] == 'T'
  {
    var t := s[tp..tp + |TimeMarker|];
    assert t[0] == s[tp] && t[1] == s[tp + 1];
  }

  /**
   * Where the markers are known, `get_last_layer` extracts exactly the last
   * layer: its marker and body, up to the time stamp that follows it.
   */
  lemma GetLastLayerExtracts(pre: string, body: string, post: string)
    requires var s := pre + LayerMarker + body + TimeMarker + post;
      (forall j :: j > |pre| ==> !OccursAt(s, LayerMarker, j)) &&
      (forall j :: |pre| <= j < |pre| + |LayerMarker| + |body| ==> !OccursAt(s, TimeMarker, j))
    ensures GetLastLayer(pre + LayerMarker + body + TimeMarker + post) == LayerMarker + body
  {
    var s := pre + LayerMarker + body + TimeMarker + post;
    var lp := |pre|;
    var tp := |pre| + |LayerMarker| + |body|;
    assert s[lp..lp + |LayerMarker|] == LayerMarker;
    assert s[tp..tp + |TimeMarker|] == TimeMarker;
    RFindAt(s, LayerMarker, lp);
    FindAt(s, TimeMarker, lp, tp);
    assert s[lp..tp] == LayerMarker + body;
    GetLastLayerAt(s, lp, tp);
  }

  /**
   * `get_last_layer` is the text from the last ";LAYER:" up to the first
   * ";TIME_ELAPSED:" at or after it.
   */
  lemma GetLastLayerAt(s: string, lp: nat, tp: nat)
    requires OccursAt(s, LayerMarker, lp) && forall j :: lp < j ==> !OccursAt(s, LayerMarker, j)
    requires lp <= tp && OccursAt(s, TimeMarker, tp)
    requires forall j :: lp <= j < tp ==> !OccursAt(s, TimeMarker, j)
    ensures GetLastLayer(s) == s[lp..tp]
  {
    RFindAt(s, LayerMarker, lp);
    FindAt(s, TimeMarker, lp, tp);
  }

  /** A last ";LAYER:" with no ";TIME_ELAPSED:" at or after it gives "". */
  lemma GetLastLayerNoTime(s: string, lp: nat)
    requires OccursAt(s, LayerMarker, lp) && forall j :: lp < j ==> !OccursAt(s, LayerMarker, j)
    requires forall t :: lp <= t ==> !OccursAt(s, TimeMarker, t)
    ensures GetLastLayer(s) == []
  {
    RFindAt(s, LayerMarker, lp);
  }

  /** With no ";LAYER:" anywhere there is no last layer. */
  lemma GetLastLayerNone(input: string)
    requires forall j :: !OccursAt(input, LayerMarker, j)
    ensures GetLastLayer(input) == []
  {
  }

  /** The parser of the layer filter: the standard head, an 880 mm wide bed, 1400 rows. */
  function FilterParser(): (st: ParserState)
    ensures !st.firstMoveProcessed && st.prevMove == ZeroMove
    ensures |st.pattern.rows| == 1400 && st.pattern.width == 22 && WellShaped(st.pattern)
    ensures AllEven(st.pattern.rows)
  {
    FilterParserShape(1400);
    NewParser(StandardHead, 880, 1400)
  }

  /** The first line from `i` on that `get_layer_nr` reads as a number of 0 or more. */
  function FirstMarker(lines: seq<string>, i: nat): (r: Option<nat>)
    requires i <= |lines|
    ensures r.Some? ==> i <= r.value < |lines|
  {
    FirstWith(lines, i, GetLayerNr)
  }

  /** The first line from `i` on that `nr` reads as a number of 0 or more. */
  function FirstWith(lines: seq<string>, i: nat, nr: string -> int): (r: Option<nat>)
    requires i <= |lines|
    ensures r.Some? ==> i <= r.value < |lines|
    decreases |lines| - i
  {
    if i == |lines| then None
    else if nr(lines[i]) >= 0 then Some(i)
    else FirstWith(lines, i + 1, nr)
  }

  /** `FirstWith` finds the first such line from `i` on, and `None` means there is none. */
  lemma {:induction false} FirstWithSpec(lines: seq<string>, i: nat, nr: string -> int)
    requires i <= |lines|
    ensures var r := FirstWith(lines, i, nr);
      (r.Some? ==> nr(lines[r.value]) >= 0 && forall k :: i <= k < r.value ==> nr(lines[k]) < 0) &&
      (r.None? ==> forall k :: i <= k < |lines| ==> nr(lines[k]) < 0)
    decreases |lines| - i
  {
    if i < |lines| && nr(lines[i]) < 0 {
      FirstWithSpec(lines, i + 1, nr);
    }
  }

  /** The first marker is a marker, no line before it is one, and `None` means no line is. */
  lemma FirstMarkerSpec(lines: seq<string>)
    ensures var r := FirstMarker(lines, 0);
      (r.Some? ==> GetLayerNr(lines[r.value]) >= 0 && forall k :: 0 <= k < r.value ==> GetLayerNr(lines[k]) < 0) &&
      (r.None? ==> forall k :: 0 <= k < |lines| ==> GetLayerNr(lines[k]) < 0)
  {
    FirstWithSpec(lines, 0, GetLayerNr);
  }

  /** Every line after the first marker can be parsed, starting from `st0`. */
  predicate SafeAfterMarker(lines: seq<string>, st0: ParserState)
  {
    var m := FirstMarker(lines, 0);
    m.Some? ==> SafeRun(st0, lines[m.value + 1..])
  }

  /** What `filterLines` demands: every line after the marker can be parsed. */
  predicate CanFilter(lines: seq<string>)
  {
    SafeAfterMarker(lines, FilterParser())
  }

  /** Parsing keeps every row even when it starts so. */
  lemma RunKeepsEven(st0: ParserState, lines: seq<string>)
    requires SafeRun(st0, lines) && AllEven(st0.pattern.rows)
    ensures AllEven(ParseAll(st0, lines).pattern.rows)
  {
    var p := ParseAll(st0, lines).pattern;
    ParseAllShape(st0, lines);
    forall n | 0 <= n < |p.rows| ensures |p.rows[n]| % 2 == 0 {
      assert |p.rows[n]| == |st0.pattern.rows[n]|;
    }
  }

  /**
   * After `i` lines: the marker lies before line `i`, its number is
   * `layerNr`, and `st` is `st0` fed every line since the marker.
   */
  predicate ParsedAfterMarker(lines: seq<string>, i: nat, layerNr: int, st0: ParserState, st: ParserState)
    requires i <= |lines|
  {
    var m := FirstMarker(lines, 0);
    m.Some? && m.value < i && layerNr == GetLayerNr(lines[m.value]) &&
    SafeRun(st0, lines[m.value + 1..i]) && st == ParseAll(st0, lines[m.value + 1..i])
  }

  /**
   * The lines after the marker up to `i` parse safely, and the next line
   * parses from where they leave the parser.
   */
  lemma ParseNextLine(lines: seq<string>, st0: ParserState, k: nat, i: nat)
    requires k < i <= |lines| && SafeRun(st0, lines[k + 1..])
    ensures SafeRun(st0, lines[k + 1..i])
    ensures i < |lines| ==>
      CanParse(ParseAll(st0, lines[k + 1..i]), lines[i]) &&
      SafeRun(st0, lines[k + 1..i + 1]) &&
      ParseAll(st0, lines[k + 1..i + 1]) == Parse(ParseAll(st0, lines[k + 1..i]), lines[i])
  {
    var done := lines[k + 1..i];
    assert lines[k + 1..] == done + lines[i..];
    ParseAllAppend(st0, done, lines[i..]);
    if i < |lines| {
      ParseAllAppend(st0, done, [lines[i]]);
      assert lines[k + 1..i + 1] == done + [lines[i]];
    }
  }

  /** The first marker at line `i` starts the parsing from `st0`. */
  lemma MarkerFound(lines: seq<string>, st0: ParserState, i: nat)
    requires i < |lines| && FirstMarker(lines, 0) == FirstMarker(lines, i) && GetLayerNr(lines[i]) >= 0
    ensures ParsedAfterMarker(lines, i + 1, GetLayerNr(lines[i]), st0, st0)
  {
    assert FirstMarker(lines, 0) == Some(i);
    assert lines[i + 1..i + 1] == [];
  }

  /** A line that is not a marker does not change where the first marker lies. */
  lemma NoMarkerAt(lines: seq<string>, i: nat)
    requires i < |lines| && GetLayerNr(lines[i]) < 0
    ensures FirstMarker(lines, i) == FirstMarker(lines, i + 1)
  {
  }

  /** One more line after the marker goes to the parser. */
  lemma ParsedStep(lines: seq<string>, st0: ParserState, i: nat, layerNr: int, st: ParserState)
    requires i < |lines| && ParsedAfterMarker(lines, i, layerNr, st0, st) && SafeAfterMarker(lines, st0)
    ensures CanParse(st, lines[i]) && ParsedAfterMarker(lines, i + 1, layerNr, st0, Parse(st, lines[i]))
  {
    ParseNextLine(lines, st0, FirstMarker(lines, 0).value, i);
  }

  /** Once every line is read, the parser holds the pattern of all lines after the marker. */
  lemma AllParsed(lines: seq<string>, st0: ParserState, layerNr: int, st: ParserState)
    requires ParsedAfterMarker(lines, |lines|, layerNr, st0, st) && AllEven(st0.pattern.rows)
    ensures var k := FirstMarker(lines, 0).value;
      layerNr == GetLayerNr(lines[k]) && layerNr >= 0 &&
      SafeRun(st0, lines[k + 1..]) && st == ParseAll(st0, lines[k + 1..]) &&
      AllEven(st.pattern.rows)
  {
    var k := FirstMarker(lines, 0).value;
    FirstMarkerSpec(lines);
    RunToEnd(lines, k, st0, st);
  }

  /** The lines from `k + 1` up to the last are the lines after `k`. */
  lemma RunToEnd(lines: seq<string>, k: nat, st0: ParserState, st: ParserState)
    requires k < |lines| && AllEven(st0.pattern.rows)
    requires SafeRun(st0, lines[k + 1..|lines|]) && st == ParseAll(st0, lines[k + 1..|lines|])
    ensures SafeRun(st0, lines[k + 1..]) && st == ParseAll(st0, lines[k + 1..])
    ensures AllEven(st.pattern.rows)
  {
    assert lines[k + 1..|lines|] == lines[k + 1..];
    RunKeepsEven(st0, lines[k + 1..]);
  }

  /**
   * The result `filterLines` promises: "" when no line is a marker;
   * otherwise the generated text of the pattern parsed from the lines after
   * the first marker, for that marker's layer number from Y = 0, which opens
   * with the one-based layer comment.
   */
  predicate FilterProduces(lines: seq<string>, out: string)
    requires CanFilter(lines)
  {
    ProducesFrom(lines, FilterParser(), out)
  }

  /** `FilterProduces` for a parser that starts as `st0`. */
  predicate ProducesFrom(lines: seq<string>, st0: ParserState, out: string)
    requires SafeAfterMarker(lines, st0)
  {
    match FirstMarker(lines, 0)
    case None => out == []
    case Some(k) =>
      var p := ParseAll(st0, lines[k + 1..]).pattern;
      Generate(p, WrapU16(GetLayerNr(lines[k])), 0, 1400) == Success(out) &&
      OpensLayer(out, WrapU16(GetLayerNr(lines[k])) + 1) && out != []
  }

  /** The text generated once every line is read is what `filterLines` promises. */
  lemma OutputFrom(lines: seq<string>, st0: ParserState, layerNr: int, st: ParserState)
    requires SafeAfterMarker(lines, st0) && AllEven(st0.pattern.rows)
    requires ParsedAfterMarker(lines, |lines|, layerNr, st0, st)
    ensures AllEven(st.pattern.rows) && 0 <= layerNr
    ensures ProducesFrom(lines, st0, Generate(st.pattern, WrapU16(layerNr), 0, 1400).value)
  {
    AllParsed(lines, st0, layerNr, st);
    GenerateOpensLayer(st.pattern, WrapU16(layerNr), 0, 1400);
  }

  /**
   * `filterLines` over the lines of a layer: the lines up to and including
   * the first marker only go to `get_layer_nr`, every later line goes to the
   * parser, and the pattern is generated for that layer number from Y = 0.
   * Without a marker the result is empty.
   */
  method FilterLines(lines: seq<string>) returns (out: string)
    requires CanFilter(lines)
    ensures out == [] <==> FirstMarker(lines, 0).None?
    ensures FilterProduces(lines, out)
  {
    var layerNr, st := ScanLayer(lines, FilterParser());
    if layerNr >= 0 {
      OutputFrom(lines, FilterParser(), layerNr, st);
      out := Generate(st.pattern, WrapU16(layerNr), 0, 1400).value;
    } else {
      out := [];
    }
  }

  /**
   * The loop of `filterLines`: each line goes to `get_layer_nr` until one
   * yields a number of 0 or more, and from then on to the parser.
   */
  method ScanLayer(lines: seq<string>, st0: ParserState) returns (layerNr: int, st: ParserState)
    requires SafeAfterMarker(lines, st0)
    ensures layerNr < 0 <==> FirstMarker(lines, 0).None?
    ensures layerNr < 0 ==> st == st0
    ensures layerNr >= 0 ==> ParsedAfterMarker(lines, |lines|, layerNr, st0, st)
  {
    layerNr := -1;
    st := st0;
    var i := 0;
    while i < |lines|
      invariant 0 <= i <= |lines|
      invariant layerNr < 0 ==> st == st0 && FirstMarker(lines, 0) == FirstMarker(lines, i)
      invariant layerNr >= 0 ==> ParsedAfterMarker(lines, i, layerNr, st0, st)
    {
      if layerNr < 0 {
        layerNr := GetLayerNr(lines[i]);
        if layerNr >= 0 {
          MarkerFound(lines, st0, i);
        } else {
          NoMarkerAt(lines, i);
        }
      } else {
        ParsedStep(lines, st0, i, layerNr, st);
        st := Parse(st, lines[i]);
      }
      i := i + 1;
    }
  }

  /**
   * `PrintManager`: the head, the start position on the bed, the bed length
   * less the row the layer end needs, and the parser it feeds.
   */
  datatype PrintManager = PrintManager(head: PrintHead, yStartPos: int, bedLength: int, parser: ParserState)

  /**
   * What the constructor demands: a bed length whose decrement fits in an
   * `int`, and a parser the head can be created with; the head's width times
   * two goes to the parser as a `uint16_t`.
   */
  predicate CanManage(ph: PrintHead, bedLength: int)
  {
    InInt32(bedLength - 1) && FitsU16(PrintheadSize(ph) * 2.0) &&
    CanCreateParser(ph, Trunc(PrintheadSize(ph) * 2.0))
  }

  /** The `PrintManager` constructor: the parser's pattern has one row per Y step but the last. */
  function NewPrintManager(ph: PrintHead, yStartPos: int, bedLength: int): (pm: PrintManager)
    requires CanManage(ph, bedLength)
    ensures pm.head == ph && pm.yStartPos == yStartPos && pm.bedLength == bedLength - 1
    ensures pm.parser.pattern.head == ph && |pm.parser.pattern.rows| == WrapU16(bedLength - 1)
    ensures !pm.parser.firstMoveProcessed && WellShaped(pm.parser.pattern)
  {
    PrintManager(ph, yStartPos, bedLength - 1,
                 NewParser(ph, Trunc(PrintheadSize(ph) * 2.0), WrapU16(bedLength - 1)))
  }

  /** `PrintManager::parse`: one line into the parser. */
  function ManagerParse(pm: PrintManager, line: string): (r: PrintManager)
    requires CanParse(pm.parser, line)
    ensures r.head == pm.head && r.yStartPos == pm.yStartPos && r.bedLength == pm.bedLength
    ensures SameShape(pm.parser.pattern, r.parser.pattern)
  {
    pm.(parser := Parse(pm.parser, line))
  }

  /**
   * `PrintManager::generate`: the layer from the manager's start position;
   * both the start and the bed length are narrowed to `uint16_t`.
   */
  function ManagerGenerate(pm: PrintManager, layerNr: U16): (r: Result<string, Error>)
    ensures r.Failure? <==> !AllEven(pm.parser.pattern.rows)
  {
    Generate(pm.parser.pattern, layerNr, WrapU16(pm.yStartPos), WrapU16(pm.bedLength))
  }

  /**
   * The standard head on a manager: an 880 mm wide bed, so rows of 22
   * bytes, which generate for any run of parsed lines.
   */
  lemma StandardManager(yStartPos: int, bedLength: int, lines: seq<string>, layerNr: U16)
    requires InInt32(bedLength - 1)
    requires SafeRun(NewPrintManager(StandardHead, yStartPos, bedLength).parser, lines)
    ensures var pm := NewPrintManager(StandardHead, yStartPos, bedLength);
      pm.parser.pattern.width == 22 &&
      ManagerGenerate(pm.(parser := ParseAll(pm.parser, lines)), layerNr).Success?
  {
    StandardHeadExamples();
    FilterParserShape(WrapU16(bedLength - 1));
    assert PrintheadSize(StandardHead) * 2.0 == 880.0;
    var pm := NewPrintManager(StandardHead, yStartPos, bedLength);
    var p := ParseAll(pm.parser, lines).pattern;
    ParseAllShape(pm.parser, lines);
    forall n | 0 <= n < |p.rows| ensures |p.rows[n]| % 2 == 0 {
      assert |p.rows[n]| == |pm.parser.pattern.rows[n]| == 22;
    }
  }
}
