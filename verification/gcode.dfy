/**
 * `GCodeMove` and `get_g_move`: a `G0`/`G1` line read into an (X, Y, Z, E)
 * record the way `std::istringstream` reads it.
 */
module GCode {
  import opened Wrappers
  import opened Text
  import opened Num

  /** One parsed motion endpoint; the default move is all zeros. */
  datatype Move = Move(x: real, y: real, z: real, e: real)

  const ZeroMove: Move := Move(0.0, 0.0, 0.0, 0.0)

  /** The `tolerance` of `isExtrusionMove`. */
  const TOLERANCE: real := 0.00000001

  function Abs(r: real): (a: real)
    ensures a >= 0.0 && (a == r || a == -r)
  {
    if r < 0.0 then -r else r
  }

  /** `isExtrusionMove`: false exactly when `fabs(E) < 1e-8`. */
  function IsExtrusionMove(m: Move): (b: bool)
    ensures b <==> m.e <= -TOLERANCE || TOLERANCE <= m.e
  {
    !(Abs(m.e) < TOLERANCE)
  }

  /** The default `GCodeMove` does not extrude. */
  lemma ZeroMoveIsTravel()
    ensures !IsExtrusionMove(ZeroMove)
    ensures ZeroMove.x == ZeroMove.y == ZeroMove.z == ZeroMove.e == 0.0
  {
  }

  predicate IsFieldLetter(c: char) { c == 'X' || c == 'Y' || c == 'Z' || c == 'E' }

  /** The field a letter names. */
  function FieldValue(m: Move, c: char): real
    requires IsFieldLetter(c)
  {
    match c
    case 'X' => m.x
    case 'Y' => m.y
    case 'Z' => m.z
    case _ => m.e
  }

  /** `iss >> x` (or y, z, e) storing `v`: the named field changes and no other. */
  function SetField(m: Move, c: char, v: real): (r: Move)
    requires IsFieldLetter(c)
    ensures FieldValue(r, c) == v
    ensures forall d :: IsFieldLetter(d) && d != c ==> FieldValue(r, d) == FieldValue(m, d)
  {
    match c
    case 'X' => m.(x := v)
    case 'Y' => m.(y := v)
    case 'Z' => m.(z := v)
    case _ => m.(e := v)
  }

  /**
   * The outcome of `iss >> f` for a `float` f:
   * - `NumEnd`: only whitespace was left, the sentry fails and f is not written;
   * - `NumFail`: the characters taken do not form a number, f becomes 0;
   * - `NumOk`: f becomes `value` and reading resumes at `next`.
   * Both failures set the stream's failbit, which ends the caller's loop.
   */
  datatype NumScan = NumEnd | NumFail | NumOk(value: real, next: nat)

  /** The end of an optional '+' or '-' at `i`. */
  function SignEnd(s: string, i: nat): (j: nat)
    requires i <= |s|
    ensures j == i || (j == i + 1 && j <= |s|)
  {
    if i < |s| && (s[i] == '+' || s[i] == '-') then i + 1 else i
  }

  /** The digits before and after an optional '.', and where they end. */
  datatype Mantissa = Mantissa(whole: string, frac: string, end: nat)

  /** Digits, then at most one '.' and more digits. */
  function ScanMantissa(s: string, a: nat): (r: Mantissa)
    requires a <= |s|
    ensures a <= r.end <= |s|
  {
    var b := DigitsEnd(s, a);
    if b < |s| && s[b] == '.' then
      var c := DigitsEnd(s, b + 1);
      Mantissa(s[a..b], s[b + 1..c], c)
    else Mantissa(s[a..b], "", b)
  }

  /**
   * What follows the mantissa: no exponent marker (`ExpNone`), a marker with
   * no digit after its optional sign (`ExpBad`), or an exponent and its end.
   */
  datatype Exponent = ExpNone | ExpBad | ExpOk(value: int, end: nat)

  function ScanExponent(s: string, c: nat): (r: Exponent)
    requires c <= |s|
    ensures r.ExpNone? <==> c == |s| || (s[c] != 'e' && s[c] != 'E')
    ensures r.ExpOk? ==> c < r.end <= |s|
  {
    if c == |s| || (s[c] != 'e' && s[c] != 'E') then ExpNone
    else
      var d := SignEnd(s, c + 1);
      var f := DigitsEnd(s, d);
      if f == d then ExpBad
      else
        var v := DigitsValue(s[d..f]);
        ExpOk(if s[c + 1] == '-' then -(v as int) else v, f)
  }

  /**
   * A `float` extraction in the "C" locale, as libstdc++ `num_get` collects it:
   * whitespace is skipped, then an optional sign, digits, at most one '.', and
   * an exponent marker 'e' or 'E' only once a mantissa digit has been seen,
   * followed by an optional sign and digits. The collected text converts only
   * when it has a mantissa digit and, if it has an exponent marker, an exponent
   * digit. The value is exact: float rounding and overflow are not modelled.
   */
  function ScanFloat(s: string, i: nat): (r: NumScan)
    requires i <= |s|
    ensures r.NumOk? ==> i < r.next <= |s|
  {
    var j := SkipSpace(s, i);
    if j == |s| then NumEnd
    else
      var mt := ScanMantissa(s, SignEnd(s, j));
      if |mt.whole| + |mt.frac| == 0 then NumFail
      else
        DigitsValueConcat(mt.whole, mt.frac);
        var digits := DigitsValue(mt.whole + mt.frac);
        match ScanExponent(s, mt.end)
        case ExpBad => NumFail
        case ExpNone => NumOk(Signed(s[j] == '-', Scale(digits, 0 - |mt.frac|)), mt.end)
        case ExpOk(ex, f) => NumOk(Signed(s[j] == '-', Scale(digits, ex - |mt.frac|)), f)
  }

  /** The extraction leaves its float unwritten exactly when only whitespace remains. */
  lemma ScanFloatEnd(s: string, i: nat)
    requires i <= |s|
    ensures ScanFloat(s, i).NumEnd? <==> forall k :: i <= k < |s| ==> IsSpace(s[k])
  {
    var j := SkipSpace(s, i);
    if j < |s| {
      assert !IsSpace(s[j]);
    }
  }

  function Signed(neg: bool, v: real): real
  {
    if neg then -v else v
  }

  /**
   * The `while (iss >> ch)` loop of `get_g_move` from position `i`: whitespace
   * is skipped, a field letter reads a number into its field, every other
   * character is consumed on its own. `found` is `atLeastOneParameter`.
   */
  function ScanFields(s: string, i: nat, m: Move, found: bool): (Move, bool)
    requires i <= |s|
    decreases |s| - i
  {
    var j := SkipSpace(s, i);
    if j == |s| then (m, found)
    else if !IsFieldLetter(s[j]) then ScanFields(s, j + 1, m, found)
    else
      match ScanFloat(s, j + 1)
      case NumEnd => (m, true)
      case NumFail => (SetField(m, s[j], 0.0), true)
      case NumOk(v, k) => ScanFields(s, k, SetField(m, s[j], v), true)
  }

  /** Some X, Y, Z or E at or after position `i`. */
  predicate FieldAhead(s: string, i: nat)
  {
    exists k :: i <= k < |s| && IsFieldLetter(s[k])
  }

  /** The loop reports a parameter exactly when a field letter lies ahead. */
  lemma {:induction false} ScanFieldsFound(s: string, i: nat, m: Move, found: bool)
    requires i <= |s|
    ensures ScanFields(s, i, m, found).1 <==> found || FieldAhead(s, i)
    decreases |s| - i
  {
    var j := SkipSpace(s, i);
    if j == |s| {
      NoFieldAhead(s, i, j);
    } else if !IsFieldLetter(s[j]) {
      ScanFieldsFound(s, j + 1, m, found);
      assert forall k :: i <= k < j ==> IsSpace(s[k]);
      FieldAheadSkip(s, i, j + 1);
    } else {
      assert FieldAhead(s, i) by { assert i <= j < |s| && IsFieldLetter(s[j]); }
      var r := ScanFloat(s, j + 1);
      if r.NumOk? {
        ScanFieldsFound(s, r.next, SetField(m, s[j], r.value), true);
      }
    }
  }

  lemma NoFieldAhead(s: string, i: nat, j: nat)
    requires i <= j == |s| && forall k :: i <= k < j ==> IsSpace(s[k])
    ensures !FieldAhead(s, i)
  {
  }

  /** Skipping characters that are not field letters does not change what lies ahead. */
  lemma FieldAheadSkip(s: string, i: nat, j: nat)
    requires i <= j <= |s| && forall k :: i <= k < j ==> !IsFieldLetter(s[k])
    ensures FieldAhead(s, i) <==> FieldAhead(s, j)
  {
    if FieldAhead(s, i) {
      var k :| i <= k < |s| && IsFieldLetter(s[k]);
      assert j <= k;
    }
  }

  /** A letter that does not occur ahead keeps its field. */
  lemma {:induction false} ScanFieldsKeeps(s: string, i: nat, m: Move, found: bool, c: char)
    requires i <= |s| && IsFieldLetter(c)
    requires forall k :: i <= k < |s| ==> s[k] != c
    ensures FieldValue(ScanFields(s, i, m, found).0, c) == FieldValue(m, c)
    decreases |s| - i
  {
    var j := SkipSpace(s, i);
    if j < |s| {
      if !IsFieldLetter(s[j]) {
        assert ScanFields(s, i, m, found) == ScanFields(s, j + 1, m, found);
        ScanFieldsKeeps(s, j + 1, m, found, c);
      } else {
        assert s[j] != c;
        var r := ScanFloat(s, j + 1);
        match r
        case NumEnd =>
          assert ScanFields(s, i, m, found) == (m, true);
        case NumFail =>
          assert ScanFields(s, i, m, found) == (SetField(m, s[j], 0.0), true);
        case NumOk(v, k) =>
          assert ScanFields(s, i, m, found) == ScanFields(s, k, SetField(m, s[j], v), true);
          ScanFieldsKeeps(s, k, SetField(m, s[j], v), true, c);
      }
    }
  }

  /** The check of `line.substr(0, 2)` against "G0" and "G1". */
  predicate HasMovePrefix(line: string)
  {
    |line| >= 2 && (line[..2] == "G0" || line[..2] == "G1")
  }

  /** Some X, Y, Z or E after the command word. */
  predicate HasFieldLetter(line: string)
  {
    FieldAhead(line, TokenEnd(line, 0))
  }

  /**
   * `get_g_move`: the command word (read by `iss >> commandType`, so "G10" is
   * taken whole) is followed by the field loop; a missing letter leaves its
   * field 0 and a repeated one keeps its last value.
   */
  function GetGMove(line: string): (r: Result<Move, Error>)
    ensures r.Success? <==> HasMovePrefix(line) && HasFieldLetter(line)
    ensures r == Failure(NotAGMove) <==> !HasMovePrefix(line)
    ensures r == Failure(NoParameter) <==> HasMovePrefix(line) && !HasFieldLetter(line)
    ensures r.Success? ==> forall c :: IsFieldLetter(c) && c !in line ==> FieldValue(r.value, c) == 0.0
  {
    if !HasMovePrefix(line) then Failure(NotAGMove)
    else
      var t := TokenEnd(line, 0);
      ScanFieldsFound(line, t, ZeroMove, false);
      var (m, found) := ScanFields(line, t, ZeroMove, false);
      if !found then Failure(NoParameter)
      else
        assert forall c :: IsFieldLetter(c) && c !in line ==> FieldValue(m, c) == 0.0 by {
          forall c | IsFieldLetter(c) && c !in line ensures FieldValue(m, c) == 0.0 {
            ScanFieldsKeeps(line, t, ZeroMove, false, c);
          }
        }
        Success(m)
  }

  /** A line with no 'E' never yields an extruding move. */
  lemma NoEMeansTravel(line: string)
    requires 'E' !in line && GetGMove(line).Success?
    ensures !IsExtrusionMove(GetGMove(line).value)
  {
    assert FieldValue(GetGMove(line).value, 'E') == 0.0;
  }
}
