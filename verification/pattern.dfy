/**
 * `SprayPattern`: a bitmap of rows (one per Y step) of bytes (one per block
 * and pass), into which vertical extrusion segments are painted valve by valve.
 */
module Pattern {
  import opened Wrappers
  import opened Num
  import opened Bits
  import opened Head
  import opened GCode

  /** The head, the row width in bytes, and the rows. */
  datatype SprayPattern = SprayPattern(head: PrintHead, width: nat, rows: seq<seq<bv8>>)

  /** Every row is `width` bytes long. */
  predicate WellShaped(p: SprayPattern)
  {
    forall n :: 0 <= n < |p.rows| ==> |p.rows[n]| == p.width
  }

  /** Same head, width and row lengths: the shape no painting changes. */
  predicate SameShape(p: SprayPattern, q: SprayPattern)
  {
    p.head == q.head && p.width == q.width && |p.rows| == |q.rows| &&
    forall n :: 0 <= n < |p.rows| ==> |p.rows[n]| == |q.rows[n]|
  }

  /** `std::ceil(v / 8.0)` for a non-negative integer `v`. */
  function CeilDiv8(v: nat): (c: nat)
    ensures 8 * c >= v && 8 * c < v + 8
  {
    (v + 7) / 8
  }

  /**
   * What the constructor demands: the `int` product of nozzles and passes,
   * and its rounded-up byte count, fit their types.
   */
  predicate CanCreate(ph: PrintHead, passes: U16)
  {
    CeilDiv8(NrOfNozzles(ph) * passes) < U16_LIMIT
  }

  /** The `SprayPattern` constructor: `ySize` rows of all-zero bytes. */
  function NewSprayPattern(ph: PrintHead, ySize: U16, passes: U16): (p: SprayPattern)
    requires CanCreate(ph, passes)
    ensures p.head == ph && |p.rows| == ySize && WellShaped(p)
    ensures 8 * p.width >= NrOfNozzles(ph) * passes > 8 * p.width - 8
    ensures forall n, k :: 0 <= n < |p.rows| && 0 <= k < |p.rows[n]| ==> p.rows[n][k] == 0
  {
    var w := CeilDiv8(NrOfNozzles(ph) * passes);
    SprayPattern(ph, w, seq(ySize, _ => seq(w, _ => 0)))
  }

  /** The standard head with two passes: 22 bytes a row, 11 per pass. */
  lemma StandardWidth(ySize: U16)
    ensures CanCreate(StandardHead, 2)
    ensures NewSprayPattern(StandardHead, ySize, 2).width == 22
  {
    StandardHeadExamples();
  }

  /** `get_y_index`: truncation toward zero, narrowed to `uint16_t`. */
  function GetYIndex(y: real): (i: U16)
    requires InInt32(Trunc(y))
    ensures 0.0 <= y < U16_LIMIT as real ==> i as real <= y < i as real + 1.0
    ensures (Trunc(y) - i) % U16_LIMIT == 0
  {
    WrapU16(Trunc(y))
  }

  /** The block and bit that `set_valves` writes for column `x`. */
  function Address(p: SprayPattern, x: U16): (int, int)
    requires CanAddress(p.head, x as real)
  {
    GetBlockIndices(p.head, x as real)
  }

  /**
   * What `set_valves` demands: an addressable column and, when the row range
   * is not empty, rows, block and bit inside the bitmap (nothing is checked).
   */
  predicate CanSetValves(p: SprayPattern, x: U16, yb: U16, ye: U16)
  {
    CanAddress(p.head, x as real) &&
    (yb < ye ==>
      var (blk, off) := Address(p, x);
      ye <= |p.rows| && 0 <= blk && 0 <= off < 8 &&
      forall n :: yb <= n < ye ==> blk < |p.rows[n]|)
  }

  /** `set_valves`: the valve of column `x` is switched on in rows `yb <= n < ye`. */
  function SetValves(p: SprayPattern, x: U16, yb: U16, ye: U16): (r: SprayPattern)
    requires CanSetValves(p, x, yb, ye)
    ensures SameShape(p, r)
  {
    var b, e := GetYIndex(yb as real), GetYIndex(ye as real);
    var (blk, off) := Address(p, x);
    var rows := seq(|p.rows|, n requires 0 <= n < |p.rows| =>
      if b <= n < e then p.rows[n][blk := SetBit(p.rows[n][blk], off, true)] else p.rows[n]);
    p.(rows := rows)
  }

  /** Whether bit `j` of byte `k` of row `n` is on. */
  predicate On(p: SprayPattern, n: nat, k: nat, j: nat)
    requires n < |p.rows| && k < |p.rows[n]| && j < 8
  {
    Bit(p.rows[n][k], j)
  }

  /**
   * The bits after `set_valves`: a bit is on when it was on before or it is
   * the valve's bit in a row of the half-open range. Nothing is cleared and
   * no other bit changes.
   */
  lemma SetValvesBit(p: SprayPattern, x: U16, yb: U16, ye: U16, n: nat, k: nat, j: nat)
    requires CanSetValves(p, x, yb, ye)
    requires n < |p.rows| && k < |p.rows[n]| && j < 8
    ensures var r := SetValves(p, x, yb, ye);
      n < |r.rows| && k < |r.rows[n]| &&
      (On(r, n, k, j) <==> On(p, n, k, j) || (yb <= n < ye && (k, j) == Address(p, x)))
  {
    var r := SetValves(p, x, yb, ye);
    var (blk, off) := Address(p, x);
    if yb <= n < ye {
      assert r.rows[n] == p.rows[n][blk := SetBit(p.rows[n][blk], off, true)];
      SetBitBits(p.rows[n][blk], off, true);
    } else {
      assert r.rows[n] == p.rows[n];
    }
  }

  lemma SetValvesBits(p: SprayPattern, x: U16, yb: U16, ye: U16)
    requires CanSetValves(p, x, yb, ye)
    ensures var r := SetValves(p, x, yb, ye);
      forall n, k, j :: 0 <= n < |p.rows| && 0 <= k < |p.rows[n]| && 0 <= j < 8 ==>
        (On(r, n, k, j) <==> On(p, n, k, j) || (yb <= n < ye && (k, j) == Address(p, x)))
  {
    forall n, k, j | 0 <= n < |p.rows| && 0 <= k < |p.rows[n]| && 0 <= j < 8 {
      SetValvesBit(p, x, yb, ye, n, k, j);
    }
  }

  /** Two patterns of the same shape with the same bits are the same pattern. */
  lemma SameBits(p: SprayPattern, q: SprayPattern)
    requires SameShape(p, q)
    requires forall n, k, j :: 0 <= n < |p.rows| && 0 <= k < |p.rows[n]| && 0 <= j < 8 ==>
      On(p, n, k, j) == On(q, n, k, j)
    ensures p == q
  {
    forall n | 0 <= n < |p.rows| ensures p.rows[n] == q.rows[n] {
      forall k | 0 <= k < |p.rows[n]| ensures p.rows[n][k] == q.rows[n][k] {
        forall j | 0 <= j < 8 ensures Bit(p.rows[n][k], j) == Bit(q.rows[n][k], j) {
          assert On(p, n, k, j) == On(q, n, k, j);
        }
        BitsDetermine(p.rows[n][k], q.rows[n][k]);
      }
    }
  }

  /** Whether `set_valves` may be called depends only on the shape. */
  lemma CanSetOnSameShape(p: SprayPattern, q: SprayPattern, x: U16, yb: U16, ye: U16)
    requires SameShape(p, q) && CanSetValves(p, x, yb, ye)
    ensures CanSetValves(q, x, yb, ye) && Address(q, x) == Address(p, x)
  {
  }

  /**
   * Painting is a union: two segments give the same bitmap in either order,
   * so the pattern depends on the set of segments and not on their order.
   */
  lemma SetValvesCommute(p: SprayPattern, x1: U16, b1: U16, e1: U16, x2: U16, b2: U16, e2: U16)
    requires CanSetValves(p, x1, b1, e1) && CanSetValves(p, x2, b2, e2)
    ensures CanSetValves(SetValves(p, x1, b1, e1), x2, b2, e2)
    ensures CanSetValves(SetValves(p, x2, b2, e2), x1, b1, e1)
    ensures SetValves(SetValves(p, x1, b1, e1), x2, b2, e2) == SetValves(SetValves(p, x2, b2, e2), x1, b1, e1)
  {
    var p1 := SetValves(p, x1, b1, e1);
    var p2 := SetValves(p, x2, b2, e2);
    CanSetOnSameShape(p, p1, x2, b2, e2);
    CanSetOnSameShape(p, p2, x1, b1, e1);
    var q1 := SetValves(p1, x2, b2, e2);
    var q2 := SetValves(p2, x1, b1, e1);
    forall n, k, j | 0 <= n < |q1.rows| && 0 <= k < |q1.rows[n]| && 0 <= j < 8
      ensures On(q1, n, k, j) == On(q2, n, k, j)
    {
      SetValvesBit(p, x1, b1, e1, n, k, j);
      SetValvesBit(p, x2, b2, e2, n, k, j);
      SetValvesBit(p1, x2, b2, e2, n, k, j);
      SetValvesBit(p2, x1, b1, e1, n, k, j);
    }
    SameBits(q1, q2);
  }

  /** Painting the same segment twice is painting it once. */
  lemma SetValvesIdempotent(p: SprayPattern, x: U16, yb: U16, ye: U16)
    requires CanSetValves(p, x, yb, ye)
    ensures CanSetValves(SetValves(p, x, yb, ye), x, yb, ye)
    ensures SetValves(SetValves(p, x, yb, ye), x, yb, ye) == SetValves(p, x, yb, ye)
  {
    var p1 := SetValves(p, x, yb, ye);
    CanSetOnSameShape(p, p1, x, yb, ye);
    var q := SetValves(p1, x, yb, ye);
    forall n, k, j | 0 <= n < |q.rows| && 0 <= k < |q.rows[n]| && 0 <= j < 8
      ensures On(q, n, k, j) == On(p1, n, k, j)
    {
      SetValvesBit(p, x, yb, ye, n, k, j);
      SetValvesBit(p1, x, yb, ye, n, k, j);
    }
    SameBits(q, p1);
  }

  /** The segment's endpoints ordered by Y: the lower first, `begin` first on a tie. */
  function SortByY(begin: Move, end: Move): (r: (Move, Move))
    ensures r.0.y <= r.1.y
    ensures (r.0, r.1) == (begin, end) || (r.0, r.1) == (end, begin)
  {
    if begin.y > end.y then (end, begin) else (begin, end)
  }

  /** Endpoints whose X values differ by more than the tolerance. */
  predicate NonVertical(begin: Move, end: Move)
  {
    Abs(begin.x - end.x) > TOLERANCE
  }

  /**
   * What `add_spray_line` demands of a vertical segment: the X of `begin` and
   * both Y values convert to `uint16_t`, and `set_valves` may be called.
   */
  predicate CanAddSprayLine(p: SprayPattern, begin: Move, end: Move)
  {
    NonVertical(begin, end) ||
    var (first, second) := SortByY(begin, end);
    FitsU16(begin.x) && FitsU16(first.y) && FitsU16(second.y) &&
    CanSetValves(p, Trunc(begin.x), Trunc(first.y), Trunc(second.y))
  }

  /**
   * `add_spray_line`: a segment whose X values differ by more than 1e-8 is
   * rejected; otherwise the valve under the first endpoint's X is switched on
   * from the lower Y row up to, not including, the higher one.
   */
  function AddSprayLine(p: SprayPattern, begin: Move, end: Move): (r: Result<SprayPattern, Error>)
    requires CanAddSprayLine(p, begin, end)
    ensures r.Failure? <==> NonVertical(begin, end)
    ensures r.Failure? ==> r.error == NonVerticalSegment
    ensures r.Success? ==> SameShape(p, r.value)
  {
    if NonVertical(begin, end) then Failure(NonVerticalSegment)
    else
      var (first, second) := SortByY(begin, end);
      Success(SetValves(p, Trunc(begin.x), Trunc(first.y), Trunc(second.y)))
  }

  /**
   * The bits after `add_spray_line` of a vertical segment: the valve under
   * `begin.x` is on exactly in rows `trunc(min y) <= n < trunc(max y)`, in
   * addition to what was on before.
   */
  lemma AddSprayLineBit(p: SprayPattern, begin: Move, end: Move, n: nat, k: nat, j: nat)
    requires CanAddSprayLine(p, begin, end) && !NonVertical(begin, end)
    requires n < |p.rows| && k < |p.rows[n]| && j < 8
    ensures CanAddress(p.head, Trunc(begin.x) as real)
    ensures var r := AddSprayLine(p, begin, end).value;
      n < |r.rows| && k < |r.rows[n]| &&
      (On(r, n, k, j) <==>
        On(p, n, k, j) ||
        (Trunc(Min(begin.y, end.y)) <= n < Trunc(Max(begin.y, end.y)) &&
         (k, j) == Address(p, Trunc(begin.x))))
  {
    var (first, second) := SortByY(begin, end);
    SetValvesBit(p, Trunc(begin.x), Trunc(first.y), Trunc(second.y), n, k, j);
  }

  function Min(a: real, b: real): real { if a <= b then a else b }
  function Max(a: real, b: real): real { if a <= b then b else a }

  /**
   * The endpoints' order does not matter when both X values name the same
   * column: the segment is sorted by Y before painting.
   */
  lemma AddSprayLineSymmetric(p: SprayPattern, begin: Move, end: Move)
    requires CanAddSprayLine(p, begin, end) && Trunc(begin.x) == Trunc(end.x)
    ensures CanAddSprayLine(p, end, begin)
    ensures AddSprayLine(p, begin, end) == AddSprayLine(p, end, begin)
  {
    assert NonVertical(begin, end) == NonVertical(end, begin);
  }

  /** Only the first endpoint's X is used: the second one's X matters only to the rejection test. */
  lemma AddSprayLineUsesBeginX(p: SprayPattern, begin: Move, end: Move, x: real)
    requires CanAddSprayLine(p, begin, end) && !NonVertical(begin, end)
    requires Abs(begin.x - x) <= TOLERANCE
    ensures CanAddSprayLine(p, begin, end.(x := x))
    ensures AddSprayLine(p, begin, end.(x := x)) == AddSprayLine(p, begin, end)
  {
  }

  /** A fresh pattern has every bit off. */
  lemma FreshIsEmpty(ph: PrintHead, ySize: U16, passes: U16, n: nat, k: nat, j: nat)
    requires CanCreate(ph, passes)
    requires var p := NewSprayPattern(ph, ySize, passes); n < |p.rows| && k < |p.rows[n]| && j < 8
    ensures !On(NewSprayPattern(ph, ySize, passes), n, k, j)
  {
    var p := NewSprayPattern(ph, ySize, passes);
    assert p.rows[n][k] == 0;
  }

  /**
   * A segment from (30, 30) to (30, 40) on a fresh 109-row pattern of the
   * standard head: valve 6 of block 0 is on in rows 30 to 39 and off in rows
   * 29 and 40, and its neighbours 5 and 7 stay off.
   */
  lemma PaintExample()
    ensures var p := NewSprayPattern(StandardHead, 109, 2);
      CanAddSprayLine(p, Move(30.0, 30.0, 0.0, 1.0), Move(30.0, 40.0, 0.0, 1.0)) &&
      var r := AddSprayLine(p, Move(30.0, 30.0, 0.0, 1.0), Move(30.0, 40.0, 0.0, 1.0));
      r.Success? && |r.value.rows| == 109 && |r.value.rows[29]| == |r.value.rows[40]| == 22 &&
      On(r.value, 30, 0, 6) && On(r.value, 39, 0, 6) &&
      !On(r.value, 29, 0, 6) && !On(r.value, 40, 0, 6) &&
      !On(r.value, 30, 0, 5) && !On(r.value, 30, 0, 7)
  {
    var p := NewSprayPattern(StandardHead, 109, 2);
    var a, b := Move(30.0, 30.0, 0.0, 1.0), Move(30.0, 40.0, 0.0, 1.0);
    StandardWidth(109);
    StandardHeadExamples();
    assert Trunc(30.0) == 30 && Trunc(40.0) == 40;
    assert Address(p, 30) == (0, 6);
    assert CanAddSprayLine(p, a, b);
    AddSprayLineBit(p, a, b, 30, 0, 6);
    AddSprayLineBit(p, a, b, 39, 0, 6);
    AddSprayLineBit(p, a, b, 29, 0, 6);
    AddSprayLineBit(p, a, b, 40, 0, 6);
    AddSprayLineBit(p, a, b, 30, 0, 5);
    AddSprayLineBit(p, a, b, 30, 0, 7);
    FreshIsEmpty(StandardHead, 109, 2, 29, 0, 6);
    FreshIsEmpty(StandardHead, 109, 2, 40, 0, 6);
    FreshIsEmpty(StandardHead, 109, 2, 30, 0, 5);
    FreshIsEmpty(StandardHead, 109, 2, 30, 0, 7);
  }
}
