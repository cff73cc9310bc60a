/**
 * `PrintHead`: the geometry of the valve head, and the map from an X
 * coordinate to the valve that sprays there, addressed as a block (one byte
 * of a pattern row) and an offset (a bit of that byte).
 */
module Head {
  import opened Num

  /** Centre-to-centre valve distance, number of blocks, valves per block. */
  datatype PrintHead = PrintHead(spacing: real, blocks: U16, perBlock: U16)

  /** The head the plugin drives: 11 blocks of 8 valves, 5 mm apart. */
  const StandardHead: PrintHead := PrintHead(5.0, 11, 8)

  /** `nr_of_nozzles`: the product, narrowed to `uint16_t` on return. */
  function NrOfNozzles(h: PrintHead): (n: U16)
    ensures h.blocks * h.perBlock < U16_LIMIT ==> n == h.blocks * h.perBlock
    ensures (h.blocks * h.perBlock - n) % U16_LIMIT == 0
  {
    WrapU16(h.blocks * h.perBlock)
  }

  /** `printhead_size`: the width the valves cover. */
  function PrintheadSize(h: PrintHead): real
  {
    NrOfNozzles(h) as real * h.spacing
  }

  /** The index of the valve under `x`, as `static_cast<int>(x / spacing)` computes it. */
  function ValveIndex(h: PrintHead, x: real): int
    requires h.spacing != 0.0
  {
    Trunc(x / h.spacing)
  }

  /**
   * What `get_block_indices` demands: a non-zero spacing (the float quotient
   * is cast to `int`, undefined for an infinite or NaN value), a quotient
   * within `int`, and a non-zero divisor for the integer `/` and `%`.
   */
  predicate CanAddress(h: PrintHead, x: real)
  {
    h.spacing != 0.0 && h.perBlock > 0 && InInt32(ValveIndex(h, x))
  }

  /**
   * `get_block_indices`: block and offset of the valve under `x`, with C++
   * integer division, so that `block * perBlock + offset` is the valve index
   * and the offset carries the sign of the index.
   */
  function GetBlockIndices(h: PrintHead, x: real): (r: (int, int))
    requires CanAddress(h, x)
    ensures r.0 * h.perBlock + r.1 == ValveIndex(h, x)
    ensures ValveIndex(h, x) >= 0 ==> r.0 >= 0 && 0 <= r.1 < h.perBlock
    ensures ValveIndex(h, x) < 0 ==> r.0 <= 0 && -(h.perBlock as int) < r.1 <= 0
  {
    var v, d := ValveIndex(h, x), h.perBlock as int;
    TruncDivMod(v, d);
    (TruncDiv(v, d), TruncMod(v, d))
  }

  /** A non-negative coordinate with a positive spacing addresses a valve with a non-negative index. */
  lemma NonNegativeAddress(h: PrintHead, x: real)
    requires CanAddress(h, x) && h.spacing > 0.0 && x >= 0.0
    ensures GetBlockIndices(h, x).0 >= 0 && 0 <= GetBlockIndices(h, x).1 < h.perBlock
  {
    assert x / h.spacing >= 0.0;
  }

  /**
   * The address is the inverse of the valve layout: every coordinate in the
   * strip `[v * spacing, (v + 1) * spacing)` of valve `v = block * perBlock + offset`
   * is mapped to that block and offset.
   */
  lemma AddressOfValve(h: PrintHead, block: nat, offset: nat, x: real)
    requires h.spacing > 0.0 && 0 < h.perBlock && offset < h.perBlock
    requires InInt32(block * h.perBlock + offset)
    requires var v := (block * h.perBlock + offset) as real;
      v * h.spacing <= x < (v + 1.0) * h.spacing
    ensures CanAddress(h, x)
    ensures GetBlockIndices(h, x) == (block, offset)
  {
    var v := block * h.perBlock + offset;
    QuotientInStrip(v as real, h.spacing, x);
    assert ValveIndex(h, x) == v;
    var r := GetBlockIndices(h, x);
    UniqueDivision(r.0, r.1, block, offset, h.perBlock);
  }

  lemma QuotientInStrip(v: real, sp: real, x: real)
    requires sp > 0.0 && v >= 0.0 && v * sp <= x < (v + 1.0) * sp
    ensures v <= x / sp < v + 1.0
  {
    var q := x / sp;
    assert q * sp == x;
    ProductSign(q - v, sp);
    ProductSign(v + 1.0 - q, sp);
  }

  lemma UniqueDivision(q: int, r: int, q': int, r': int, d: int)
    requires d > 0 && 0 <= r < d && 0 <= r' < d && q >= 0 && q' >= 0
    requires q * d + r == q' * d + r'
    ensures q == q' && r == r'
  {
    if q < q' {
      MulAtLeast(q' - q, d);
    } else if q' < q {
      MulAtLeast(q - q', d);
    }
  }

  lemma MulAtLeast(a: int, d: int)
    requires a >= 1 && d > 0
    ensures a * d >= d
  {
  }

  lemma ProductSign(a: real, b: real)
    requires b > 0.0 && a * b >= 0.0
    ensures a >= 0.0
  {
  }

  /** The standard head: 88 valves over 440 mm, and the addresses of a few coordinates. */
  lemma StandardHeadExamples()
    ensures NrOfNozzles(StandardHead) == 88
    ensures PrintheadSize(StandardHead) == 440.0
    ensures GetBlockIndices(StandardHead, 0.0) == (0, 0)
    ensures GetBlockIndices(StandardHead, 30.0) == (0, 6)
    ensures GetBlockIndices(StandardHead, 860.0) == (21, 4)
  {
    AddressOfValve(StandardHead, 0, 0, 0.0);
    AddressOfValve(StandardHead, 0, 6, 30.0);
    AddressOfValve(StandardHead, 21, 4, 860.0);
  }
}
