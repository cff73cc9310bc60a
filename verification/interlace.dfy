/**
 * `GCodeGenerator::interlace_and_separate`: the bit-pair deinterleave that
 * splits each pattern row into a forward-pass half and a return-pass half.
 * Bit pair t of input byte n (bits 2t and 2t+1) lands at bit 4*(n%2)+t of
 * output byte n/2 (the even bit) and of output byte n/2 + W/2 (the odd bit).
 */
module Interlace {
  import opened Bits
  import opened Wrappers

  /** Bits p, p+2, p+4, p+6 of `b`, packed into the low nibble. */
  function Pick(b: bv8, p: nat): bv8
    requires p < 2
  {
    var c := if p == 0 then b else b >> 1;
    (c & 1) | ((c >> 1) & 2) | ((c >> 2) & 4) | ((c >> 3) & 8)
  }

  /** Nibble `h` (0 = bits 0..3, 1 = bits 4..7) of `x`, as a value below 16. */
  function Nib(x: bv8, h: nat): bv8
    requires h < 2
  {
    if h == 0 then x & 0x0F else x >> 4
  }

  /** `x` with nibble `h` replaced by the low nibble of `v`. */
  function SetNib(x: bv8, h: nat, v: bv8): bv8
    requires h < 2
  {
    if h == 0 then (x & 0xF0) | (v & 0x0F) else (x & 0x0F) | (v << 4)
  }

  /** The byte whose low nibble is `lo` and whose high nibble is `hi`. */
  function Combine(lo: bv8, hi: bv8): bv8
  {
    (lo & 0x0F) | (hi << 4)
  }

  /** Output byte built from the input pair (lo, hi): bit b comes from bit 2(b%4)+p of lo (b < 4) or hi (b >= 4). */
  function Gather(lo: bv8, hi: bv8, p: nat): bv8
    requires p < 2
  {
    Combine(Pick(lo, p), Pick(hi, p))
  }

  lemma GatherBits(lo: bv8, hi: bv8, p: nat)
    requires p < 2
    ensures forall b :: 0 <= b < 4 ==> Bit(Gather(lo, hi, p), b) == Bit(lo, 2 * b + p)
    ensures forall b :: 4 <= b < 8 ==> Bit(Gather(lo, hi, p), b) == Bit(hi, 2 * (b - 4) + p)
  {
    if p == 0 {
      assert Gather(lo, hi, 0) == GatherEven(lo, hi);
    } else {
      assert Gather(lo, hi, 1) == GatherOdd(lo, hi);
    }
  }

  function GatherEven(lo: bv8, hi: bv8): bv8 { Combine(Pick(lo, 0), Pick(hi, 0)) }
  function GatherOdd(lo: bv8, hi: bv8): bv8 { Combine(Pick(lo, 1), Pick(hi, 1)) }

  /**
   * The row after `interlace_and_separate`: output byte k < W/2 gathers the even
   * bits of input bytes 2k and 2k+1, output byte k + W/2 their odd bits.
   */
  function Deinterleave(row: seq<bv8>): (r: seq<bv8>)
    requires |row| % 2 == 0
    ensures |r| == |row|
  {
    seq(|row|, k requires 0 <= k < |row| => DeinterleaveByte(row, k))
  }

  function DeinterleaveByte(row: seq<bv8>, k: nat): bv8
    requires |row| % 2 == 0 && k < |row|
  {
    var s := |row| / 2;
    if k < s then Gather(row[2 * k], row[2 * k + 1], 0)
    else Gather(row[2 * (k - s)], row[2 * (k - s) + 1], 1)
  }

  /**
   * The exact index formula: output bit b of byte k < W/2 is bit 2(b%4) of input
   * byte 2k + b/4, and output bit b of byte k + W/2 is bit 2(b%4)+1 of that byte.
   */
  lemma DeinterleaveBits(row: seq<bv8>)
    requires |row| % 2 == 0
    ensures var r := Deinterleave(row);
      forall k, b :: 0 <= k < |row| / 2 && 0 <= b < 8 ==>
        Bit(r[k], b) == Bit(row[2 * k + b / 4], 2 * (b % 4))
    ensures var r := Deinterleave(row);
      forall k, b :: |row| / 2 <= k < |row| && 0 <= b < 8 ==>
        Bit(r[k], b) == Bit(row[2 * (k - |row| / 2) + b / 4], 2 * (b % 4) + 1)
  {
    DeinterleaveLowBits(row);
    DeinterleaveHighBits(row);
  }

  lemma DeinterleaveLowBits(row: seq<bv8>)
    requires |row| % 2 == 0
    ensures forall k, b :: 0 <= k < |row| / 2 && 0 <= b < 8 ==>
      Bit(Deinterleave(row)[k], b) == Bit(row[2 * k + b / 4], 2 * (b % 4))
  {
    forall k, b | 0 <= k < |row| / 2 && 0 <= b < 8
      ensures Bit(Deinterleave(row)[k], b) == Bit(row[2 * k + b / 4], 2 * (b % 4))
    {
      DeinterleaveBit(row, k, b);
    }
  }

  lemma DeinterleaveHighBits(row: seq<bv8>)
    requires |row| % 2 == 0
    ensures forall k, b :: |row| / 2 <= k < |row| && 0 <= b < 8 ==>
      Bit(Deinterleave(row)[k], b) == Bit(row[2 * (k - |row| / 2) + b / 4], 2 * (b % 4) + 1)
  {
    forall k, b | |row| / 2 <= k < |row| && 0 <= b < 8
      ensures Bit(Deinterleave(row)[k], b) == Bit(row[2 * (k - |row| / 2) + b / 4], 2 * (b % 4) + 1)
    {
      DeinterleaveBit(row, k, b);
    }
  }

  lemma DeinterleaveBit(row: seq<bv8>, k: nat, b: nat)
    requires |row| % 2 == 0 && k < |row| && b < 8
    ensures var s := |row| / 2;
      var q, p := if k < s then k else k - s, if k < s then 0 else 1;
      Bit(Deinterleave(row)[k], b) == Bit(row[2 * q + b / 4], 2 * (b % 4) + p)
  {
    var s := |row| / 2;
    var q, p := if k < s then k else k - s, if k < s then 0 else 1;
    var lo, hi := row[2 * q], row[2 * q + 1];
    assert Deinterleave(row)[k] == Gather(lo, hi, p);
    GatherBit(lo, hi, p, b);
    if b < 4 {
      assert row[2 * q + b / 4] == lo;
    } else {
      assert row[2 * q + b / 4] == hi;
    }
  }

  /** One output bit of `Gather`, with the source's b/4 and b%4. */
  lemma GatherBit(lo: bv8, hi: bv8, p: nat, b: nat)
    requires p < 2 && b < 8
    ensures b / 4 == 0 ==> Bit(Gather(lo, hi, p), b) == Bit(lo, 2 * (b % 4) + p)
    ensures b / 4 == 1 ==> Bit(Gather(lo, hi, p), b) == Bit(hi, 2 * (b % 4) + p)
  {
    GatherBits(lo, hi, p);
    if b < 4 {
      assert b / 4 == 0 && b % 4 == b;
    } else {
      assert b / 4 == 1 && b % 4 == b - 4;
    }
  }

  /** Input byte rebuilt from nibble h of the two output bytes it was split into. */
  function Scatter(x: bv8, y: bv8, h: nat): bv8
    requires h < 2
  {
    Spread(Nib(x, h)) | (Spread(Nib(y, h)) << 1)
  }

  /** Bits 0..3 of `v` moved to bits 0, 2, 4, 6. */
  function Spread(v: bv8): bv8
  {
    (v & 1) | ((v & 2) << 1) | ((v & 4) << 2) | ((v & 8) << 3)
  }

  /** The inverse permutation: puts every bit pair back where it came from. */
  function Interleave(d: seq<bv8>): (r: seq<bv8>)
    requires |d| % 2 == 0
    ensures |r| == |d|
  {
    var s := |d| / 2;
    seq(|d|, n requires 0 <= n < |d| => Scatter(d[n / 2], d[n / 2 + s], n % 2))
  }

  lemma ScatterGather(x: bv8, y: bv8)
    ensures Scatter(Gather(x, y, 0), Gather(x, y, 1), 0) == x
    ensures Scatter(Gather(x, y, 0), Gather(x, y, 1), 1) == y
  {
  }

  lemma GatherScatter(a: bv8, b: bv8)
    ensures Gather(Scatter(a, b, 0), Scatter(a, b, 1), 0) == a
    ensures Gather(Scatter(a, b, 0), Scatter(a, b, 1), 1) == b
  {
  }

  /** The number of bits that are on in a row. */
  function RowPopCount(row: seq<bv8>): nat
    decreases |row|
  {
    if row == [] then 0 else PopCount(row[0]) + RowPopCount(row[1..])
  }

  lemma {:induction false} RowPopCountConcat(a: seq<bv8>, b: seq<bv8>)
    ensures RowPopCount(a + b) == RowPopCount(a) + RowPopCount(b)
    decreases |a|
  {
    if a != [] {
      var ab := a + b;
      assert ab != [] && ab[0] == a[0] && ab[1..] == a[1..] + b;
      assert RowPopCount(ab) == PopCount(a[0]) + RowPopCount(a[1..] + b);
      RowPopCountConcat(a[1..], b);
    } else {
      assert a + b == b;
    }
  }

  /** The even-bit bytes of every input pair, in order: the first half of the output. */
  function EvenHalf(row: seq<bv8>): (r: seq<bv8>)
    requires |row| % 2 == 0
    ensures |r| == |row| / 2
  {
    seq(|row| / 2, k requires 0 <= k < |row| / 2 => Gather(row[2 * k], row[2 * k + 1], 0))
  }

  /** The odd-bit bytes of every input pair, in order: the second half of the output. */
  function OddHalf(row: seq<bv8>): (r: seq<bv8>)
    requires |row| % 2 == 0
    ensures |r| == |row| / 2
  {
    seq(|row| / 2, k requires 0 <= k < |row| / 2 => Gather(row[2 * k], row[2 * k + 1], 1))
  }

  /** A pair of input bytes and its two output bytes hold the same number of set bits. */
  lemma GatherPopCount(lo: bv8, hi: bv8)
    ensures PopCount(Gather(lo, hi, 0)) + PopCount(Gather(lo, hi, 1)) == PopCount(lo) + PopCount(hi)
  {
    GatherPairPopCount(lo, hi, 0);
    GatherPairPopCount(lo, hi, 1);
    PopCountSum(lo);
    PopCountSum(hi);
  }

  /** The bits the output byte `p` takes from the pair: those of parity `p`. */
  lemma GatherPairPopCount(lo: bv8, hi: bv8, p: nat)
    requires p < 2
    ensures PopCount(Gather(lo, hi, p)) ==
      BitValue(lo, p) + BitValue(lo, p + 2) + BitValue(lo, p + 4) + BitValue(lo, p + 6) +
      BitValue(hi, p) + BitValue(hi, p + 2) + BitValue(hi, p + 4) + BitValue(hi, p + 6)
  {
    GatherBits(lo, hi, p);
    PickedPopCount(Gather(lo, hi, p), lo, hi, p);
  }

  lemma PickedPopCount(g: bv8, lo: bv8, hi: bv8, p: nat)
    requires p < 2
    requires forall b :: 0 <= b < 4 ==> Bit(g, b) == Bit(lo, 2 * b + p)
    requires forall b :: 4 <= b < 8 ==> Bit(g, b) == Bit(hi, 2 * (b - 4) + p)
    ensures PopCount(g) ==
      BitValue(lo, p) + BitValue(lo, p + 2) + BitValue(lo, p + 4) + BitValue(lo, p + 6) +
      BitValue(hi, p) + BitValue(hi, p + 2) + BitValue(hi, p + 4) + BitValue(hi, p + 6)
  {
    PopCountSum(g);
    assert Bit(g, 0) == Bit(lo, p) && Bit(g, 1) == Bit(lo, p + 2) && Bit(g, 2) == Bit(lo, p + 4) && Bit(g, 3) == Bit(lo, p + 6);
    assert Bit(g, 4) == Bit(hi, p) && Bit(g, 5) == Bit(hi, p + 2) && Bit(g, 6) == Bit(hi, p + 4) && Bit(g, 7) == Bit(hi, p + 6);
  }

  lemma {:induction false} HalvesPopCount(row: seq<bv8>)
    requires |row| % 2 == 0
    ensures RowPopCount(EvenHalf(row)) + RowPopCount(OddHalf(row)) == RowPopCount(row)
    decreases |row|
  {
    if row != [] {
      var rest := row[2..];
      assert EvenHalf(row) == [Gather(row[0], row[1], 0)] + EvenHalf(rest);
      assert OddHalf(row) == [Gather(row[0], row[1], 1)] + OddHalf(rest);
      assert EvenHalf(row)[1..] == EvenHalf(rest) && OddHalf(row)[1..] == OddHalf(rest);
      assert row[1..][1..] == rest;
      GatherPopCount(row[0], row[1]);
      HalvesPopCount(rest);
    }
  }

  /**
   * The deinterleave is a permutation of the row's bits, so the number of
   * valves that spray in a row is the same before and after it.
   */
  lemma DeinterleavePopCount(row: seq<bv8>)
    requires |row| % 2 == 0
    ensures RowPopCount(Deinterleave(row)) == RowPopCount(row)
  {
    DeinterleaveHalves(row);
    RowPopCountConcat(EvenHalf(row), OddHalf(row));
    HalvesPopCount(row);
  }

  /** The output is the even half followed by the odd half. */
  lemma DeinterleaveHalves(row: seq<bv8>)
    requires |row| % 2 == 0
    ensures Deinterleave(row) == EvenHalf(row) + OddHalf(row)
  {
    var d, e, o, s := Deinterleave(row), EvenHalf(row), OddHalf(row), |row| / 2;
    forall k | 0 <= k < |row| ensures d[k] == (e + o)[k] {
      if k < s {
        assert d[k] == e[k];
      } else {
        assert d[k] == o[k - s];
      }
    }
  }

  /** The deinterleave loses nothing: interleaving its output gives the row back. */
  lemma InterleaveDeinterleave(row: seq<bv8>)
    requires |row| % 2 == 0
    ensures Interleave(Deinterleave(row)) == row
  {
    var d := Deinterleave(row);
    var s := |row| / 2;
    forall n | 0 <= n < |row| ensures Interleave(d)[n] == row[n] {
      var k := n / 2;
      assert d[k] == Gather(row[2 * k], row[2 * k + 1], 0);
      assert d[k + s] == Gather(row[2 * k], row[2 * k + 1], 1);
      ScatterGather(row[2 * k], row[2 * k + 1]);
    }
  }

  /** ... and every byte sequence of even length is the deinterleave of some row. */
  lemma DeinterleaveInterleave(d: seq<bv8>)
    requires |d| % 2 == 0
    ensures Deinterleave(Interleave(d)) == d
  {
    var row := Interleave(d);
    var s := |d| / 2;
    forall k | 0 <= k < |d| ensures Deinterleave(row)[k] == d[k] {
      var q := if k < s then k else k - s;
      assert row[2 * q] == Scatter(d[q], d[q + s], 0);
      assert row[2 * q + 1] == Scatter(d[q], d[q + s], 1);
      GatherScatter(d[q], d[q + s]);
    }
  }

  /**
   * The array during the source loop, after input bytes 0..n-1 have been
   * scattered: nibble h of output byte k holds its final value once input
   * byte 2q+h (q = k mod W/2) is done, and its original bits before that.
   */
  function Partial(row: seq<bv8>, n: nat): (r: seq<bv8>)
    requires |row| % 2 == 0
    ensures |r| == |row|
  {
    seq(|row|, k requires 0 <= k < |row| => PartialByte(row, n, k))
  }

  function PartialByte(row: seq<bv8>, n: nat, k: nat): bv8
    requires |row| % 2 == 0 && k < |row|
  {
    var s := |row| / 2;
    var q := if k < s then k else k - s;
    var p := if k < s then 0 else 1;
    Combine(if 2 * q < n then Pick(row[2 * q], p) else Nib(row[k], 0),
            if 2 * q + 1 < n then Pick(row[2 * q + 1], p) else Nib(row[k], 1))
  }

  /** `Mix(x, h, c, src, p)`: `x` after the first c iterations of the inner bit loop. */
  function Mix(x: bv8, h: nat, c: nat, src: bv8, p: nat): bv8
    requires h < 2 && c <= 4 && p < 2
  {
    if c == 0 then x else SetBit(Mix(x, h, c - 1, src, p), 4 * h + c - 1, Bit(src, 2 * (c - 1) + p))
  }

  lemma MixFull(x: bv8, h: nat, src: bv8, p: nat)
    requires h < 2 && p < 2
    ensures Mix(x, h, 4, src, p) == SetNib(x, h, Pick(src, p))
  {
    assert Mix(x, h, 1, src, p) == SetBit(x, 4 * h, Bit(src, p));
    assert Mix(x, h, 2, src, p) == SetBit(Mix(x, h, 1, src, p), 4 * h + 1, Bit(src, 2 + p));
    assert Mix(x, h, 3, src, p) == SetBit(Mix(x, h, 2, src, p), 4 * h + 2, Bit(src, 4 + p));
    assert Mix(x, h, 4, src, p) == Set4(x, h, src, p);
    Set4Nib(x, h, src, p);
  }

  /** The four bit writes of one inner loop, spelled out. */
  function Set4(x: bv8, h: nat, src: bv8, p: nat): bv8
    requires h < 2 && p < 2
  {
    SetBit(SetBit(SetBit(SetBit(x, 4 * h, Bit(src, p)), 4 * h + 1, Bit(src, 2 + p)),
      4 * h + 2, Bit(src, 4 + p)), 4 * h + 3, Bit(src, 6 + p))
  }

  lemma Set4Nib(x: bv8, h: nat, src: bv8, p: nat)
    requires h < 2 && p < 2
    ensures Set4(x, h, src, p) == SetNib(x, h, Pick(src, p))
  {
    if h == 0 && p == 0 { Set4Low(x, src, 0); }
    else if h == 0 { Set4Low(x, src, 1); }
    else if p == 0 { Set4High(x, src, 0); }
    else { Set4High(x, src, 1); }
  }

  lemma Set4Low(x: bv8, src: bv8, p: nat)
    requires p < 2
    ensures Set4(x, 0, src, p) == SetNib(x, 0, Pick(src, p))
  {
    if p == 0 {
      assert Set4(x, 0, src, 0) == SetBit(SetBit(SetBit(SetBit(x, 0, Bit(src, 0)), 1, Bit(src, 2)), 2, Bit(src, 4)), 3, Bit(src, 6));
    } else {
      assert Set4(x, 0, src, 1) == SetBit(SetBit(SetBit(SetBit(x, 0, Bit(src, 1)), 1, Bit(src, 3)), 2, Bit(src, 5)), 3, Bit(src, 7));
    }
  }

  lemma Set4High(x: bv8, src: bv8, p: nat)
    requires p < 2
    ensures Set4(x, 1, src, p) == SetNib(x, 1, Pick(src, p))
  {
    if p == 0 {
      assert Set4(x, 1, src, 0) == SetBit(SetBit(SetBit(SetBit(x, 4, Bit(src, 0)), 5, Bit(src, 2)), 6, Bit(src, 4)), 7, Bit(src, 6));
    } else {
      assert Set4(x, 1, src, 1) == SetBit(SetBit(SetBit(SetBit(x, 4, Bit(src, 1)), 5, Bit(src, 3)), 6, Bit(src, 5)), 7, Bit(src, 7));
    }
  }

  lemma CombineNibs(x: bv8)
    ensures Combine(Nib(x, 0), Nib(x, 1)) == x
  {
  }

  lemma SetNibCombine(a: bv8, b: bv8, c: bv8)
    ensures SetNib(Combine(a, b), 0, c) == Combine(c, b)
    ensures SetNib(Combine(a, b), 1, c) == Combine(a, c)
  {
  }

  /** Where iteration (n, i) of the source loop writes: byte n/2 (and n/2 + s), bit 4*(n%2) + i/2. */
  lemma LoopIndices(n: nat, i: nat)
    requires i < 8 && i % 2 == 0
    ensures (n * 8 + i) / 2 / 8 == n / 2
    ensures (n * 8 + i) / 2 % 8 == 4 * (n % 2) + i / 2
  {
    var idx := n * 8 + i;
    assert idx / 2 == 4 * n + i / 2;
    assert 4 * n + i / 2 == 8 * (n / 2) + (4 * (n % 2) + i / 2);
  }

  lemma PartialStart(row: seq<bv8>)
    requires |row| % 2 == 0
    ensures Partial(row, 0) == row
  {
    forall k | 0 <= k < |row| ensures Partial(row, 0)[k] == row[k] {
      CombineNibs(row[k]);
    }
  }

  lemma PartialEnd(row: seq<bv8>)
    requires |row| % 2 == 0
    ensures Partial(row, |row|) == Deinterleave(row)
  {
    forall k | 0 <= k < |row| ensures PartialByte(row, |row|, k) == DeinterleaveByte(row, k) {
    }
  }

  /** Processing input byte n rewrites nibble n%2 of output bytes n/2 and n/2 + s, nothing else. */
  lemma PartialStep(row: seq<bv8>, n: nat)
    requires |row| % 2 == 0 && n < |row|
    ensures var s, v, h := |row| / 2, n / 2, n % 2;
      var d := Partial(row, n);
      Partial(row, n + 1) == d[v := SetNib(d[v], h, Pick(row[n], 0))][v + s := SetNib(d[v + s], h, Pick(row[n], 1))]
  {
    var s, v, h := |row| / 2, n / 2, n % 2;
    var d := Partial(row, n);
    var d' := Partial(row, n + 1);
    var e := d[v := SetNib(d[v], h, Pick(row[n], 0))][v + s := SetNib(d[v + s], h, Pick(row[n], 1))];
    forall k | 0 <= k < |row| ensures d'[k] == e[k] {
      PartialStepByte(row, n, k);
    }
  }

  lemma PartialStepByte(row: seq<bv8>, n: nat, k: nat)
    requires |row| % 2 == 0 && n < |row| && k < |row|
    ensures var s, v, h := |row| / 2, n / 2, n % 2;
      PartialByte(row, n + 1, k) ==
        if k == v then SetNib(PartialByte(row, n, k), h, Pick(row[n], 0))
        else if k == v + s then SetNib(PartialByte(row, n, k), h, Pick(row[n], 1))
        else PartialByte(row, n, k)
  {
    var s := |row| / 2;
    var q := if k < s then k else k - s;
    var p := if k < s then 0 else 1;
    var lo := if 2 * q < n then Pick(row[2 * q], p) else Nib(row[k], 0);
    var hi := if 2 * q + 1 < n then Pick(row[2 * q + 1], p) else Nib(row[k], 1);
    SetNibCombine(lo, hi, Pick(row[n], p));
  }

  /** Iteration i of the inner loop extends the first i/2 writes by one. */
  lemma MixNext(y: bv8, x: bv8, h: nat, c: nat, src: bv8, p: nat, b: nat, j: nat)
    requires h < 2 && c < 4 && p < 2 && b == 4 * h + c && j == 2 * c + p
    requires y == Mix(x, h, c, src, p)
    ensures Mix(x, h, c + 1, src, p) == SetBit(y, b, Bit(src, j))
  {
  }

  /**
   * Where iteration (n, i) of the source loop writes: with idx = n*8 + i,
   * byte idx/2/8 (and that plus W/2), bit idx/2%8.
   */
  function BitTarget(n: nat, i: nat): (t: (nat, nat))
    requires i < 8 && i % 2 == 0
    ensures t.0 == n / 2 && t.1 == 4 * (n % 2) + i / 2
  {
    var idx := n * 8 + i;
    LoopIndices(n, i);
    ((idx / 2) / 8, (idx / 2) % 8)
  }

  /**
   * `r` is `data` after the first c iterations of the inner loop for the
   * bytes v and v + s: those two hold their partial mixes, the rest is as it was.
   */
  predicate Scattered(r: seq<bv8>, data: seq<bv8>, v: nat, s: nat, h: nat, c: nat, src: bv8)
  {
    h < 2 && c <= 4 && v < s && |r| == |data| == 2 * s &&
    r[v] == Mix(data[v], h, c, src, 0) &&
    r[v + s] == Mix(data[v + s], h, c, src, 1) &&
    forall k :: 0 <= k < |r| && k != v && k != v + s ==> r[k] == data[k]
  }

  /** One iteration of the inner loop: two bit writes extend both mixes by one bit. */
  lemma ScatterStep(r: seq<bv8>, data: seq<bv8>, v: nat, s: nat, h: nat, c: nat, src: bv8, b: nat, i: nat)
    requires c < 4 && b == 4 * h + c && i == 2 * c && Scattered(r, data, v, s, h, c, src)
    ensures Scattered(r[v := SetBit(r[v], b, Bit(src, i))][v + s := SetBit(r[v + s], b, Bit(src, i + 1))],
                      data, v, s, h, c + 1, src)
  {
    var lo := SetBit(r[v], b, Bit(src, i));
    var hi := SetBit(r[v + s], b, Bit(src, i + 1));
    var r' := r[v := lo][v + s := hi];
    MixNext(r[v], data[v], h, c, src, 0, b, i);
    MixNext(r[v + s], data[v + s], h, c, src, 1, b, i + 1);
    assert r'[v] == Mix(data[v], h, c + 1, src, 0);
    assert r'[v + s] == Mix(data[v + s], h, c + 1, src, 1);
    assert forall k :: 0 <= k < |r'| && k != v && k != v + s ==> r'[k] == data[k];
  }

  /**
   * The inner loop of the source for input byte n of a row of 2s bytes:
   * iteration i copies bit i of `src` to bit b of byte v and bit i+1 to bit b
   * of byte v + s, with v and b computed from idx = n*8 + i as the source does.
   * The effect is that nibble n%2 of byte n/2 receives the even bits of `src`
   * and the same nibble of byte n/2 + s its odd bits.
   */
  method ScatterByte(data: seq<bv8>, s: nat, n: nat, src: bv8) returns (r: seq<bv8>)
    requires |data| == 2 * s && n < 2 * s
    ensures |r| == |data|
    ensures r[n / 2] == SetNib(data[n / 2], n % 2, Pick(src, 0))
    ensures r[n / 2 + s] == SetNib(data[n / 2 + s], n % 2, Pick(src, 1))
    ensures forall k :: 0 <= k < |r| && k != n / 2 && k != n / 2 + s ==> r[k] == data[k]
  {
    var v, h := n / 2, n % 2;
    r := data;
    var i := 0;
    ghost var c := 0;
    while i < 8
      invariant 0 <= c <= 4 && i == 2 * c && Scattered(r, data, v, s, h, c, src)
    {
      var (vIdx, bIdx) := BitTarget(n, i);
      ScatterStep(r, data, vIdx, s, h, c, src, bIdx, i);
      r := r[vIdx := SetBit(r[vIdx], bIdx, Bit(src, i))];
      r := r[vIdx + s := SetBit(r[vIdx + s], bIdx, Bit(src, i + 1))];
      i, c := i + 2, c + 1;
    }
    MixFull(data[v], h, src, 0);
    MixFull(data[v + s], h, src, 1);
  }

  /**
   * `interlaceAndSeparate`: every input byte is scattered in turn, and an odd
   * row length is rejected, as the source throws.
   */
  method InterlaceAndSeparate(row: seq<bv8>) returns (r: Result<seq<bv8>, Error>)
    ensures r.Failure? <==> |row| % 2 != 0
    ensures r.Failure? ==> r.error == OddRowLength
    ensures r.Success? ==> r.value == Deinterleave(row)
  {
    if |row| % 2 != 0 {
      return Failure(OddRowLength);
    }
    var s := |row| / 2;
    var data := row;
    PartialStart(row);
    var n := 0;
    while n < |row|
      invariant 0 <= n <= |row| && data == Partial(row, n)
    {
      ghost var before := data;
      data := ScatterByte(data, s, n, row[n]);
      PartialStep(row, n);
      assert data == before[n / 2 := SetNib(before[n / 2], n % 2, Pick(row[n], 0))]
                           [n / 2 + s := SetNib(before[n / 2 + s], n % 2, Pick(row[n], 1))];
      n := n + 1;
    }
    PartialEnd(row);
    return Success(data);
  }

  /** The doc-comment example: 1010.1010 1010.1010 becomes 0000.0000 1111.1111. */
  lemma AlternatingExample()
    ensures Deinterleave([0xAA, 0xAA]) == [0x00, 0xFF]
  {
    var row: seq<bv8> := [0xAA, 0xAA];
    assert DeinterleaveByte(row, 0) == 0x00;
    assert DeinterleaveByte(row, 1) == 0xFF;
  }

  /** A row worked by hand: [0xD1, 0x27] becomes [0x3D, 0x58]. */
  lemma WorkedExample()
    ensures Deinterleave([0xD1, 0x27]) == [0x3D, 0x58]
  {
    var row: seq<bv8> := [0xD1, 0x27];
    assert DeinterleaveByte(row, 0) == 0x3D;
    assert DeinterleaveByte(row, 1) == 0x58;
  }

  /** A four-byte row: [0xD1, 0x27, 0xD9, 0xF9] becomes [0x3D, 0xDD, 0x58, 0xEA]. */
  lemma WorkedExampleWide()
    ensures Deinterleave([0xD1, 0x27, 0xD9, 0xF9]) == [0x3D, 0xDD, 0x58, 0xEA]
  {
    var row: seq<bv8> := [0xD1, 0x27, 0xD9, 0xF9];
    assert DeinterleaveByte(row, 0) == 0x3D;
    assert DeinterleaveByte(row, 1) == 0xDD;
    assert DeinterleaveByte(row, 2) == 0x58;
    assert DeinterleaveByte(row, 3) == 0xEA;
  }
}
