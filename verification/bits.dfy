/**
 * One `std::bitset<8>` of a pattern row, as a `bv8`: index 0 is the least
 * significant bit, as in `bitset::operator[]` and `bitset::to_ulong`.
 */
module Bits {

  /** The byte with only bit `j` set. */
  function Mask(j: nat): bv8
    requires j < 8
  {
    match j
    case 0 => 0x01 case 1 => 0x02 case 2 => 0x04 case 3 => 0x08
    case 4 => 0x10 case 5 => 0x20 case 6 => 0x40 case _ => 0x80
  }

  /** `b[j]` of a `std::bitset<8>`. */
  function Bit(b: bv8, j: nat): bool
    requires j < 8
  {
    b & Mask(j) != 0
  }

  /** Two bytes that agree on every bit are equal. */
  lemma BitsDetermine(a: bv8, b: bv8)
    requires forall j :: 0 <= j < 8 ==> Bit(a, j) == Bit(b, j)
    ensures a == b
  {
    assert Bit(a, 0) == Bit(b, 0) && Bit(a, 1) == Bit(b, 1);
    assert Bit(a, 2) == Bit(b, 2) && Bit(a, 3) == Bit(b, 3);
    assert Bit(a, 4) == Bit(b, 4) && Bit(a, 5) == Bit(b, 5);
    assert Bit(a, 6) == Bit(b, 6) && Bit(a, 7) == Bit(b, 7);
  }

  /** `b[j] = v`: bit `j` becomes `v`, the other seven are kept. */
  function SetBit(b: bv8, j: nat, v: bool): bv8
    requires j < 8
  {
    if v then b | Mask(j) else b & !Mask(j)
  }

  lemma SetBitBits(b: bv8, j: nat, v: bool)
    requires j < 8
    ensures Bit(SetBit(b, j, v), j) == v
    ensures forall k :: 0 <= k < 8 && k != j ==> Bit(SetBit(b, j, v), k) == Bit(b, k)
  {
  }

  /** The bit-order reversal that `GCodeGenerator::reverse` performs. */
  function ReverseByte(b: bv8): (r: bv8)
    ensures forall j :: 0 <= j < 8 ==> Bit(r, j) == Bit(b, 7 - j)
  {
    ((b & 1) << 7) | ((b & 2) << 5) | ((b & 4) << 3) | ((b & 8) << 1)
    | ((b >> 1) & 8) | ((b >> 3) & 4) | ((b >> 5) & 2) | ((b >> 7) & 1)
  }

  /** Reversing twice gives the byte back, so the reversal loses no valve. */
  lemma ReverseInvolution(b: bv8)
    ensures ReverseByte(ReverseByte(b)) == b
  {
    var r := ReverseByte(ReverseByte(b));
    forall j | 0 <= j < 8 ensures Bit(r, j) == Bit(b, j) {
      assert Bit(r, j) == Bit(ReverseByte(b), 7 - j);
    }
    BitsDetermine(r, b);
  }

  /** 1 when bit `j` of `b` is on, else 0. */
  function BitValue(b: bv8, j: nat): nat
    requires j < 8
  {
    if Bit(b, j) then 1 else 0
  }

  /** The number of bits of `b` that are on: the valves of one byte that spray. */
  function PopCount(b: bv8): nat
  {
    CountFrom(b, 0)
  }

  /** The number of bits `j..7` of `b` that are on. */
  function CountFrom(b: bv8, j: nat): nat
    requires j <= 8
    decreases 8 - j
  {
    if j == 8 then 0 else BitValue(b, j) + CountFrom(b, j + 1)
  }

  /** The count written out bit by bit. */
  lemma PopCountSum(b: bv8)
    ensures PopCount(b) ==
      BitValue(b, 0) + BitValue(b, 1) + BitValue(b, 2) + BitValue(b, 3) +
      BitValue(b, 4) + BitValue(b, 5) + BitValue(b, 6) + BitValue(b, 7)
  {
    assert CountFrom(b, 6) == BitValue(b, 6) + BitValue(b, 7);
    assert CountFrom(b, 4) == BitValue(b, 4) + BitValue(b, 5) + CountFrom(b, 6);
    assert CountFrom(b, 2) == BitValue(b, 2) + BitValue(b, 3) + CountFrom(b, 4);
  }

  /** Reversing the bit order opens as many valves as before. */
  lemma ReversePopCount(b: bv8)
    ensures PopCount(ReverseByte(b)) == PopCount(b)
  {
    var r := ReverseByte(b);
    PopCountSum(r);
    PopCountSum(b);
    assert Bit(r, 0) == Bit(b, 7) && Bit(r, 1) == Bit(b, 6) && Bit(r, 2) == Bit(b, 5) && Bit(r, 3) == Bit(b, 4);
    assert Bit(r, 4) == Bit(b, 3) && Bit(r, 5) == Bit(b, 2) && Bit(r, 6) == Bit(b, 1) && Bit(r, 7) == Bit(b, 0);
  }

  /** One iteration of the swap loop: bits `i` and `7 - i` trade places. */
  function Swap(r: bv8, i: nat): bv8
    requires i < 8
  {
    SetBit(SetBit(r, i, Bit(r, 7 - i)), 7 - i, Bit(r, i))
  }

  /** The byte after the first `i` iterations of the swap loop. */
  function SwappedUpTo(b: bv8, i: nat): bv8
    requires i <= 4
  {
    if i == 0 then b else Swap(SwappedUpTo(b, i - 1), i - 1)
  }

  lemma SwapLoopReverses(b: bv8)
    ensures SwappedUpTo(b, 4) == ReverseByte(b)
  {
    var r1 := Swap(b, 0);
    var r2 := Swap(r1, 1);
    var r3 := Swap(r2, 2);
    assert SwappedUpTo(b, 1) == r1;
    assert SwappedUpTo(b, 2) == r2;
    assert SwappedUpTo(b, 3) == r3;
    assert Swap(r3, 3) == ReverseByte(b);
  }

  /** The swap loop of `reverse<8>`: bit `i` trades places with bit `7 - i` for `i < 4`. */
  method Reverse(b: bv8) returns (r: bv8)
    ensures forall j :: 0 <= j < 8 ==> Bit(r, j) == Bit(b, 7 - j)
    ensures r == ReverseByte(b)
  {
    r := b;
    var i: nat := 0;
    while i < 4
      invariant i <= 4 && r == SwappedUpTo(b, i)
    {
      var t := Bit(r, i);
      r := SetBit(r, i, Bit(r, 7 - i));
      r := SetBit(r, 7 - i, t);
      i := i + 1;
    }
    SwapLoopReverses(b);
  }
}
