/** Bytes as bit strings, high bit first. */
module Bits {

  /** An unsigned byte used as a number. */
  type Byte = x: int | 0 <= x < 256

  function ByteMask(i: nat): bv8
    requires i < 8
  {
    [0x80, 0x40, 0x20, 0x10, 8, 4, 2, 1][i]
  }

  /** Bit i of a byte, high bit first: `(byte >> (7 - i)) & 1`. */
  function BitAt(b: bv8, i: nat): bool
    requires i < 8
  {
    b & ByteMask(i) != 0
  }

  function BitsOf(data: seq<bv8>): (bits: seq<bool>)
    ensures |bits| == 8 * |data|
  {
    seq(8 * |data|, j requires 0 <= j < 8 * |data| => BitAt(data[j / 8], j % 8))
  }

  lemma BitOfByte(data: seq<bv8>, n: nat, i: nat)
    requires n < |data| && i < 8
    ensures BitsOf(data)[8 * n + i] == BitAt(data[n], i)
  {
    hide BitAt;
    assert (8 * n + i) / 8 == n && (8 * n + i) % 8 == i;
  }

  function Zeros(n: nat): (bits: seq<bool>)
    ensures |bits| == n && forall j :: 0 <= j < n ==> !bits[j]
  {
    seq(n, _ => false)
  }

  lemma MaskBits(x: bv8)
    ensures BitAt(x, 0) == (x & 0x80 != 0) && BitAt(x, 1) == (x & 0x40 != 0)
    ensures BitAt(x, 2) == (x & 0x20 != 0) && BitAt(x, 3) == (x & 0x10 != 0)
    ensures BitAt(x, 4) == (x & 8 != 0) && BitAt(x, 5) == (x & 4 != 0)
    ensures BitAt(x, 6) == (x & 2 != 0) && BitAt(x, 7) == (x & 1 != 0)
  {
  }

  lemma SameMasks(a: bv8, b: bv8)
    requires (a & 0x80 != 0) == (b & 0x80 != 0) && (a & 0x40 != 0) == (b & 0x40 != 0)
    requires (a & 0x20 != 0) == (b & 0x20 != 0) && (a & 0x10 != 0) == (b & 0x10 != 0)
    requires (a & 8 != 0) == (b & 8 != 0) && (a & 4 != 0) == (b & 4 != 0)
    requires (a & 2 != 0) == (b & 2 != 0) && (a & 1 != 0) == (b & 1 != 0)
    ensures a == b
  {
  }

  lemma SameByte(a: bv8, b: bv8)
    requires forall i :: 0 <= i < 8 ==> BitAt(a, i) == BitAt(b, i)
    ensures a == b
  {
    hide BitAt;
    MaskBits(a);
    MaskBits(b);
    SameMasks(a, b);
  }

  lemma ZeroByte(i: nat)
    requires i < 8
    ensures !BitAt(0, i)
  {
  }

  /** Bytes are determined by their bits. */
  lemma SameBytes(a: seq<bv8>, b: seq<bv8>)
    requires BitsOf(a) == BitsOf(b)
    ensures a == b
  {
    hide BitAt, BitsOf;
    assert |BitsOf(a)| == 8 * |a| && |BitsOf(b)| == 8 * |b|;
    forall n | 0 <= n < |a|
      ensures a[n] == b[n]
    {
      forall i | 0 <= i < 8
        ensures BitAt(a[n], i) == BitAt(b[n], i)
      {
        BitOfByte(a, n, i);
        BitOfByte(b, n, i);
      }
      SameByte(a[n], b[n]);
    }
  }

  // ----- walking a bit mask over bytes

  function Or(b: bv8, mask: bv8): bv8 {
    b | mask
  }

  /** `mask >>= 1`, with the step to the next byte when it runs out. */
  function NextMask(mask: bv8): bv8 {
    if mask >> 1 == 0 then 0x80 else mask >> 1
  }

  /** The byte index and mask one bit further on. */
  function NextPlace(idx: nat, mask: bv8): (nat, bv8) {
    (if mask >> 1 == 0 then idx + 1 else idx, NextMask(mask))
  }

  lemma NextPlaceIs(idx: nat, bit: nat)
    requires bit < 8
    ensures NextPlace(idx, ByteMask(bit)) == if bit == 7 then (idx + 1, ByteMask(0)) else (idx, ByteMask(bit + 1))
  {
    hide ByteMask, NextMask;
    NextMaskIs(bit);
    if bit < 7 {
      ByteMaskFacts(bit + 1);
    }
  }

  lemma NextMaskIs(i: nat)
    requires i < 8
    ensures ByteMask(i) >> 1 == if i == 7 then 0 else ByteMask(i + 1)
    ensures NextMask(ByteMask(i)) == ByteMask((i + 1) % 8)
    ensures ByteMask(0) == 0x80
  {
  }

  predicate OneBit8(m: bv8) {
    m != 0 && m & (m - 1) == 0
  }

  lemma ByteMaskFacts(i: nat)
    requires i < 8
    ensures OneBit8(ByteMask(i))
  {
  }

  lemma ByteMasksDiffer(i: nat, j: nat)
    requires i < 8 && j < 8 && i != j
    ensures ByteMask(i) & ByteMask(j) == 0
  {
    match i
    case 0 =>
    case 1 =>
    case 2 =>
    case 3 =>
    case 4 =>
    case 5 =>
    case 6 =>
    case _ =>
  }

  lemma OneBitAnd8(x: bv8, m: bv8)
    requires OneBit8(m)
    ensures x & m == 0 || x & m == m
  {
  }

  lemma OrAnd(b: bv8, m: bv8, n: bv8)
    ensures Or(b, m) & n == Or(b & n, m & n)
  {
  }

  lemma OrSimple(b: bv8)
    ensures Or(b, 0) == b && (Or(b, b) == b) && b & b == b && (b != 0 ==> Or(0, b) != 0)
  {
  }

  lemma OrBit(b: bv8, i: nat, j: nat)
    requires i < 8 && j < 8
    ensures BitAt(Or(b, ByteMask(i)), j) == (BitAt(b, j) || i == j)
  {
    hide Or, ByteMask;
    ByteMaskFacts(j);
    OrAnd(b, ByteMask(i), ByteMask(j));
    OneBitAnd8(b, ByteMask(j));
    OrSimple(b & ByteMask(j));
    OrSimple(ByteMask(j));
    if i != j {
      ByteMasksDiffer(i, j);
    }
  }

  /** Setting bit i of byte n sets bit 8n + i of the string. */
  lemma SetBit(data: seq<bv8>, n: nat, i: nat)
    requires n < |data| && i < 8
    ensures BitsOf(data[n := Or(data[n], ByteMask(i))]) == BitsOf(data)[8 * n + i := true]
  {
    hide BitAt, Or, ByteMask, BitsOf;
    var data' := data[n := Or(data[n], ByteMask(i))];
    forall k | 0 <= k < 8 * |data|
      ensures BitsOf(data')[k] == BitsOf(data)[8 * n + i := true][k]
    {
      BitOfByte(data, k / 8, k % 8);
      BitOfByte(data', k / 8, k % 8);
      if k / 8 == n {
        OrBit(data[n], i, k % 8);
      }
    }
  }
}
