/** The systematic LDPC code: the encoder on bit arrays, the encoder on packed bytes, and the
    parity checks, all tied to one generator. */
module Ldpc {
  import opened Bits
  import opened Gf2

  /** Row i of the full generator: the i-th message bit, or a parity row. */
  function GeneratorRow(parity: seq<Vec>, k: nat, i: nat): (row: Vec)
    requires IsMatrix(parity, k) && i < k + |parity|
    ensures |row| == k
  {
    if i < k then Unit(k, i) else parity[i - k]
  }

  /** The codeword of a message: every generator row times the message. */
  ghost function Codeword(parity: seq<Vec>, k: nat, x: Vec): (code: Vec)
    requires IsMatrix(parity, k) && |x| == k
    ensures |code| == k + |parity|
    ensures forall i :: 0 <= i < |code| ==> code[i] == Dot(GeneratorRow(parity, k, i), x)
  {
    seq(k + |parity|, i requires 0 <= i < k + |parity| => Dot(GeneratorRow(parity, k, i), x))
  }

  lemma CodewordParts(parity: seq<Vec>, k: nat, x: Vec, i: nat)
    requires IsMatrix(parity, k) && |x| == k && i < k + |parity|
    ensures Codeword(parity, k, x)[i] == if i < k then x[i] else Dot(parity[i - k], x)
  {
    if i < k {
      DotUnit(k, i, x);
    }
  }

  /** `ldpc_encode`: one bit per array element. */
  method EncodeBits(parity: seq<Vec>, plain: seq<bool>, codeword: array<bool>)
    requires IsMatrix(parity, |plain|) && codeword.Length == |plain| + |parity|
    modifies codeword
    ensures codeword[..] == Codeword(parity, |plain|, plain)
  {
    hide Dot;
    var k := |plain|;
    ghost var code := Codeword(parity, k, plain);
    for i := 0 to k
      invariant forall n :: 0 <= n < i ==> codeword[n] == code[n]
    {
      CodewordParts(parity, k, plain, i);
      codeword[i] := plain[i];
    }
    for i := 0 to |parity|
      invariant forall n :: 0 <= n < k + i ==> codeword[n] == code[n]
    {
      var sum := OverlapCount(parity[i], plain);
      CodewordParts(parity, k, plain, k + i);
      codeword[i + k] := sum % 2 == 1;
    }
  }

  /** The number of common ones; its parity is the dot product. */
  method OverlapCount(row: Vec, plain: Vec) returns (sum: nat)
    requires |row| == |plain|
    ensures (sum % 2 == 1) == Dot(row, plain)
  {
    sum := 0;
    assert row[..0] == [];
    for j := 0 to |row|
      invariant (sum % 2 == 1) == Dot(row[..j], plain[..j])
    {
      assert row[..j + 1][..j] == row[..j] && plain[..j + 1][..j] == plain[..j];
      sum := sum + if row[j] && plain[j] then 1 else 0;
    }
    assert row[..|row|] == row && plain[..|row|] == plain;
  }

  // ----- the same code on packed bytes

  /** Odd number of ones in a byte, by folding. */
  function Parity8(x: bv8): bool {
    var a := x ^ (x >> 4);
    var b := a ^ (a >> 2);
    var c := b ^ (b >> 1);
    c & 1 == 1
  }

  function And(a: bv8, b: bv8): bv8 {
    a & b
  }

  lemma AndMask(a: bv8, b: bv8, m: bv8)
    ensures And(a, b) & m == (a & m) & (b & m)
  {
  }

  lemma AndCases(m: bv8)
    ensures 0 & m == 0 && m & 0 == 0 && m & m == m
  {
  }

  lemma AndBit(a: bv8, b: bv8, i: nat)
    requires i < 8
    ensures BitAt(And(a, b), i) == (BitAt(a, i) && BitAt(b, i))
  {
    hide And, ByteMask;
    ByteMaskFacts(i);
    AndMask(a, b, ByteMask(i));
    OneBitAnd8(a, ByteMask(i));
    OneBitAnd8(b, ByteMask(i));
    AndCases(ByteMask(i));
    AndCases(0);
  }

  /** XOR of the first n bits of a byte. */
  function XorBits(x: bv8, n: nat): bool
    requires n <= 8
  {
    if n == 0 then false else XorBits(x, n - 1) != BitAt(x, n - 1)
  }

  lemma Parity8IsXor(x: bv8)
    ensures Parity8(x) == XorBits(x, 8)
  {
    Parity8Masks(x);
    XorBitsMasks(x);
  }

  lemma Parity8Masks(x: bv8)
    ensures Parity8(x) == ((((x & 0x80 != 0) != (x & 0x40 != 0)) != ((x & 0x20 != 0) != (x & 0x10 != 0)))
                        != (((x & 8 != 0) != (x & 4 != 0)) != ((x & 2 != 0) != (x & 1 != 0))))
  {
  }

  lemma XorBitsMasks(x: bv8)
    ensures XorBits(x, 8) == ((((x & 0x80 != 0) != (x & 0x40 != 0)) != ((x & 0x20 != 0) != (x & 0x10 != 0)))
                        != (((x & 8 != 0) != (x & 4 != 0)) != ((x & 2 != 0) != (x & 1 != 0))))
  {
    hide BitAt;
    MaskBits(x);
    assert XorBits(x, 1) == (x & 0x80 != 0);
    assert XorBits(x, 2) == (XorBits(x, 1) != (x & 0x40 != 0));
    assert XorBits(x, 3) == (XorBits(x, 2) != (x & 0x20 != 0));
    assert XorBits(x, 4) == (XorBits(x, 3) != (x & 0x10 != 0));
    assert XorBits(x, 5) == (XorBits(x, 4) != (x & 8 != 0));
    assert XorBits(x, 6) == (XorBits(x, 5) != (x & 4 != 0));
    assert XorBits(x, 7) == (XorBits(x, 6) != (x & 2 != 0));
  }

  /** Multiplying byte by byte: eight more places. */
  lemma {:induction false} DotByte(row: seq<bv8>, message: seq<bv8>, j: nat, n: nat)
    requires |row| == |message| && j < |row| && n <= 8
    ensures var a, x := BitsOf(row), BitsOf(message);
      Dot(a[..8 * j + n], x[..8 * j + n]) == (Dot(a[..8 * j], x[..8 * j]) != XorBits(And(row[j], message[j]), n))
  {
    hide And, BitAt, BitsOf;
    if n == 0 {
    } else {
      DotByte(row, message, j, n - 1);
      var a, x := BitsOf(row), BitsOf(message);
      var m := 8 * j + n;
      assert a[..m][..m - 1] == a[..m - 1] && x[..m][..m - 1] == x[..m - 1];
      BitOfByte(row, j, n - 1);
      BitOfByte(message, j, n - 1);
      AndBit(row[j], message[j], n - 1);
    }
  }

  lemma {:induction false} DotZeroTail(a: Vec, x: Vec, k: nat)
    requires |a| == |x| && k <= |x| && forall j :: k <= j < |x| ==> !x[j]
    ensures Dot(a, x) == Dot(a[..k], x[..k])
  {
    if k < |x| {
      var n := |x| - 1;
      DotZeroTail(a[..n], x[..n], k);
      assert a[..n][..k] == a[..k] && x[..n][..k] == x[..k];
    } else {
      assert a[..k] == a && x[..k] == x;
    }
  }

  /** The parity rows as the packed table spells them. */
  function ParityRows(generator: seq<seq<bv8>>, k: nat): (rows: seq<Vec>)
    requires forall i :: 0 <= i < |generator| ==> 8 * |generator[i]| >= k
    ensures |rows| == |generator| && IsMatrix(rows, k)
    ensures forall i :: 0 <= i < |rows| ==> rows[i] == BitsOf(generator[i])[..k]
  {
    seq(|generator|, i requires 0 <= i < |generator| => BitsOf(generator[i])[..k])
  }

  /** One checksum bit: the parity of all bytewise products. */
  method ChecksumBit(row: seq<bv8>, message: seq<bv8>, ghost k: nat) returns (odd: bool)
    requires |row| == |message| && k <= 8 * |message|
    requires forall j :: k <= j < 8 * |message| ==> !BitsOf(message)[j]
    ensures odd == Dot(BitsOf(row)[..k], BitsOf(message)[..k])
  {
    hide And, BitAt, BitsOf, Dot, Parity8, XorBits;
    odd := false;
    ghost var a, x := BitsOf(row), BitsOf(message);
    EmptyDot(a[..0], x[..0]);
    for j := 0 to |message|
      invariant odd == Dot(a[..8 * j], x[..8 * j])
    {
      var bits := And(message[j], row[j]);
      odd := odd != Parity8(bits);
      DotByte(row, message, j, 8);
      AndCommutes(row[j], message[j]);
      Parity8IsXor(bits);
    }
    assert a[..8 * |message|] == a && x[..8 * |message|] == x;
    DotZeroTail(a, x, k);
  }

  lemma EmptyDot(a: Vec, x: Vec)
    requires |a| == |x| == 0
    ensures !Dot(a, x)
  {
  }

  lemma AndCommutes(a: bv8, b: bv8)
    ensures And(a, b) == And(b, a)
  {
  }

  /** `encode174` and its relatives: the message bytes, then checksum bits set one mask at a time. */
  method EncodePacked(generator: seq<seq<bv8>>, k: nat, message: seq<bv8>, codeword: array<bv8>)
    requires |message| == (k + 7) / 8 && k % 8 != 0
    requires forall i :: 0 <= i < |generator| ==> |generator[i]| == |message|
    requires codeword.Length == (k + |generator| + 7) / 8
    requires forall j :: k <= j < 8 * |message| ==> !BitsOf(message)[j]
    modifies codeword
    ensures BitsOf(codeword[..])[..k + |generator|] == Codeword(ParityRows(generator, k), k, BitsOf(message)[..k])
  {
    hide Dot, BitsOf, BitAt, Or, NextPlace, ByteMask;
    var m := |generator|;
    ghost var code := Codeword(ParityRows(generator, k), k, BitsOf(message)[..k]);
    CopyMessage(generator, k, message, codeword);
    ghost var bits := BitsOf(codeword[..]);
    var colMask := ByteMask(k % 8);
    var colIdx := |message| - 1;
    ghost var bit := k % 8;
    for i := 0 to m
      invariant 0 <= bit < 8 && 8 * colIdx + bit == k + i && colMask == ByteMask(bit)
      invariant bits == BitsOf(codeword[..]) && |bits| == 8 * codeword.Length
      invariant forall n :: 0 <= n < |bits| ==> bits[n] == (n < k + i && code[n])
    {
      StoreChecksum(generator, k, message, i, codeword, colIdx, colMask, bit);
      bits := bits[k + i := code[k + i]];
      NextPlaceIs(colIdx, bit);
      var place := NextPlace(colIdx, colMask);
      colIdx, colMask := place.0, place.1;
      bit := if bit == 7 then 0 else bit + 1;
    }
  }

  /** Compute checksum bit i and set it, in a place that is still clear, when it is odd. */
  method StoreChecksum(generator: seq<seq<bv8>>, k: nat, message: seq<bv8>, i: nat,
                       codeword: array<bv8>, colIdx: nat, colMask: bv8, ghost bit: nat)
    requires |message| == (k + 7) / 8 && i < |generator|
    requires forall i :: 0 <= i < |generator| ==> |generator[i]| == |message|
    requires forall j :: k <= j < 8 * |message| ==> !BitsOf(message)[j]
    requires bit < 8 && 8 * colIdx + bit == k + i && colIdx < codeword.Length && colMask == ByteMask(bit)
    requires !BitsOf(codeword[..])[k + i]
    modifies codeword
    ensures BitsOf(codeword[..]) == old(BitsOf(codeword[..]))[k + i := Codeword(ParityRows(generator, k), k, BitsOf(message)[..k])[k + i]]
  {
    hide Dot, BitsOf, BitAt, Or, ByteMask;
    var odd := ChecksumBit(generator[i], message, k);
    CodewordParts(ParityRows(generator, k), k, BitsOf(message)[..k], k + i);
    if odd {
      OrInto(codeword, colIdx, colMask, bit);
    }
  }

  /** Fill the codeword with the message and zeros. */
  method CopyMessage(ghost generator: seq<seq<bv8>>, k: nat, message: seq<bv8>, codeword: array<bv8>)
    requires |message| == (k + 7) / 8
    requires forall i :: 0 <= i < |generator| ==> |generator[i]| == |message|
    requires codeword.Length == (k + |generator| + 7) / 8
    requires forall j :: k <= j < 8 * |message| ==> !BitsOf(message)[j]
    modifies codeword
    ensures var code := Codeword(ParityRows(generator, k), k, BitsOf(message)[..k]);
      forall n :: 0 <= n < 8 * codeword.Length ==> BitsOf(codeword[..])[n] == (n < k && code[n])
  {
    hide BitsOf, Codeword;
    for j := 0 to codeword.Length
      invariant forall n :: 0 <= n < j ==> codeword[n] == if n < |message| then message[n] else 0
    {
      codeword[j] := if j < |message| then message[j] else 0;
    }
    StartBits(generator, k, message, codeword[..]);
  }

  /** `codeword[idx] |= mask`. */
  method OrInto(codeword: array<bv8>, idx: nat, mask: bv8, ghost bit: nat)
    requires idx < codeword.Length && bit < 8 && mask == ByteMask(bit)
    modifies codeword
    ensures BitsOf(codeword[..]) == old(BitsOf(codeword[..]))[8 * idx + bit := true]
  {
    hide BitsOf, BitAt, Or, ByteMask;
    SetBit(codeword[..], idx, bit);
    ghost var next := codeword[..][idx := Or(codeword[idx], mask)];
    codeword[idx] := Or(codeword[idx], mask);
    assert codeword[..] == next;
  }

  lemma StartBits(generator: seq<seq<bv8>>, k: nat, message: seq<bv8>, codeword: seq<bv8>)
    requires |message| == (k + 7) / 8
    requires forall i :: 0 <= i < |generator| ==> |generator[i]| == |message|
    requires |codeword| == (k + |generator| + 7) / 8
    requires forall j :: k <= j < 8 * |message| ==> !BitsOf(message)[j]
    requires forall n :: 0 <= n < |codeword| ==> codeword[n] == if n < |message| then message[n] else 0
    ensures var code := Codeword(ParityRows(generator, k), k, BitsOf(message)[..k]);
      forall n :: 0 <= n < 8 * |codeword| ==> BitsOf(codeword)[n] == (n < k && code[n])
  {
    hide Dot, BitsOf, BitAt;
    var code := Codeword(ParityRows(generator, k), k, BitsOf(message)[..k]);
    forall n | 0 <= n < 8 * |codeword|
      ensures BitsOf(codeword)[n] == (n < k && code[n])
    {
      BitOfByte(codeword, n / 8, n % 8);
      if n < k {
        CodewordParts(ParityRows(generator, k), k, BitsOf(message)[..k], n);
      }
      if n < 8 * |message| {
        BitOfByte(message, n / 8, n % 8);
      } else {
        ZeroByte(n % 8);
      }
    }
  }
}
