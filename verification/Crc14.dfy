/** The FT8/FT4 CRC-14: a packed shift register on one side, long division of a bit array on
    the other, and the routines that append and check it. */
module Crc14 {
  import opened Bits
  import opened PolynomialDivision

  const FTX_CRC_POLYNOMIAL: bv16 := 0x2757

  function Mask(j: nat): bv16
    requires j < 14
  {
    [0x2000, 0x1000, 0x800, 0x400, 0x200, 0x100, 0x80, 0x40, 0x20, 0x10, 8, 4, 2, 1][j]
  }

  /** Bit j, counted from the top, of the low 14 bits of a register. */
  function RegBit(w: bv16, j: nat): bool
    requires j < 14
  {
    w & Mask(j) != 0
  }

  function Xor(a: bv16, b: bv16): bv16 {
    a ^ b
  }

  function Up(w: bv16): bv16 {
    w << 1
  }

  function Widen(b: bv8): bv16 {
    (b as bv16) << 6
  }

  /** Try to divide the current bit. The register is not masked: bits 14 and 15 collect garbage. */
  function ShiftRegister(rem: bv16): bv16 {
    if RegBit(rem, 0) then Xor(Up(rem), FTX_CRC_POLYNOMIAL) else Up(rem)
  }

  // ----- the register, bit by bit

  predicate OneBit(m: bv16) {
    m != 0 && m & (m - 1) == 0
  }

  lemma MaskFacts(j: nat)
    requires j < 14
    ensures OneBit(Mask(j)) && Mask(j) <= 0x2000
    ensures Mask(j) >> 1 == if j == 13 then 0 else Mask(j + 1)
    ensures ((Mask(j) >> 6) & 0xff) as bv8 == if j < 8 then ByteMask(j) else 0
  {
  }

  lemma OneBitAnd(x: bv16, m: bv16)
    requires OneBit(m)
    ensures x & m == 0 || x & m == m
  {
  }

  lemma XorAnd(a: bv16, b: bv16, m: bv16)
    ensures Xor(a, b) & m == Xor(a & m, b & m)
  {
  }

  lemma XorCases(m: bv16)
    ensures Xor(0, 0) == 0 && Xor(m, 0) == m && Xor(0, m) == m && Xor(m, m) == 0
  {
  }

  lemma XorBit(a: bv16, b: bv16, j: nat)
    requires j < 14
    ensures RegBit(Xor(a, b), j) == (RegBit(a, j) != RegBit(b, j))
  {
    hide Xor, Mask;
    MaskFacts(j);
    XorAnd(a, b, Mask(j));
    OneBitAnd(a, Mask(j));
    OneBitAnd(b, Mask(j));
    XorCases(Mask(j));
  }

  lemma UpMask(w: bv16, m: bv16)
    requires OneBit(m)
    ensures (Up(w) & m != 0) == (w & (m >> 1) != 0)
  {
  }

  lemma UpBit(w: bv16, j: nat)
    requires j < 14
    ensures RegBit(Up(w), j) == (j < 13 && RegBit(w, j + 1))
  {
    hide Up, Mask;
    MaskFacts(j);
    UpMask(w, Mask(j));
  }

  lemma WidenMask(b: bv8, m: bv16)
    requires OneBit(m) && m <= 0x2000
    ensures (Widen(b) & m != 0) == (b & (((m >> 6) & 0xff) as bv8) != 0)
  {
  }

  lemma WidenBit(b: bv8, j: nat)
    requires j < 14
    ensures RegBit(Widen(b), j) == (j < 8 && BitAt(b, j))
  {
    hide Widen, Mask, ByteMask;
    MaskFacts(j);
    WidenMask(b, Mask(j));
  }

  lemma AndZero(b: bv8, w: bv16)
    ensures b & 0 == 0 && 0 & w == 0
  {
  }

  lemma NoBits(w: bv16)
    requires w & 0xC000 == 0
    requires w & 0x2000 == 0 && w & 0x1000 == 0 && w & 0x800 == 0 && w & 0x400 == 0 && w & 0x200 == 0 && w & 0x100 == 0 && w & 0x80 == 0
    requires w & 0x40 == 0 && w & 0x20 == 0 && w & 0x10 == 0 && w & 8 == 0 && w & 4 == 0 && w & 2 == 0 && w & 1 == 0
    ensures w == 0
  {
  }

  lemma NoRegBits(w: bv16)
    requires w & 0xC000 == 0 && forall j :: 0 <= j < 14 ==> !RegBit(w, j)
    ensures w == 0
  {
    assert !RegBit(w, 0) && !RegBit(w, 1) && !RegBit(w, 2) && !RegBit(w, 3) && !RegBit(w, 4) && !RegBit(w, 5) && !RegBit(w, 6);
    assert !RegBit(w, 7) && !RegBit(w, 8) && !RegBit(w, 9) && !RegBit(w, 10) && !RegBit(w, 11) && !RegBit(w, 12) && !RegBit(w, 13);
    NoBits(w);
  }

  lemma XorHigh(a: bv16, b: bv16)
    requires a & 0xC000 == 0 && b & 0xC000 == 0
    ensures Xor(a, b) & 0xC000 == 0
    ensures Xor(a, b) == 0 ==> a == b
  {
  }

  /** Two 14-bit words are equal when their bits are. */
  lemma SameWord(a: bv16, b: bv16)
    requires a & 0xC000 == 0 && b & 0xC000 == 0
    requires forall j :: 0 <= j < 14 ==> RegBit(a, j) == RegBit(b, j)
    ensures a == b
  {
    hide Xor, RegBit;
    XorHigh(a, b);
    forall j | 0 <= j < 14
      ensures !RegBit(Xor(a, b), j)
    {
      XorBit(a, b, j);
    }
    NoRegBits(Xor(a, b));
  }

  // ----- both computations give the remainder

  /** The divisor below its leading one. */
  function Poly(): (poly: Flags)
    ensures |poly| == 14
  {
    [true, false, false, true, true, true, false, true, false, true, false, true, true, true]
  }

  lemma PolyIsConstant(j: nat)
    requires j < 14
    ensures RegBit(FTX_CRC_POLYNOMIAL, j) == Poly()[j]
  {
  }

  /** Bits of the current byte that were brought in but not yet divided. */
  ghost predicate Pending(bits: Flags, i: nat, j: nat) {
    i % 8 != 0 && j < 8 - i % 8 && i + j < |bits| && bits[i + j]
  }

  /** The packed register after i bits. */
  ghost predicate IsRegister(rem: bv16, bits: Flags, i: nat)
    requires i <= |bits|
  {
    forall j :: 0 <= j < 14 ==> RegBit(rem, j) == (Remainder(Poly(), bits[..i])[j] != Pending(bits, i, j))
  }

  lemma BringInStep(rem: bv16, message: seq<bv8>, n: nat, j: nat)
    requires n < |message| && IsRegister(rem, BitsOf(message), 8 * n) && j < 14
    ensures RegBit(Xor(rem, Widen(message[n])), j)
      == (Remainder(Poly(), BitsOf(message)[..8 * n])[j] != (j < 8 && BitsOf(message)[8 * n + j]))
  {
    hide Xor, Widen, RegBit, BitAt, BitsOf;
    XorBit(rem, Widen(message[n]), j);
    WidenBit(message[n], j);
    if j < 8 {
      BitOfByte(message, n, j);
    }
  }

  lemma DivideStep(rem: bv16, bits: Flags, i: nat, next: bv16)
    requires i < |bits| && |bits| % 8 == 0 && next == ShiftRegister(rem)
    requires forall j :: 0 <= j < 14 ==>
      RegBit(rem, j) == (Remainder(Poly(), bits[..i])[j] != (j < 8 - i % 8 && bits[i + j]))
    ensures IsRegister(next, bits, i + 1)
  {
    hide Xor, Up, RegBit;
    assert bits[..i + 1][..i] == bits[..i];
    forall j | 0 <= j < 14
      ensures RegBit(next, j) == (Remainder(Poly(), bits[..i + 1])[j] != Pending(bits, i + 1, j))
    {
      UpBit(rem, j);
      XorBit(Up(rem), FTX_CRC_POLYNOMIAL, j);
      PolyIsConstant(j);
    }
  }

  // ----- the 91-bit word in 12 bytes: 77 payload bits, 14 CRC bits, 5 bits unused

  /** `((a & 0x07) << 11) | (b << 3) | (c >> 5)`. */
  function Extract(a: bv8, b: bv8, c: bv8): bv16 {
    (((a & 7) as bv16) << 11) | ((b as bv16) << 3) | ((c >> 5) as bv16)
  }

  function Store9(payload: bv8, crc: bv16): bv8 {
    (payload & 0xF8) | (((crc >> 11) & 0xff) as bv8)
  }

  function Store10(crc: bv16): bv8 {
    ((crc >> 3) & 0xff) as bv8
  }

  function Store11(crc: bv16): bv8 {
    ((crc << 5) & 0xff) as bv8
  }

  lemma ExtractMasks(a: bv8, b: bv8, c: bv8, m: bv16)
    requires OneBit(m)
    ensures 0x800 <= m <= 0x2000 ==> (Extract(a, b, c) & m != 0) == (a & (((m >> 11) & 0xff) as bv8) != 0)
    ensures 8 <= m <= 0x400 ==> (Extract(a, b, c) & m != 0) == (b & (((m >> 3) & 0xff) as bv8) != 0)
    ensures m <= 4 ==> (Extract(a, b, c) & m != 0) == (c & (((m << 5) & 0xff) as bv8) != 0)
    ensures Extract(a, b, c) & 0xC000 == 0
  {
  }

  lemma ExtractMaskFacts(j: nat)
    requires j < 14
    ensures j < 3 ==> 0x800 <= Mask(j) <= 0x2000 && ((Mask(j) >> 11) & 0xff) as bv8 == ByteMask(j + 5)
    ensures 3 <= j < 11 ==> 8 <= Mask(j) <= 0x400 && ((Mask(j) >> 3) & 0xff) as bv8 == ByteMask(j - 3)
    ensures 11 <= j ==> Mask(j) <= 4 && ((Mask(j) << 5) & 0xff) as bv8 == ByteMask(j - 11)
  {
  }

  lemma ExtractBit(a: bv8, b: bv8, c: bv8, j: nat)
    requires j < 14
    ensures RegBit(Extract(a, b, c), j) == if j < 3 then BitAt(a, j + 5) else if j < 11 then BitAt(b, j - 3) else BitAt(c, j - 11)
    ensures Extract(a, b, c) & 0xC000 == 0
  {
    hide Extract, Mask, ByteMask;
    MaskFacts(j);
    ExtractMaskFacts(j);
    ExtractMasks(a, b, c, Mask(j));
  }

  lemma StoreMasks(payload: bv8, crc: bv16, m: bv16)
    requires OneBit(m) && crc & 0xC000 == 0
    ensures 0x800 <= m <= 0x2000 ==> (Store9(payload, crc) & (((m >> 11) & 0xff) as bv8) != 0) == (crc & m != 0)
    ensures 8 <= m <= 0x400 ==> (Store10(crc) & (((m >> 3) & 0xff) as bv8) != 0) == (crc & m != 0)
    ensures m <= 4 ==> (Store11(crc) & (((m << 5) & 0xff) as bv8) != 0) == (crc & m != 0)
  {
  }

  lemma StoreBit(payload: bv8, crc: bv16, j: nat)
    requires j < 14 && crc & 0xC000 == 0
    ensures (if j < 3 then BitAt(Store9(payload, crc), j + 5) else if j < 11 then BitAt(Store10(crc), j - 3)
             else BitAt(Store11(crc), j - 11)) == RegBit(crc, j)
  {
    hide Store9, Store10, Store11, Mask, ByteMask;
    MaskFacts(j);
    ExtractMaskFacts(j);
    StoreMasks(payload, crc, Mask(j));
  }

  lemma StoreRest(payload: bv8, crc: bv16, i: nat)
    requires i < 8 && crc & 0xC000 == 0
    ensures i < 5 ==> BitAt(Store9(payload, crc), i) == BitAt(payload, i)
    ensures i >= 3 ==> !BitAt(Store11(crc), i)
    ensures BitAt(payload & 0xF8, i) == (i < 5 && BitAt(payload, i))
    ensures !BitAt(0, i)
  {
  }

  /** Packed CRC of the first numBits bits of a message, 14 bits. */
  method ComputeCrc(message: seq<bv8>, numBits: nat) returns (crc: bv16)
    requires numBits <= 8 * |message|
    ensures crc & 0xC000 == 0 && IsRegister(crc, BitsOf(message), numBits)
  {
    hide RegBit, Xor, Widen, ShiftRegister, BitsOf, Remainder, Poly;
    var remainder: bv16 := 0;
    var idxByte := 0;
    ghost var bits := BitsOf(message);
    ZeroRegister(bits);
    for i := 0 to numBits
      invariant idxByte == (i + 7) / 8
      invariant IsRegister(remainder, bits, i)
    {
      ghost var before := remainder;
      if i % 8 == 0 {
        forall j | 0 <= j < 14
          ensures RegBit(Xor(before, Widen(message[idxByte])), j)
            == (Remainder(Poly(), bits[..i])[j] != (j < 8 && bits[i + j]))
        {
          BringInStep(before, message, idxByte, j);
        }
        remainder := Xor(remainder, Widen(message[idxByte]));
        idxByte := idxByte + 1;
      }
      DivideStep(remainder, bits, i, ShiftRegister(remainder));
      remainder := ShiftRegister(remainder);
    }
    KeepLow(remainder, bits, numBits);
    crc := remainder & 0x3FFF;
  }

  lemma ZeroRegister(bits: Flags)
    ensures IsRegister(0, bits, 0)
  {
    forall j | 0 <= j < 14
      ensures !RegBit(0, j)
    {
      AndZero(0, Mask(j));
    }
  }

  lemma LowBits(w: bv16, j: nat)
    requires j < 14
    ensures RegBit(w & 0x3FFF, j) == RegBit(w, j) && (w & 0x3FFF) & 0xC000 == 0
  {
    MaskFacts(j);
    assert Mask(j) & 0x3FFF == Mask(j);
  }

  lemma KeepLow(w: bv16, bits: Flags, i: nat)
    requires i <= |bits| && IsRegister(w, bits, i)
    ensures IsRegister(w & 0x3FFF, bits, i) && (w & 0x3FFF) & 0xC000 == 0
  {
    hide RegBit;
    LowBits(w, 0);
    forall j | 0 <= j < 14
      ensures RegBit(w & 0x3FFF, j) == RegBit(w, j)
    {
      LowBits(w, j);
    }
  }

  // ----- the two checkers and the encoder's step

  const PAYLOAD_BITS := 77
  const WORD_BITS := 91

  /** The payload zero-extended to 82 bits. */
  function Extended(bits: Flags): (padded: Flags)
    requires |bits| >= PAYLOAD_BITS
    ensures |padded| == 82
  {
    bits[..PAYLOAD_BITS] + [false, false, false, false, false]
  }

  /** The 14 bits after the payload are the remainder of the extended payload. */
  predicate Accepted(word: Flags)
    requires |word| >= WORD_BITS
  {
    word[PAYLOAD_BITS..WORD_BITS] == Remainder(Poly(), Extended(word))
  }

  /** The first 77 bits, then zeros. */
  ghost function Cleared(bits: Flags, n: nat): (cleared: Flags)
    requires |bits| >= PAYLOAD_BITS || |bits| >= n
    ensures |cleared| == n
  {
    seq(n, i requires 0 <= i < n => i < PAYLOAD_BITS && bits[i])
  }

  /** CRC of a bit array by long division in place (`ftx_crc`). */
  method ArrayCrc(msg1: seq<bool>, msglen: nat) returns (out: seq<bool>)
    requires msglen <= 83 && (|msg1| >= PAYLOAD_BITS || |msg1| >= msglen + 14)
    ensures out == Residue(Poly(), Cleared(msg1, msglen + 14))
  {
    hide Residue, Divide;
    var div := [true, true, false, false, true, true, true, false, true, false, true, false, true, true, true];
    ghost var start := Cleared(msg1, msglen + 14);
    var msg := new bool[97];
    for i := 0 to msglen + 14
      invariant forall k :: 0 <= k < i ==> msg[k] == (k < PAYLOAD_BITS && msg1[k])
    {
      msg[i] := if i < PAYLOAD_BITS then msg1[i] else false;
    }
    assert msg[..msglen + 14] == start;
    CancelStarts(start);
    for i := 0 to msglen
      invariant msg[..msglen + 14] == Divide(start, Poly(), i)
    {
      ghost var before := msg[..msglen + 14];
      if msg[i] {
        Subtract(msg, div, i);
      }
      CancelStep(start, before, msg[..msglen + 14], div, i);
    }
    DivisionIsResidue(start, Poly());
    out := msg[msglen..msglen + 14];
    assert out == msg[..msglen + 14][msglen..];
  }

  lemma CancelStarts(start: Flags)
    requires |start| >= 14
    ensures Divide(start, Poly(), 0) == start
  {
  }

  lemma CancelStep(start: Flags, before: Flags, after: Flags, div: seq<bool>, i: nat)
    requires |start| == |before| == |after| && i + 14 < |start| && div == [true] + Poly()
    requires before == Divide(start, Poly(), i)
    requires forall k :: 0 <= k < |after| ==> after[k] == (before[k] != (before[i] && i <= k < i + 15 && div[k - i]))
    ensures after == Divide(start, Poly(), i + 1)
  {
    forall k | 0 <= k < |after|
      ensures after[k] == Cancel(before, Poly(), i)[k]
    {
      CancelAt(before, Poly(), i, k);
    }
  }

  /** XOR the divisor onto the array at position i. */
  method Subtract(msg: array<bool>, div: seq<bool>, i: nat)
    requires |div| == 15 && i + 15 <= msg.Length
    modifies msg
    ensures forall k :: 0 <= k < msg.Length ==>
      msg[k] == (old(msg[k]) != (i <= k < i + 15 && div[k - i]))
  {
    for j := 0 to 15
      invariant forall k :: 0 <= k < msg.Length ==>
        msg[k] == (old(msg[k]) != (i <= k < i + j && div[k - i]))
    {
      msg[i + j] := msg[i + j] != div[j];
    }
  }

  /** `ftx_check_crc`: 91 bits, one per element. */
  method CheckBits(a91: seq<bool>) returns (ok: bool)
    requires |a91| == WORD_BITS
    ensures ok == Accepted(a91)
  {
    var out1 := ArrayCrc(a91, 82);
    ResidueOfPadded(Poly(), Cleared(a91, 96));
    assert Cleared(a91, 96)[..82] == Extended(a91);
    for i := 0 to 14
      invariant forall k :: 0 <= k < i ==> out1[k] == a91[PAYLOAD_BITS + k]
    {
      if out1[i] != a91[PAYLOAD_BITS + i] {
        assert a91[PAYLOAD_BITS..WORD_BITS][i] != out1[i];
        return false;
      }
    }
    assert a91[PAYLOAD_BITS..WORD_BITS] == out1;
    return true;
  }

  /** The 82 bits of a packed word with everything after the payload cleared. */
  lemma ClearedBits(word: seq<bv8>, tmp: seq<bv8>)
    requires |word| == |tmp| == 12 && tmp == word[..9] + [word[9] & 0xF8, 0, 0]
    ensures BitsOf(tmp)[..82] == Extended(BitsOf(word))
    ensures forall k :: 82 <= k < 96 ==> !BitsOf(tmp)[k]
  {
    hide BitAt, BitsOf;
    forall k | 0 <= k < 96
      ensures BitsOf(tmp)[k] == (k < PAYLOAD_BITS && BitsOf(word)[k])
    {
      var n, i := k / 8, k % 8;
      BitOfByte(tmp, n, i);
      BitOfByte(word, n, i);
      StoreRest(word[9], 0, i);
    }
  }

  /** With nothing pending the packed register is the remainder of the extended payload. */
  lemma ExtendedRegister(word: seq<bv8>, tmp: seq<bv8>, crc: bv16)
    requires |word| == |tmp| == 12 && tmp == word[..9] + [word[9] & 0xF8, 0, 0]
    requires IsRegister(crc, BitsOf(tmp), 82)
    ensures forall j :: 0 <= j < 14 ==> RegBit(crc, j) == Remainder(Poly(), Extended(BitsOf(word)))[j]
  {
    hide RegBit, BitsOf, Remainder;
    ClearedBits(word, tmp);
    forall j | 0 <= j < 14
      ensures !Pending(BitsOf(tmp), 82, j)
    {
    }
  }

  lemma ExtractedBit(word: seq<bv8>, j: nat)
    requires |word| == 12 && j < 14
    ensures RegBit(Extract(word[9], word[10], word[11]), j) == BitsOf(word)[PAYLOAD_BITS + j]
    ensures Extract(word[9], word[10], word[11]) & 0xC000 == 0
  {
    hide BitAt, RegBit, Extract, BitsOf;
    ExtractBit(word[9], word[10], word[11], j);
    var k := PAYLOAD_BITS + j;
    BitOfByte(word, k / 8, k % 8);
  }

  /** The verdict depends on the 91 bits of the word only, so the packed and the unpacked form agree. */
  lemma AcceptedPrefix(a: Flags, b: Flags)
    requires |a| >= WORD_BITS && |b| >= WORD_BITS && a[..WORD_BITS] == b[..WORD_BITS]
    ensures Accepted(a) <==> Accepted(b)
  {
    hide Remainder;
    assert forall n :: 0 <= n < WORD_BITS ==> a[n] == a[..WORD_BITS][n] && b[n] == b[..WORD_BITS][n];
    assert Extended(a) == Extended(b);
    assert a[PAYLOAD_BITS..WORD_BITS] == b[PAYLOAD_BITS..WORD_BITS];
  }

  /** `ftx_check_crc_packed`: 12 bytes, 91 bits used. */
  method CheckPacked(a91: seq<bv8>) returns (ok: bool)
    requires |a91| == 12
    ensures ok == Accepted(BitsOf(a91))
  {
    hide RegBit, Extract, BitsOf, Remainder;
    var stored := Extract(a91[9], a91[10], a91[11]);
    var tmp := a91[..9] + [a91[9] & 0xF8, 0, 0];
    var computed := ComputeCrc(tmp, 82);
    ok := stored == computed;
    ExtendedRegister(a91, tmp, computed);
    CompareWords(a91, stored, computed);
  }

  lemma CompareWords(word: seq<bv8>, stored: bv16, computed: bv16)
    requires |word| == 12 && stored == Extract(word[9], word[10], word[11])
    requires computed & 0xC000 == 0
    requires forall j :: 0 <= j < 14 ==> RegBit(computed, j) == Remainder(Poly(), Extended(BitsOf(word)))[j]
    ensures stored == computed <==> Accepted(BitsOf(word))
  {
    hide RegBit, Extract, BitsOf, Remainder;
    ExtractedBit(word, 0);
    var bits := BitsOf(word);
    var crc := Remainder(Poly(), Extended(bits));
    forall j | 0 <= j < 14
      ensures RegBit(stored, j) == bits[PAYLOAD_BITS..WORD_BITS][j]
    {
      ExtractedBit(word, j);
    }
    if stored == computed {
      assert bits[PAYLOAD_BITS..WORD_BITS] == crc;
    }
    if bits[PAYLOAD_BITS..WORD_BITS] == crc {
      SameWord(stored, computed);
    }
  }

  /** `ftx_add_crc`: the payload, then its CRC, in 12 bytes. */
  method AddCrc(payload: seq<bv8>, a91: array<bv8>)
    requires |payload| >= 10 && a91.Length >= 12
    modifies a91
    ensures IsWordOf(a91[..12], payload)
  {
    hide RegBit, BitsOf, Remainder, Store9, Store10, Store11, BitAt, IsRegister, Accepted, Extended, Poly, IsWordOf;
    for i := 0 to 10
      invariant forall k :: 0 <= k < i ==> a91[k] == payload[k]
    {
      a91[i] := payload[i];
    }
    a91[9] := a91[9] & 0xF8;
    a91[10] := 0;
    ghost var word := payload[..10] + [0, 0];
    var message := a91[..11] + [0];
    assert message == word[..9] + [word[9] & 0xF8, 0, 0];
    var checksum := ComputeCrc(message, 82);
    ExtendedRegister(word, message, checksum);
    a91[9] := Store9(a91[9], checksum);
    a91[10] := Store10(checksum);
    a91[11] := Store11(checksum);
    SamePrefix(word, payload);
    Assembled(payload, checksum, a91[..12]);
  }

  lemma SamePrefix(a: seq<bv8>, b: seq<bv8>)
    requires |a| >= 10 && |b| >= 10 && a[..10] == b[..10]
    ensures Extended(BitsOf(a)) == Extended(BitsOf(b))
  {
    hide BitAt, BitsOf;
    forall k | 0 <= k < PAYLOAD_BITS
      ensures BitsOf(a)[k] == BitsOf(b)[k]
    {
      BitOfByte(a, k / 8, k % 8);
      BitOfByte(b, k / 8, k % 8);
      assert a[k / 8] == a[..10][k / 8];
    }
  }

  /** The word carries the payload, is accepted, and has its unused bits clear. */
  ghost predicate IsWordOf(word: seq<bv8>, payload: seq<bv8>)
    requires |payload| >= 10
  {
    && |word| == 12
    && BitsOf(word)[..PAYLOAD_BITS] == BitsOf(payload)[..PAYLOAD_BITS]
    && Accepted(BitsOf(word))
    && forall k :: WORD_BITS <= k < 96 ==> !BitsOf(word)[k]
  }

  lemma AssembledBits(payload: seq<bv8>, crc: bv16, word: seq<bv8>, k: nat)
    requires |payload| >= 10 && |word| == 12 && crc & 0xC000 == 0 && k < 96
    requires word == payload[..9] + [Store9(payload[9] & 0xF8, crc), Store10(crc), Store11(crc)]
    ensures BitsOf(word)[k] ==
      if k < PAYLOAD_BITS then BitsOf(payload)[k] else k < WORD_BITS && RegBit(crc, k - PAYLOAD_BITS)
  {
    hide RegBit, BitsOf, Store9, Store10, Store11, BitAt;
    var n, i := k / 8, k % 8;
    BitOfByte(word, n, i);
    if k < 80 {
      BitOfByte(payload, n, i);
    }
    StoreRest(payload[9], crc, i);
    StoreRest(payload[9] & 0xF8, crc, i);
    if PAYLOAD_BITS <= k < WORD_BITS {
      StoreBit(payload[9] & 0xF8, crc, k - PAYLOAD_BITS);
    }
  }

  lemma Assembled(payload: seq<bv8>, crc: bv16, word: seq<bv8>)
    requires |payload| >= 10 && |word| == 12 && crc & 0xC000 == 0
    requires word == payload[..9] + [Store9(payload[9] & 0xF8, crc), Store10(crc), Store11(crc)]
    requires forall j :: 0 <= j < 14 ==> RegBit(crc, j) == Remainder(Poly(), Extended(BitsOf(payload)))[j]
    ensures IsWordOf(word, payload)
  {
    hide RegBit, BitsOf, Store9, Store10, Store11, Remainder;
    var bits := BitsOf(word);
    forall k | 0 <= k < 96
      ensures bits[k] == if k < PAYLOAD_BITS then BitsOf(payload)[k] else k < WORD_BITS && RegBit(crc, k - PAYLOAD_BITS)
    {
      AssembledBits(payload, crc, word, k);
    }
    assert bits[..PAYLOAD_BITS] == BitsOf(payload)[..PAYLOAD_BITS];
    assert Extended(bits) == Extended(BitsOf(payload));
    assert bits[PAYLOAD_BITS..WORD_BITS] == Remainder(Poly(), Extended(bits));
  }

  /** There is exactly one word for a payload: whatever accepted word, with its unused bits clear,
      carries these 77 bits is the one that `AddCrc` builds. */
  lemma WordUnique(a: seq<bv8>, b: seq<bv8>, payload: seq<bv8>)
    requires |payload| >= 10 && IsWordOf(a, payload) && IsWordOf(b, payload)
    ensures a == b
  {
    hide BitsOf, Remainder;
    var x, y := BitsOf(a), BitsOf(b);
    assert Extended(x) == Extended(y);
    forall k | 0 <= k < 96
      ensures x[k] == y[k]
    {
      if k < PAYLOAD_BITS {
        assert x[k] == x[..PAYLOAD_BITS][k] == y[..PAYLOAD_BITS][k];
      } else if k < WORD_BITS {
        assert x[PAYLOAD_BITS..WORD_BITS][k - PAYLOAD_BITS] == y[PAYLOAD_BITS..WORD_BITS][k - PAYLOAD_BITS];
      }
    }
    SameBytes(a, b);
  }
}
