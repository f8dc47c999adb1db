/** The FST4/FST4W CRC-24, computed bit by bit in a 25-element window. */
module Crc24 {
  import opened Bits
  import opened PolynomialDivision

  /** The divisor 0x100065B below its leading one. */
  function Poly(): (poly: Flags)
    ensures |poly| == 24
  {
    [false, false, false, false, false, false, false, false, false, false, false, false, false,
     true, true, false, false, true, false, true, true, false, true, true]
  }

  /** `crc = (crc << 1) | r[i]` over all bits, first bit highest. */
  function WordOf(bits: Flags): bv32 {
    if bits == [] then 0 else Append(WordOf(bits[..|bits| - 1]), bits[|bits| - 1])
  }

  function Append(w: bv32, bit: bool): bv32 {
    if bit then (w << 1) | 1 else w << 1
  }

  /** n ones. */
  function Ones(n: nat): bv32 {
    if n == 0 then 0 else Append(Ones(n - 1), true)
  }

  predicate Within(w: bv32, mask: bv32) {
    w & !mask == 0
  }

  lemma AppendWithin(w: bv32, mask: bv32, bit: bool)
    requires Within(w, mask)
    ensures Within(Append(w, bit), Append(mask, true))
  {
    hide Within;
    if bit {
      AppendOneWithin(w, mask);
    } else {
      AppendZeroWithin(w, mask);
    }
  }

  lemma AppendOneWithin(w: bv32, mask: bv32)
    requires Within(w, mask)
    ensures Within((w << 1) | 1, (mask << 1) | 1)
  {
  }

  lemma AppendZeroWithin(w: bv32, mask: bv32)
    requires Within(w, mask)
    ensures Within(w << 1, (mask << 1) | 1)
  {
  }

  lemma {:induction false} WordWithin(bits: Flags)
    ensures Within(WordOf(bits), Ones(|bits|))
  {
    hide Append, Within;
    if bits == [] {
      EmptyWithin();
    } else {
      var earlier := bits[..|bits| - 1];
      WordWithin(earlier);
      AppendWithin(WordOf(earlier), Ones(|earlier|), bits[|bits| - 1]);
    }
  }

  lemma EmptyWithin()
    ensures Within(0, 0)
  {
  }

  lemma TwentyFourOnes()
    ensures Ones(24) == 0xFFFFFF
  {
    assert Ones(6) == 0x3F;
    assert Ones(12) == 0xFFF;
    assert Ones(18) == 0x3FFFF;
  }

  /** The CRC-24 of a message followed by 24 zeros. */
  function CrcOf(payload: Flags): bv32 {
    WordOf(Remainder(Poly(), payload))
  }

  lemma CrcFits(payload: Flags)
    ensures Within(CrcOf(payload), 0xFFFFFF)
  {
    hide Within;
    WordWithin(Remainder(Poly(), payload));
    TwentyFourOnes();
  }

  // ----- the CRC word bit by bit

  predicate Odd(w: bv32) {
    w & 1 != 0
  }

  function Half(w: bv32): bv32 {
    w >> 1
  }

  /** One more bit moves the others up and takes the lowest place. */
  lemma AppendedBit(w: bv32, bit: bool, ones: bv32)
    requires Within(w, ones) && Within(ones, 0xFFFFFF)
    ensures (Odd(Append(w, bit)) <==> bit) && Half(Append(w, bit)) == w
  {
  }

  /** The lowest place of the word is the last bit, and the places above it are the word of the others. */
  lemma WordLast(bits: Flags)
    requires 0 < |bits| <= 24
    ensures var n := |bits| - 1;
      (Odd(WordOf(bits)) <==> bits[n]) && Half(WordOf(bits)) == WordOf(bits[..n])
  {
    hide Append, Within, WordOf, Ones, Odd, Half;
    var n := |bits| - 1;
    OneMore(bits, n);
    assert bits[..n + 1] == bits;
    WordWithin(bits[..n]);
    OnesFit(n);
    AppendedBit(WordOf(bits[..n]), bits[n], Ones(n));
  }

  lemma OnesFit(n: nat)
    requires n <= 24
    ensures Within(Ones(n), 0xFFFFFF)
  {
    hide Append;
    OnesBelow(n, 24);
    TwentyFourOnes();
  }

  lemma {:induction false} OnesBelow(n: nat, m: nat)
    requires n <= m
    ensures Within(Ones(n), Ones(m))
    decreases m
  {
    hide Append;
    if n == m {
      Itself(Ones(n));
    } else if n == 0 {
      NoneWithin(Ones(m));
    } else {
      OnesBelow(n - 1, m - 1);
      AppendWithin(Ones(n - 1), Ones(m - 1), true);
    }
  }

  lemma NoneWithin(mask: bv32)
    ensures Within(0, mask)
  {
  }

  lemma Itself(w: bv32)
    ensures Within(w, w)
  {
  }

  /** The divisor is the constant the source names. */
  lemma PolyIsConstant()
    ensures WordOf(Poly()) == 0x00065B
  {
    var poly := Poly();
    hide Append, WordOf;
    assert WordOf(poly[..13]) == 0 by {
      LeadingZeros(poly[..13]);
    }
    PolyTail(WordOf(poly[..13]));
    OneMore(poly, 13);
    OneMore(poly, 14);
    OneMore(poly, 15);
    OneMore(poly, 16);
    OneMore(poly, 17);
    OneMore(poly, 18);
    OneMore(poly, 19);
    OneMore(poly, 20);
    OneMore(poly, 21);
    OneMore(poly, 22);
    OneMore(poly, 23);
    assert poly[..24] == poly;
  }

  lemma OneMore(bits: Flags, n: nat)
    requires n < |bits|
    ensures WordOf(bits[..n + 1]) == Append(WordOf(bits[..n]), bits[n])
  {
    hide Append;
    assert bits[..n + 1][..n] == bits[..n];
  }

  lemma {:induction false} LeadingZeros(bits: Flags)
    requires forall j :: 0 <= j < |bits| ==> !bits[j]
    ensures WordOf(bits) == 0
  {
    if bits == [] {
    } else {
      LeadingZeros(bits[..|bits| - 1]);
    }
  }

  lemma PolyTail(w: bv32)
    requires w == 0
    ensures var w4 := Append(Append(Append(Append(w, true), true), false), false);
      var w8 := Append(Append(Append(Append(w4, true), false), true), true);
      Append(Append(Append(w8, false), true), true) == 0x00065B
  {
  }

  /** The window before step i, once its last element is loaded. */
  ghost predicate IsWindow(r: array<bool>, work: Flags, i: nat, loaded: nat)
    reads r
  {
    r.Length == 25 && loaded <= 25 && i + loaded <= |work| && forall j :: 0 <= j < loaded ==> r[j] == work[i + j]
  }

  /** XOR the divisor onto the window. */
  method Subtract(r: array<bool>, poly: seq<bool>)
    requires r.Length == |poly| == 25
    modifies r
    ensures forall k :: 0 <= k < 25 ==> r[k] == (old(r[k]) != poly[k])
  {
    for j := 0 to 25
      invariant forall k :: 0 <= k < 25 ==> r[k] == (old(r[k]) != (k < j && poly[k]))
    {
      r[j] := r[j] != poly[j];
    }
  }

  /** Circular shift left by one. */
  method Rotate(r: array<bool>)
    requires r.Length == 25
    modifies r
    ensures r[24] == old(r[0]) && forall k :: 0 <= k < 24 ==> r[k] == old(r[k + 1])
  {
    var tmp := r[0];
    for j := 0 to 24
      invariant forall k :: 0 <= k < 24 ==> r[k] == if k < j then old(r[k + 1]) else old(r[k])
      invariant r[24] == old(r[24])
    {
      r[j] := r[j + 1];
    }
    r[24] := tmp;
  }

  /** The window of a cancelled message is the window with the divisor added. */
  lemma CancelWindow(work: Flags, poly: Flags, i: nat, k: nat)
    requires |poly| == 24 && i + 24 < |work| && k < 25
    ensures Cancel(work, poly, i)[i + k] == (work[i + k] != (work[i] && ([true] + poly)[k]))
  {
    CancelAt(work, poly, i, i + k);
    hide Cancel;
    if k > 0 {
      assert ([true] + poly)[k] == poly[k - 1];
    }
  }

  /** Cancel the leading element with the divisor and rotate the window by one. */
  method Advance(r: array<bool>, ghost work: Flags, ghost i: nat)
    requires IsWindow(r, work, i, 25) && i + 24 < |work|
    modifies r
    ensures IsWindow(r, Cancel(work, Poly(), i), i + 1, 24)
  {
    hide Poly, Cancel;
    ghost var next := Cancel(work, Poly(), i);
    assert r[0] == work[i + 0];
    ghost var before := r[..];
    assert forall k :: 0 <= k < 25 ==> before[k] == r[k] == work[i + k];
    if r[0] {
      Subtract(r, [true] + Poly());
    }
    forall k | 0 <= k < 25 ensures r[k] == next[i + k] {
      CancelWindow(work, Poly(), i, k);
      assert before[k] == work[i + k] && before[0] == work[i + 0];
    }
    Rotate(r);
    assert forall k :: 0 <= k < 24 ==> r[k] == next[i + 1 + k];
  }

  /** Read the register, first element highest. */
  method PackWord(r: array<bool>) returns (crc: bv32)
    requires r.Length == 25
    ensures crc == WordOf(r[..24])
  {
    hide Append;
    crc := 0;
    for i := 0 to 24
      invariant crc == WordOf(r[..i])
    {
      assert r[..i + 1][..i] == r[..i];
      crc := Append(crc, r[i]);
    }
  }

  lemma DividedWindow(bits: Flags, n: nat, r: array<bool>)
    requires |bits| == n + 24 && IsWindow(r, Divide(bits, Poly(), n), n, 24)
    ensures r[..24] == Residue(Poly(), bits)
  {
    DivisionIsResidue(bits, Poly());
    assert r[..24] == Divide(bits, Poly(), n)[n..];
  }

  /** `fst4_compute_crc`. */
  method ComputeCrc(message: seq<bv8>, numBits: nat) returns (crc: bv32)
    requires 24 <= numBits <= 8 * |message|
    ensures crc == WordOf(Residue(Poly(), BitsOf(message)[..numBits]))
  {
    hide BitAt, Append, WordOf, Residue, Cancel, BitsOf;
    ghost var bits := BitsOf(message)[..numBits];
    var r := new bool[25];
    for i := 0 to if numBits < 25 then numBits else 25
      invariant IsWindow(r, bits, 0, i)
    {
      BitOfByte(message, i / 8, i % 8);
      r[i] := BitAt(message[i / 8], i % 8);
    }
    for i := 0 to numBits - 24
      invariant IsWindow(r, Divide(bits, Poly(), i), i, 24)
    {
      BitOfByte(message, (i + 24) / 8, (i + 24) % 8);
      WindowIsRegister(bits, Poly(), i);
      r[24] := BitAt(message[(i + 24) / 8], (i + 24) % 8);
      Advance(r, Divide(bits, Poly(), i), i);
    }
    DividedWindow(bits, numBits - 24, r);
    crc := PackWord(r);
  }

  /** Over a message followed by 24 zeros that is the remainder of the message. */
  lemma PaddedCrc(bits: Flags, numBits: nat)
    requires 24 <= numBits <= |bits| && forall k :: numBits - 24 <= k < numBits ==> !bits[k]
    ensures WordOf(Residue(Poly(), bits[..numBits])) == CrcOf(bits[..numBits - 24])
  {
    hide Residue, WordOf, Remainder;
    ResidueOfPadded(Poly(), bits[..numBits]);
    assert bits[..numBits][..numBits - 24] == bits[..numBits - 24];
  }

  // ----- FST4: 77 payload bits and 24 CRC bits in 13 bytes

  const FST4_PAYLOAD := 77

  function ExtractFst4(a: bv8, b: bv8, c: bv8, d: bv8): bv32 {
    (((a & 0x07) as bv32) << 21) | ((b as bv32) << 13) | ((c as bv32) << 5) | ((d >> 3) as bv32)
  }

  /** The bytes that end the word: what is left of the payload, then the CRC. */
  function StoreFst4(payload: bv8, crc: bv32): (bv8, bv8, bv8, bv8) {
    ((payload & 0xF8) | (((crc >> 21) & 0xff) as bv8), ((crc >> 13) & 0xff) as bv8,
     ((crc >> 5) & 0xff) as bv8, ((crc << 3) & 0xff) as bv8)
  }

  lemma StoredFst4(payload: bv8, crc: bv32)
    requires Within(crc, 0xFFFFFF)
    ensures var s := StoreFst4(payload, crc); ExtractFst4(s.0, s.1, s.2, s.3) == crc && s.3 & 7 == 0
    ensures StoreFst4(payload, crc).0 & 0xF8 == payload & 0xF8
  {
  }

  lemma RestoredFst4(a: bv8, b: bv8, c: bv8, d: bv8)
    requires d & 7 == 0
    ensures StoreFst4(a, ExtractFst4(a, b, c, d)) == (a, b, c, d)
  {
  }

  lemma KeptBitsFst4(a: bv8, b: bv8, i: nat)
    requires i < 8 && a & 0xF8 == b & 0xF8
    ensures i < 5 ==> BitAt(a, i) == BitAt(b, i)
    ensures BitAt(a & 0xF8, i) == (i < 5 && BitAt(a, i))
    ensures !BitAt(0, i)
  {
  }

  function Fst4Crc(word: seq<bv8>): bv32
    requires |word| >= 10
  {
    CrcOf(BitsOf(word)[..FST4_PAYLOAD])
  }

  /** The word that carries a payload. */
  function Fst4Word(payload: seq<bv8>): (word: seq<bv8>)
    requires |payload| >= 10
    ensures |word| == 13
  {
    var s := StoreFst4(payload[9], Fst4Crc(payload));
    payload[..9] + [s.0, s.1, s.2, s.3]
  }

  ghost predicate Fst4Accepted(word: seq<bv8>)
    requires |word| == 13
  {
    ExtractFst4(word[9], word[10], word[11], word[12]) == Fst4Crc(word)
  }

  lemma SamePayloadFst4(a: seq<bv8>, b: seq<bv8>)
    requires |a| >= 10 && |b| >= 10 && a[..9] == b[..9] && a[9] & 0xF8 == b[9] & 0xF8
    ensures BitsOf(a)[..FST4_PAYLOAD] == BitsOf(b)[..FST4_PAYLOAD] && Fst4Crc(a) == Fst4Crc(b)
  {
    hide BitAt, BitsOf, WordOf, Remainder;
    forall k | 0 <= k < FST4_PAYLOAD
      ensures BitsOf(a)[k] == BitsOf(b)[k]
    {
      BitOfByte(a, k / 8, k % 8);
      BitOfByte(b, k / 8, k % 8);
      if k / 8 < 9 {
        assert a[k / 8] == a[..9][k / 8];
      } else {
        KeptBitsFst4(a[9], b[9], k % 8);
      }
    }
    assert BitsOf(a)[..FST4_PAYLOAD] == BitsOf(b)[..FST4_PAYLOAD];
  }

  /** The CRC over the payload followed by zeros, as both routines compute it. */
  method Fst4ClearedCrc(start: seq<bv8>) returns (crc: bv32)
    requires |start| >= 10
    ensures crc == Fst4Crc(start)
  {
    hide BitAt, BitsOf, WordOf, Remainder, Residue;
    var tmp := start[..9] + [start[9] & 0xF8] + [0, 0, 0];
    forall k | FST4_PAYLOAD <= k < FST4_PAYLOAD + 24
      ensures !BitsOf(tmp)[k]
    {
      BitOfByte(tmp, k / 8, k % 8);
      KeptBitsFst4(start[9], start[9], k % 8);
    }
    crc := ComputeCrc(tmp, FST4_PAYLOAD + 24);
    PaddedCrc(BitsOf(tmp), FST4_PAYLOAD + 24);
    MaskedFst4(start[9]);
    SamePayloadFst4(start, tmp);
  }

  lemma MaskedFst4(a: bv8)
    ensures (a & 0xF8) & 0xF8 == a & 0xF8
  {
  }

  /** `fst4_add_crc`. */
  method Fst4AddCrc(payload: seq<bv8>, a: array<bv8>)
    requires |payload| >= 10 && a.Length >= 13
    modifies a
    ensures a[..13] == Fst4Word(payload)
  {
    hide BitAt, BitsOf, WordOf, Remainder, StoreFst4;
    for i := 0 to 9
      invariant forall k :: 0 <= k < i ==> a[k] == payload[k]
    {
      a[i] := payload[i];
    }
    var checksum := Fst4ClearedCrc(payload);
    var s := StoreFst4(payload[9], checksum);
    a[9], a[10], a[11], a[12] := s.0, s.1, s.2, s.3;
  }

  /** `fst4_check_crc`. */
  method Fst4CheckCrc(a: seq<bv8>) returns (ok: bool)
    requires |a| == 13
    ensures ok == Fst4Accepted(a)
  {
    var stored := ExtractFst4(a[9], a[10], a[11], a[12]);
    var computed := Fst4ClearedCrc(a);
    ok := stored == computed;
  }

  /** Every added CRC is accepted. */
  lemma Fst4WordAccepted(payload: seq<bv8>)
    requires |payload| >= 10
    ensures Fst4Accepted(Fst4Word(payload)) && Fst4Word(payload)[12] & 7 == 0
    ensures BitsOf(Fst4Word(payload))[..FST4_PAYLOAD] == BitsOf(payload)[..FST4_PAYLOAD]
  {
    hide BitsOf, WordOf, Remainder, StoreFst4, ExtractFst4, Within;
    CrcFits(BitsOf(payload)[..FST4_PAYLOAD]);
    StoredFst4(payload[9], Fst4Crc(payload));
    SamePayloadFst4(Fst4Word(payload), payload);
  }

  /** An accepted word with clear unused bits is the word of its own payload. */
  lemma Fst4WordUnique(word: seq<bv8>, payload: seq<bv8>)
    requires |word| == 13 && Fst4Accepted(word) && word[12] & 7 == 0
    requires |payload| >= 10 && payload[..10] == word[..10]
    ensures Fst4Word(payload) == word
  {
    hide BitsOf, WordOf, Remainder, StoreFst4, ExtractFst4;
    assert payload[9] == payload[..10][9] == word[9];
    assert payload[..9] == payload[..10][..9] == word[..9];
    SamePayloadFst4(payload, word);
    RestoredFst4(word[9], word[10], word[11], word[12]);
  }

  // ----- FST4W: 50 payload bits and 24 CRC bits in 10 bytes

  const FST4W_PAYLOAD := 50

  function ExtractFst4w(a: bv8, b: bv8, c: bv8, d: bv8): bv32 {
    (((a & 0x3F) as bv32) << 18) | ((b as bv32) << 10) | ((c as bv32) << 2) | ((d >> 6) as bv32)
  }

  /** The bytes that end the word: what is left of the payload, then the CRC. */
  function StoreFst4w(payload: bv8, crc: bv32): (bv8, bv8, bv8, bv8) {
    ((payload & 0xC0) | (((crc >> 18) & 0xff) as bv8), ((crc >> 10) & 0xff) as bv8,
     ((crc >> 2) & 0xff) as bv8, ((crc << 6) & 0xff) as bv8)
  }

  lemma StoredFst4w(payload: bv8, crc: bv32)
    requires Within(crc, 0xFFFFFF)
    ensures var s := StoreFst4w(payload, crc); ExtractFst4w(s.0, s.1, s.2, s.3) == crc && s.3 & 0x3F == 0
    ensures StoreFst4w(payload, crc).0 & 0xC0 == payload & 0xC0
  {
  }

  lemma RestoredFst4w(a: bv8, b: bv8, c: bv8, d: bv8)
    requires d & 0x3F == 0
    ensures StoreFst4w(a, ExtractFst4w(a, b, c, d)) == (a, b, c, d)
  {
  }

  lemma KeptBitsFst4w(a: bv8, b: bv8, i: nat)
    requires i < 8 && a & 0xC0 == b & 0xC0
    ensures i < 2 ==> BitAt(a, i) == BitAt(b, i)
    ensures BitAt(a & 0xC0, i) == (i < 2 && BitAt(a, i))
    ensures !BitAt(0, i)
  {
  }

  function Fst4wCrc(word: seq<bv8>): bv32
    requires |word| >= 7
  {
    CrcOf(BitsOf(word)[..FST4W_PAYLOAD])
  }

  /** The word that carries a payload. */
  function Fst4wWord(payload: seq<bv8>): (word: seq<bv8>)
    requires |payload| >= 7
    ensures |word| == 10
  {
    var s := StoreFst4w(payload[6], Fst4wCrc(payload));
    payload[..6] + [s.0, s.1, s.2, s.3]
  }

  ghost predicate Fst4wAccepted(word: seq<bv8>)
    requires |word| == 10
  {
    ExtractFst4w(word[6], word[7], word[8], word[9]) == Fst4wCrc(word)
  }

  lemma SamePayloadFst4w(a: seq<bv8>, b: seq<bv8>)
    requires |a| >= 7 && |b| >= 7 && a[..6] == b[..6] && a[6] & 0xC0 == b[6] & 0xC0
    ensures BitsOf(a)[..FST4W_PAYLOAD] == BitsOf(b)[..FST4W_PAYLOAD] && Fst4wCrc(a) == Fst4wCrc(b)
  {
    hide BitAt, BitsOf, WordOf, Remainder;
    forall k | 0 <= k < FST4W_PAYLOAD
      ensures BitsOf(a)[k] == BitsOf(b)[k]
    {
      BitOfByte(a, k / 8, k % 8);
      BitOfByte(b, k / 8, k % 8);
      if k / 8 < 6 {
        assert a[k / 8] == a[..6][k / 8];
      } else {
        KeptBitsFst4w(a[6], b[6], k % 8);
      }
    }
    assert BitsOf(a)[..FST4W_PAYLOAD] == BitsOf(b)[..FST4W_PAYLOAD];
  }

  /** The CRC over the payload followed by zeros, as both routines compute it. */
  method Fst4wClearedCrc(start: seq<bv8>) returns (crc: bv32)
    requires |start| >= 7
    ensures crc == Fst4wCrc(start)
  {
    hide BitAt, BitsOf, WordOf, Remainder, Residue;
    var tmp := start[..6] + [start[6] & 0xC0] + [0, 0, 0];
    forall k | FST4W_PAYLOAD <= k < FST4W_PAYLOAD + 24
      ensures !BitsOf(tmp)[k]
    {
      BitOfByte(tmp, k / 8, k % 8);
      KeptBitsFst4w(start[6], start[6], k % 8);
    }
    crc := ComputeCrc(tmp, FST4W_PAYLOAD + 24);
    PaddedCrc(BitsOf(tmp), FST4W_PAYLOAD + 24);
    MaskedFst4w(start[6]);
    SamePayloadFst4w(start, tmp);
  }

  lemma MaskedFst4w(a: bv8)
    ensures (a & 0xC0) & 0xC0 == a & 0xC0
  {
  }

  /** `fst4w_add_crc`. */
  method Fst4wAddCrc(payload: seq<bv8>, a: array<bv8>)
    requires |payload| >= 7 && a.Length >= 10
    modifies a
    ensures a[..10] == Fst4wWord(payload)
  {
    hide BitAt, BitsOf, WordOf, Remainder, StoreFst4w;
    for i := 0 to 6
      invariant forall k :: 0 <= k < i ==> a[k] == payload[k]
    {
      a[i] := payload[i];
    }
    var checksum := Fst4wClearedCrc(payload);
    var s := StoreFst4w(payload[6], checksum);
    a[6], a[7], a[8], a[9] := s.0, s.1, s.2, s.3;
  }

  /** `fst4w_check_crc`. */
  method Fst4wCheckCrc(a: seq<bv8>) returns (ok: bool)
    requires |a| == 10
    ensures ok == Fst4wAccepted(a)
  {
    var stored := ExtractFst4w(a[6], a[7], a[8], a[9]);
    var computed := Fst4wClearedCrc(a);
    ok := stored == computed;
  }

  /** Every added CRC is accepted. */
  lemma Fst4wWordAccepted(payload: seq<bv8>)
    requires |payload| >= 7
    ensures Fst4wAccepted(Fst4wWord(payload)) && Fst4wWord(payload)[9] & 0x3F == 0
    ensures BitsOf(Fst4wWord(payload))[..FST4W_PAYLOAD] == BitsOf(payload)[..FST4W_PAYLOAD]
  {
    hide BitsOf, WordOf, Remainder, StoreFst4w, ExtractFst4w, Within;
    CrcFits(BitsOf(payload)[..FST4W_PAYLOAD]);
    StoredFst4w(payload[6], Fst4wCrc(payload));
    SamePayloadFst4w(Fst4wWord(payload), payload);
  }

  /** An accepted word with clear unused bits is the word of its own payload. */
  lemma Fst4wWordUnique(word: seq<bv8>, payload: seq<bv8>)
    requires |word| == 10 && Fst4wAccepted(word) && word[9] & 0x3F == 0
    requires |payload| >= 7 && payload[..7] == word[..7]
    ensures Fst4wWord(payload) == word
  {
    hide BitsOf, WordOf, Remainder, StoreFst4w, ExtractFst4w;
    assert payload[6] == payload[..7][6] == word[6];
    assert payload[..6] == payload[..7][..6] == word[..6];
    SamePayloadFst4w(payload, word);
    RestoredFst4w(word[6], word[7], word[8], word[9]);
  }
}
