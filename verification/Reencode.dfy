/** From a decoded information word to the payload and back: what each protocol's decoder
    delivers, its encoder turns into exactly the word that was received. */
module Reencode {
  import opened Bits
  import opened Ft8Decode
  import Crc14
  import Crc24

  datatype Protocol = FT8 | FT4 | FST4 | FST4W

  const XOR_SEQUENCE: seq<bv8> := [0x4A, 0x5E, 0x89, 0xB4, 0xB0, 0x8A, 0x79, 0x55, 0xBE, 0x28]

  /** `ldpc_k`. */
  function KBits(p: Protocol): nat {
    match p
    case FT8 => 91
    case FT4 => 91
    case FST4 => 101
    case FST4W => 74
  }

  /** `ldpc_k_bytes`. */
  function KBytes(p: Protocol): nat {
    (KBits(p) + 7) / 8
  }

  predicate XorPayload(p: Protocol) {
    p == FT4 || p == FST4
  }

  ghost predicate Checked(p: Protocol, packed: seq<bv8>)
    requires |packed| == KBytes(p)
  {
    match p
    case FT8 => Crc14.Accepted(BitsOf(packed))
    case FT4 => Crc14.Accepted(BitsOf(packed))
    case FST4 => Crc24.Fst4Accepted(packed)
    case FST4W => Crc24.Fst4wAccepted(packed)
  }

  method CheckCrc(p: Protocol, packed: seq<bv8>) returns (ok: bool)
    requires |packed| == KBytes(p)
    ensures ok == Checked(p, packed)
  {
    match p
    case FT8 => ok := Crc14.CheckPacked(packed);
    case FT4 => ok := Crc14.CheckPacked(packed);
    case FST4 => ok := Crc24.Fst4CheckCrc(packed);
    case FST4W => ok := Crc24.Fst4wCheckCrc(packed);
  }

  function Xor(a: bv8, b: bv8): bv8 {
    a ^ b
  }

  lemma XorTwice(a: bv8, b: bv8)
    ensures Xor(Xor(a, b), b) == a
  {
  }

  /** Ten payload bytes, combined with the fixed sequence where the protocol asks for it. */
  function Masked(p: Protocol, bytes: seq<bv8>): (out: seq<bv8>)
    requires |bytes| >= 10
    ensures |out| == 10
  {
    seq(10, i requires 0 <= i < 10 => if XorPayload(p) then Xor(bytes[i], XOR_SEQUENCE[i]) else bytes[i])
  }

  /** The receiver takes off what the sender put on. */
  lemma MaskedTwice(p: Protocol, bytes: seq<bv8>)
    requires |bytes| >= 10
    ensures Masked(p, Masked(p, bytes)) == bytes[..10]
  {
    hide Xor;
    forall i | 0 <= i < 10
      ensures Masked(p, Masked(p, bytes))[i] == bytes[i]
    {
      XorTwice(bytes[i], XOR_SEQUENCE[i]);
    }
  }

  /** What the protocol's encoder makes of a payload: mask it, then add the CRC. */
  ghost predicate IsInformationWord(p: Protocol, payload: seq<bv8>, word: seq<bv8>)
    requires |payload| >= 10
  {
    match p
    case FT8 => Crc14.IsWordOf(word, Masked(p, payload))
    case FT4 => Crc14.IsWordOf(word, Masked(p, payload))
    case FST4 => word == Crc24.Fst4Word(Masked(p, payload))
    case FST4W => word == Crc24.Fst4wWord(Masked(p, payload))
  }

  method XorSequence(bytes: seq<bv8>) returns (out: seq<bv8>)
    requires |bytes| >= 10
    ensures |out| == 10 && forall i :: 0 <= i < 10 ==> out[i] == Xor(bytes[i], XOR_SEQUENCE[i])
  {
    hide Xor;
    out := [];
    for i := 0 to 10
      invariant |out| == i && forall j :: 0 <= j < i ==> out[j] == Xor(bytes[j], XOR_SEQUENCE[j])
    {
      out := out + [Xor(bytes[i], XOR_SEQUENCE[i])];
    }
  }

  /** Step 8 of `ftx_decode_candidate`: ten payload bytes. */
  method Payload(p: Protocol, packed: seq<bv8>) returns (payload: seq<bv8>)
    requires |packed| == KBytes(p)
    ensures payload == Masked(p, packed)
  {
    hide Xor;
    if XorPayload(p) {
      payload := XorSequence(packed);
    } else {
      // every protocol packs at least ten bytes, so nothing has to be padded
      payload := packed[..10];
    }
  }

  /** The head of the protocol's encoder: XOR, then add the CRC. */
  method InformationWord(p: Protocol, payload: seq<bv8>) returns (word: seq<bv8>)
    requires |payload| == 10
    ensures |word| == KBytes(p) && IsInformationWord(p, payload, word)
  {
    hide Xor, BitsOf, Crc24.Fst4Word, Crc24.Fst4wWord, Crc14.IsWordOf;
    var body := payload;
    if XorPayload(p) {
      body := XorSequence(payload);
    }
    assert body == Masked(p, payload);
    var a := new bv8[KBytes(p)];
    match p {
      case FT8 => Crc14.AddCrc(body, a);
      case FT4 => Crc14.AddCrc(body, a);
      case FST4 => Crc24.Fst4AddCrc(body, a);
      case FST4W => Crc24.Fst4wAddCrc(body, a);
    }
    word := a[..];
    assert a[..KBytes(p)] == a[..];
  }

  lemma LowBitsClear(b: bv8)
    ensures !BitAt(b, 5) && !BitAt(b, 6) && !BitAt(b, 7) ==> b & 7 == 0
    ensures b & 7 == 0 && !BitAt(b, 2) && !BitAt(b, 3) && !BitAt(b, 4) ==> b & 0x3F == 0
  {
    hide BitAt;
    MaskBits(b);
  }

  lemma PaddingMask(p: Protocol, packed: seq<bv8>)
    requires |packed| == KBytes(p) && (p == FST4 || p == FST4W)
    requires forall n :: KBits(p) <= n < 8 * KBytes(p) ==> !BitsOf(packed)[n]
    ensures if p == FST4 then packed[12] & 7 == 0 else packed[9] & 0x3F == 0
  {
    hide BitAt, BitsOf;
    var last := KBytes(p) - 1;
    forall i | KBits(p) - 8 * last <= i < 8
      ensures !BitAt(packed[last], i)
    {
      BitOfByte(packed, last, i);
    }
    LowBitsClear(packed[last]);
  }

  /** Re-encoding the payload of a checked word whose unused bits are clear gives the word itself. */
  lemma SameWord(p: Protocol, packed: seq<bv8>, word: seq<bv8>)
    requires |packed| == |word| == KBytes(p) && Checked(p, packed)
    requires forall n :: KBits(p) <= n < 8 * KBytes(p) ==> !BitsOf(packed)[n]
    requires IsInformationWord(p, Masked(p, packed), word)
    ensures word == packed
  {
    hide BitsOf, Masked;
    MaskedTwice(p, packed);
    var start := packed[..10];
    match p
    case FST4 =>
      PaddingMask(p, packed);
      Crc24.Fst4WordUnique(packed, start);
    case FST4W =>
      PaddingMask(p, packed);
      Crc24.Fst4wWordUnique(packed, start);
    case _ =>
      PayloadBits(packed, start);
      Crc14.WordUnique(word, packed, start);
  }

  /** Steps 5 to 9 of `ftx_decode_candidate`, up to the codeword: pack, check, deliver, re-encode. */
  method DeliverAndReencode(p: Protocol, plain: seq<bool>) returns (ok: bool, payload: seq<bv8>, word: seq<bv8>, packed: seq<bv8>)
    requires |plain| >= KBits(p)
    ensures |packed| == KBytes(p) && ok == Checked(p, packed)
    ensures forall n :: 0 <= n < 8 * KBytes(p) ==> BitsOf(packed)[n] == (n < KBits(p) && plain[n])
    ensures ok ==> |payload| == 10 && payload == Masked(p, packed) && Masked(p, payload) == packed[..10]
    ensures ok ==> IsInformationWord(p, payload, word) && word == packed
  {
    hide BitsOf, Xor, Checked, Masked, IsInformationWord;
    var bytes := new bv8[KBytes(p)];
    PackBits(plain[..KBits(p)], bytes);
    packed := bytes[..];
    payload, word := [], [];
    ok := CheckCrc(p, packed);
    if ok {
      payload := Payload(p, packed);
      word := InformationWord(p, payload);
      MaskedTwice(p, packed);
      SameWord(p, packed, word);
    }
  }

  /** Payload bits the word carries. */
  function PayloadSize(p: Protocol): nat {
    match p
    case FT8 => Crc14.PAYLOAD_BITS
    case FT4 => Crc14.PAYLOAD_BITS
    case FST4 => Crc24.FST4_PAYLOAD
    case FST4W => Crc24.FST4W_PAYLOAD
  }

  lemma XorBit(a: bv8, b: bv8, mask: bv8, i: nat)
    requires i < 8 && BitAt(a, i) == BitAt(b, i)
    ensures BitAt(Xor(a, mask), i) == BitAt(Xor(b, mask), i)
  {
    hide ByteMask, Xor;
    ByteMaskFacts(i);
    OneBitAnd8(a, ByteMask(i));
    OneBitAnd8(b, ByteMask(i));
    XorAnd(a, b, mask, ByteMask(i));
  }

  lemma XorAnd(a: bv8, b: bv8, x: bv8, m: bv8)
    requires a & m == b & m
    ensures Xor(a, x) & m == Xor(b, x) & m
  {
  }

  lemma MaskedBits(p: Protocol, a: seq<bv8>, b: seq<bv8>, n: nat)
    requires |a| >= 10 && |b| >= 10 && n <= 80 && BitsOf(a)[..n] == BitsOf(b)[..n]
    ensures BitsOf(Masked(p, a))[..n] == BitsOf(Masked(p, b))[..n]
  {
    hide BitAt, BitsOf, Xor;
    forall k | 0 <= k < n
      ensures BitsOf(Masked(p, a))[k] == BitsOf(Masked(p, b))[k]
    {
      var at, i := k / 8, k % 8;
      assert BitsOf(a)[..n][k] == BitsOf(b)[..n][k];
      BitOfByte(a, at, i);
      BitOfByte(b, at, i);
      BitOfByte(Masked(p, a), at, i);
      BitOfByte(Masked(p, b), at, i);
      XorBit(a[at], b[at], XOR_SEQUENCE[at], i);
    }
  }

  lemma CarriesPayload(p: Protocol, payload: seq<bv8>, word: seq<bv8>)
    requires |payload| >= 10 && |word| == KBytes(p) && IsInformationWord(p, payload, word)
    ensures Checked(p, word) && BitsOf(word)[..PayloadSize(p)] == BitsOf(Masked(p, payload))[..PayloadSize(p)]
  {
    hide BitsOf, Masked, Crc24.Fst4Accepted, Crc24.Fst4wAccepted;
    Crc24.Fst4WordAccepted(Masked(p, payload));
    Crc24.Fst4wWordAccepted(Masked(p, payload));
  }

  /** The other way round: the word an encoder makes of a payload passes the check, and the
      receiver delivers the payload's bits from it. */
  lemma SentIsDelivered(p: Protocol, payload: seq<bv8>, word: seq<bv8>)
    requires |payload| >= 10 && |word| == KBytes(p) && IsInformationWord(p, payload, word)
    ensures Checked(p, word)
    ensures BitsOf(Masked(p, word))[..PayloadSize(p)] == BitsOf(payload)[..PayloadSize(p)]
  {
    hide BitsOf, Masked, IsInformationWord, Checked;
    var n := PayloadSize(p);
    CarriesPayload(p, payload, word);
    MaskedBits(p, word, Masked(p, payload), n);
    MaskedTwice(p, payload);
    SameStart(payload, payload[..10], n);
  }

  lemma XorIsDifference(a: bv8, b: bv8, i: nat)
    requires i < 8
    ensures BitAt(Xor(a, b), i) == (BitAt(a, i) != BitAt(b, i))
  {
    hide ByteMask, Xor;
    ByteMaskFacts(i);
    OneBitAnd8(a, ByteMask(i));
    OneBitAnd8(b, ByteMask(i));
    XorOfBits(a, b, ByteMask(i));
  }

  lemma XorOfBits(a: bv8, b: bv8, m: bv8)
    ensures Xor(a, b) & m == Xor(a & m, b & m)
    ensures Xor(0, 0) == 0 && Xor(m, m) == 0 && Xor(m, 0) == m && Xor(0, m) == m
  {
  }

  /** FT8 and FST4W send the payload as it is; FT4 and FST4 send it combined with the sequence. */
  lemma SentBit(p: Protocol, payload: seq<bv8>, word: seq<bv8>, k: nat)
    requires |payload| >= 10 && |word| == KBytes(p) && IsInformationWord(p, payload, word) && k < PayloadSize(p)
    ensures p == FT8 || p == FST4W ==> BitsOf(word)[k] == BitsOf(payload)[k]
    ensures p == FT4 || p == FST4 ==> BitsOf(word)[k] == (BitsOf(payload)[k] != BitsOf(XOR_SEQUENCE)[k])
  {
    hide BitAt, BitsOf, Xor, Checked, IsInformationWord;
    var n, i := k / 8, k % 8;
    CarriesPayload(p, payload, word);
    assert BitsOf(word)[k] == BitsOf(word)[..PayloadSize(p)][k] == BitsOf(Masked(p, payload))[k];
    BitOfByte(Masked(p, payload), n, i);
    BitOfByte(payload, n, i);
    BitOfByte(XOR_SEQUENCE, n, i);
    XorIsDifference(payload[n], XOR_SEQUENCE[n], i);
  }

  lemma SameStart(bytes: seq<bv8>, start: seq<bv8>, n: nat)
    requires |bytes| >= 10 && start == bytes[..10] && n <= 80
    ensures BitsOf(start)[..n] == BitsOf(bytes)[..n]
  {
    hide BitAt;
  }
}
