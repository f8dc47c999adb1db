/** The WSPR interleaver: symbols go to the bit-reversed positions below 162. */
module Interleaver {
  import opened Bits

  const LENGTH := 162

  /** The multiply-and-mask expression of the source. */
  function Magic(i: bv64): bv64 {
    ((((i * 0x80200802) & 0x0884422110) * 0x0101010101) >> 32) & 0xff
  }

  function Reversed(i: bv64): bv64 {
    ((i & 1) << 7) | ((i & 2) << 5) | ((i & 4) << 3) | ((i & 8) << 1)
    | ((i >> 1) & 8) | ((i >> 3) & 4) | ((i >> 5) & 2) | ((i >> 7) & 1)
  }

  function MagicByte(i: bv8): bv8 {
    Magic(i as bv64) as bv8
  }

  /** It reverses the eight bits of a byte, so it undoes itself. */
  lemma MagicReverses(i: bv8)
    ensures Magic(i as bv64) == Reversed(i as bv64) <= 0xff
    ensures MagicByte(MagicByte(i)) == i
  {
  }

  function Place(i: Byte): Byte {
    MagicByte(i as bv8) as int
  }

  lemma Successor(b: bv8)
    requires b != 255
    ensures (b + 1) as int == b as int + 1
  {
  }

  lemma ThroughNumber(b: bv8)
    ensures (b as int) as bv8 == b
  {
  }

  /** Every number below 256 is that of a byte. */
  lemma {:induction false} ByteWith(i: Byte) returns (b: bv8)
    ensures b as int == i
  {
    if i == 0 {
      b := 0;
    } else {
      var before := ByteWith(i - 1);
      Successor(before);
      b := before + 1;
    }
  }

  lemma ThroughBits(i: Byte)
    ensures (i as bv8) as int == i
  {
    var b := ByteWith(i);
    ThroughNumber(b);
  }

  lemma PlaceTwice(i: Byte)
    ensures Place(Place(i)) == i
  {
    MagicReverses(i as bv8);
    hide MagicByte;
    ThroughNumber(MagicByte(i as bv8));
    ThroughBits(i);
  }

  /** The places below 162, in the order of the bytes i < n that map to them. */
  function Order(n: nat): (order: seq<Byte>)
    requires n <= 256
    ensures |order| <= n && forall p :: 0 <= p < |order| ==> order[p] < LENGTH
  {
    if n == 0 then [] else Order(n - 1) + if Place(n - 1) < LENGTH then [Place(n - 1)] else []
  }

  lemma {:induction false} OrderHas(n: nat, j: Byte)
    requires n <= 256 && j < LENGTH
    ensures j in Order(n) <==> Place(j) < n
  {
    hide Place;
    PlaceTwice(j);
    if n == 0 {
    } else {
      OrderHas(n - 1, j);
      PlaceTwice(n - 1);
    }
  }

  lemma {:induction false} OrderDistinct(n: nat)
    requires n <= 256
    ensures forall p, q :: 0 <= p < q < |Order(n)| ==> Order(n)[p] != Order(n)[q]
  {
    hide Place;
    if n == 0 {
    } else {
      OrderDistinct(n - 1);
      if Place(n - 1) < LENGTH {
        OrderHas(n - 1, Place(n - 1));
        PlaceTwice(n - 1);
        assert Place(n - 1) !in Order(n - 1);
      }
    }
  }

  // ----- the order told by bit reversal alone

  /** The bits of j are those of i from the other end. */
  ghost predicate Reverses(i: Byte, j: Byte) {
    forall k :: 0 <= k < 8 ==> Mirrored(i, j, k)
  }

  predicate Mirrored(i: Byte, j: Byte, k: nat)
    requires k < 8
  {
    BitAt(j as bv8, k) == BitAt(i as bv8, 7 - k)
  }

  lemma MagicBit(b: bv8, k: nat)
    requires k < 8
    ensures BitAt(MagicByte(b), k) == BitAt(b, 7 - k)
  {
    MagicReverses(b);
    hide Magic;
    if k < 4 {
      ReversedHigh(b, k);
    } else {
      ReversedLow(b, k);
    }
  }

  lemma ReversedHigh(b: bv8, k: nat)
    requires k < 4 && Reversed(b as bv64) <= 0xff
    ensures BitAt(Reversed(b as bv64) as bv8, k) == BitAt(b, 7 - k)
  {
    match k
    case 0 =>
    case 1 =>
    case 2 =>
    case _ =>
  }

  lemma ReversedLow(b: bv8, k: nat)
    requires 4 <= k < 8 && Reversed(b as bv64) <= 0xff
    ensures BitAt(Reversed(b as bv64) as bv8, k) == BitAt(b, 7 - k)
  {
    match k
    case 4 =>
    case 5 =>
    case 6 =>
    case _ =>
  }

  lemma PlaceReverses(i: Byte)
    ensures Reverses(i, Place(i))
  {
    hide MagicByte, BitAt;
    ThroughNumber(MagicByte(i as bv8));
    forall k | 0 <= k < 8
      ensures Mirrored(i, Place(i), k)
    {
      MagicBit(i as bv8, k);
    }
  }

  /** The place of a byte is its reversal, and nothing else is. */
  lemma ReversalIsPlace(i: Byte, j: Byte)
    ensures Reverses(i, j) <==> j == Place(i)
  {
    hide BitAt, Place;
    PlaceReverses(i);
    if Reverses(i, j) {
      var a, b := j as bv8, Place(i) as bv8;
      forall k | 0 <= k < 8
        ensures BitAt(a, k) == BitAt(b, k)
      {
        assert Mirrored(i, j, k) && Mirrored(i, Place(i), k);
      }
      SameByte(a, b);
      ThroughBits(j);
      ThroughBits(Place(i));
    }
  }

  /** The bytes below n whose place is below 162. */
  ghost function Chosen(n: nat): (bytes: seq<Byte>)
    requires n <= 256
    ensures |bytes| == |Order(n)| && forall p :: 0 <= p < |bytes| ==> bytes[p] < n && Order(n)[p] == Place(bytes[p])
    ensures forall p, q :: 0 <= p < q < |bytes| ==> bytes[p] < bytes[q]
    ensures forall i: Byte :: i in bytes <==> i < n && Place(i) < LENGTH
  {
    if n == 0 then [] else Chosen(n - 1) + if Place(n - 1) < LENGTH then [n - 1] else []
  }

  /** The bytes with a reversal below 162, in order. */
  ghost predicate IsChosen(bytes: seq<Byte>) {
    && |bytes| == LENGTH && (forall p, q :: 0 <= p < q < LENGTH ==> bytes[p] < bytes[q])
    && (forall i: Byte, j: Byte :: Reverses(i, j) ==> (i in bytes <==> j < LENGTH))
  }

  /** Symbol p of the message is sent at the reversal of the p-th byte that has one below 162. */
  ghost predicate BitReversed<T(!new)>(sent: seq<T>, message: seq<T>)
    requires |sent| == |message| == LENGTH
  {
    exists bytes: seq<Byte> :: IsChosen(bytes)
      && forall p: nat, j: Byte :: p < LENGTH && j < LENGTH && Reverses(bytes[p], j) ==> sent[j] == message[p]
  }

  lemma InterleavedIsReversed<T(!new)>(sent: seq<T>, message: seq<T>)
    requires |sent| == |message| == LENGTH && IsInterleaved(sent, message)
    ensures BitReversed(sent, message)
  {
    hide Place, Order, Reverses, IsChosen, Chosen;
    var bytes := Chosen(256);
    ChosenIs();
    forall p: nat, j: Byte | p < LENGTH && j < LENGTH && Reverses(bytes[p], j)
      ensures sent[j] == message[p]
    {
      ReversalIsPlace(bytes[p], j);
    }
  }

  lemma ChosenIs()
    ensures IsChosen(Chosen(256)) && |Order(256)| == LENGTH
  {
    hide Place, Order, Reverses, Chosen;
    OrderIsPermutation();
    forall i: Byte, j: Byte | Reverses(i, j)
      ensures i in Chosen(256) <==> j < LENGTH
    {
      ReversalIsPlace(i, j);
    }
  }

  /** The numbers below n. */
  function Below(n: nat): (below: set<int>)
    ensures |below| == n && forall j :: j in below <==> 0 <= j < n
  {
    if n == 0 then {} else Below(n - 1) + {n - 1}
  }

  function Elements(s: seq<int>): (e: set<int>)
    ensures forall x :: x in e <==> x in s
  {
    set x | x in s
  }

  lemma {:induction false} DistinctSize(s: seq<int>)
    requires forall p, q :: 0 <= p < q < |s| ==> s[p] != s[q]
    ensures |Elements(s)| == |s|
  {
    if s == [] {
    } else {
      var n := |s| - 1;
      DistinctSize(s[..n]);
      assert Elements(s) == Elements(s[..n]) + {s[n]};
    }
  }

  /** A sequence of distinct numbers that are just those below n has n of them. */
  lemma PermutationSize(s: seq<int>, n: nat)
    requires forall p, q :: 0 <= p < q < |s| ==> s[p] != s[q]
    requires forall j :: j in s <==> 0 <= j < n
    ensures |s| == n
  {
    DistinctSize(s);
    assert Elements(s) == Below(n);
  }

  lemma OrderCovers(j: int)
    ensures j in Order(256) <==> 0 <= j < LENGTH
  {
    hide Place;
    if 0 <= j < LENGTH {
      OrderHas(256, j);
    }
  }

  /** All 256 bytes reach each of the 162 places once: the source's loop ends before its byte
      counter wraps. */
  lemma OrderIsPermutation()
    ensures |Order(256)| == LENGTH
    ensures forall j: Byte :: j < LENGTH ==> j in Order(256)
    ensures forall p, q :: 0 <= p < q < LENGTH ==> Order(256)[p] != Order(256)[q]
  {
    hide Place, Order;
    OrderDistinct(256);
    forall j: int ensures j in Order(256) <==> 0 <= j < LENGTH {
      OrderCovers(j);
    }
    PermutationSize(Order(256), LENGTH);
  }

  lemma {:induction false} OrderPrefix(n: nat, m: nat)
    requires n <= m <= 256
    ensures Order(n) <= Order(m)
  {
    if n < m {
      OrderPrefix(n, m - 1);
    }
  }

  /** Symbol p of the output's order is at its place in the input's. */
  ghost predicate IsInterleaved<T(!new)>(sent: seq<T>, message: seq<T>)
    requires |sent| == |message| == LENGTH
  {
    |Order(256)| == LENGTH && forall p :: 0 <= p < LENGTH ==> sent[Order(256)[p]] == message[p]
  }

  /** `interleave`. */
  method Interleave<T(0, !new)>(sym: array<T>)
    requires sym.Length >= LENGTH
    modifies sym
    ensures IsInterleaved(sym[..LENGTH], old(sym[..LENGTH])) && sym[LENGTH..] == old(sym[LENGTH..])
    ensures BitReversed(sym[..LENGTH], old(sym[..LENGTH]))
  {
    hide Place, Order, BitReversed;
    OrderIsPermutation();
    var tmp := new T[LENGTH];
    var p, i := 0, 0;
    OrderPrefix(0, 256);
    OrderEmpty();
    while p < LENGTH
      invariant 0 <= i <= 256 && p == |Order(i)| <= LENGTH
      invariant forall q :: 0 <= q < p ==> tmp[Order(256)[q]] == sym[q]
      invariant sym[..] == old(sym[..])
      decreases 256 - i
    {
      var j := Place(i);
      OrderNext(i);
      if j < LENGTH {
        tmp[j] := sym[p];
        p := p + 1;
      }
      i := i + 1;
    }
    CopyBack(sym, tmp);
    InterleavedIsReversed(sym[..LENGTH], old(sym[..LENGTH]));
  }

  /** `deinterleave`. */
  method Deinterleave<T(0, !new)>(sym: array<T>)
    requires sym.Length >= LENGTH
    modifies sym
    ensures IsInterleaved(old(sym[..LENGTH]), sym[..LENGTH]) && sym[LENGTH..] == old(sym[LENGTH..])
    ensures BitReversed(old(sym[..LENGTH]), sym[..LENGTH])
  {
    hide Place, Order, BitReversed;
    OrderIsPermutation();
    var tmp := new T[LENGTH];
    var p, i := 0, 0;
    OrderEmpty();
    while p < LENGTH
      invariant 0 <= i <= 256 && p == |Order(i)| <= LENGTH
      invariant forall q :: 0 <= q < p ==> tmp[q] == sym[Order(256)[q]]
      invariant sym[..] == old(sym[..])
      decreases 256 - i
    {
      var j := Place(i);
      OrderNext(i);
      if j < LENGTH {
        tmp[p] := sym[j];
        p := p + 1;
      }
      i := i + 1;
    }
    CopyBack(sym, tmp);
    InterleavedIsReversed(old(sym[..LENGTH]), sym[..LENGTH]);
  }

  method CopyBack<T>(sym: array<T>, tmp: array<T>)
    requires tmp.Length == LENGTH <= sym.Length && tmp != sym
    modifies sym
    ensures sym[..LENGTH] == tmp[..] && sym[LENGTH..] == old(sym[LENGTH..])
  {
    for i := 0 to LENGTH
      invariant sym[..i] == tmp[..i] && sym[LENGTH..] == old(sym[LENGTH..])
    {
      sym[i] := tmp[i];
    }
  }

  lemma OrderEmpty()
    ensures Order(0) == []
  {
  }

  /** The next byte either names the next place or none; short of 162 places there is one. */
  lemma OrderNext(i: nat)
    requires i <= 256 && |Order(i)| < LENGTH
    ensures i < 256
    ensures |Order(i + 1)| == |Order(i)| + if Place(i) < LENGTH then 1 else 0
    ensures Place(i) < LENGTH ==> |Order(256)| == LENGTH && Order(256)[|Order(i)|] == Place(i)
  {
    hide Place;
    OrderIsPermutation();
    OrderPrefix(i + 1, 256);
    assert Order(i + 1)[|Order(i)|..] == if Place(i) < LENGTH then [Place(i)] else [];
  }

  /** Deinterleaving undoes interleaving, and the other way round: a buffer has one interleaved
      form and one deinterleaved form. */
  lemma InterleavingIsBijective<T(!new)>(sent: seq<T>, message: seq<T>, sent': seq<T>, message': seq<T>)
    requires |sent| == |message| == |sent'| == |message'| == LENGTH
    requires IsInterleaved(sent, message) && IsInterleaved(sent', message')
    ensures sent == sent' <==> message == message'
  {
    OrderIsPermutation();
    hide Order;
    if message == message' {
      forall j: Byte | j < LENGTH ensures sent[j] == sent'[j] {
        assert j in Order(256);
        var p :| 0 <= p < LENGTH && Order(256)[p] == j;
      }
    }
  }
}
