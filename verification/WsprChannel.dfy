/** From packed bytes to the 162 channel symbols, and what a receiver finds in them. */
module WsprChannel {
  import opened Bits
  import opened MessageBits
  import opened Interleaver
  import Fano

  /** 50 message bits and 31 zero tail bits, of the 88 bits of eleven bytes. */
  const MESSAGE_BITS := 81

  /** Earlier channel bits do not depend on later message bits. */
  lemma {:induction false} ChannelPrefix(bits: seq<bool>, n: nat)
    requires n <= |bits|
    ensures ChannelBits(bits[..n]) == ChannelBits(bits)[..2 * n]
    decreases |bits| - n
  {
    if n == |bits| {
      assert bits[..n] == bits;
    } else {
      ChannelPrefix(bits, n + 1);
      var more := bits[..n + 1];
      assert more[..n] == bits[..n];
      assert ChannelBits(more)[..2 * n] == ChannelBits(bits[..n]);
      assert ChannelBits(bits)[..2 * n + 2][..2 * n] == ChannelBits(bits)[..2 * n];
    }
  }

  /** The code bits of the 81 message bits, in transmission order, each with its sync bit. */
  ghost predicate Carries(symbols: seq<Byte>, message: seq<bool>, sync: seq<bool>)
    requires |symbols| == LENGTH == |sync| && |message| == MESSAGE_BITS
  {
    exists coded: seq<Byte> :: |coded| == LENGTH && IsInterleaved(coded, CodedBytes(message))
      && forall i :: 0 <= i < LENGTH ==> symbols[i] == 2 * coded[i] as int + if sync[i] then 1 else 0
  }

  ghost function CodedBytes(message: seq<bool>): (b: seq<Byte>)
    requires |message| == MESSAGE_BITS
    ensures |b| == LENGTH && forall k :: 0 <= k < LENGTH ==> b[k] == if ChannelBits(message)[k] then 1 else 0
  {
    seq(LENGTH, k requires 0 <= k < LENGTH => if ChannelBits(message)[k] then 1 else 0)
  }

  /** The end of `get_wspr_channel_symbols`: encode, interleave, add the sync bits. */
  method ChannelSymbols(data: seq<bv8>, sync: seq<bool>, symbols: array<Byte>)
    requires |data| == 11 && |sync| == LENGTH <= symbols.Length
    modifies symbols
    ensures forall i :: 0 <= i < LENGTH ==> symbols[i] < 4
    ensures Carries(symbols[..LENGTH], BitsOf(data)[..MESSAGE_BITS], sync)
  {
    hide BitsOf, ChannelBits, IsInterleaved;
    var channelbits := new Byte[176];
    Fano.EncodeBytes(channelbits, data);
    ghost var message := BitsOf(data)[..MESSAGE_BITS];
    ChannelPrefix(BitsOf(data), MESSAGE_BITS);
    assert channelbits[..LENGTH] == CodedBytes(message);
    Interleave(channelbits);
    ghost var coded := channelbits[..LENGTH];
    BitsStayBits(coded, CodedBytes(message));
    for i := 0 to LENGTH
      invariant channelbits[..LENGTH] == coded
      invariant forall k :: 0 <= k < i ==> symbols[k] == 2 * coded[k] as int + if sync[k] then 1 else 0
    {
      var s: int := 2 * channelbits[i] as int + if sync[i] then 1 else 0;
      assert channelbits[i] == coded[i];
      symbols[i] := s;
    }
  }

  /** Interleaving moves bits; it makes no others. */
  lemma BitsStayBits(coded: seq<Byte>, message: seq<Byte>)
    requires |coded| == LENGTH == |message| && IsInterleaved(coded, message)
    requires forall k :: 0 <= k < LENGTH ==> message[k] <= 1
    ensures forall k :: 0 <= k < LENGTH ==> coded[k] <= 1
  {
    OrderIsPermutation();
    hide Order;
    forall k: Byte | k < LENGTH ensures coded[k] <= 1 {
      assert k in Order(256);
      var p :| 0 <= p < LENGTH && Order(256)[p] == k;
    }
  }

  /** A receiver that reads the data bit of every symbol and deinterleaves gets the code bits of
      the message, and of no other buffer. */
  lemma ReceivedBits(symbols: seq<Byte>, message: seq<bool>, sync: seq<bool>, data: seq<Byte>, received: seq<Byte>)
    requires |symbols| == LENGTH == |sync| == |data| == |received| && |message| == MESSAGE_BITS
    requires Carries(symbols, message, sync)
    requires forall i :: 0 <= i < LENGTH ==> data[i] == symbols[i] / 2
    requires IsInterleaved(data, received)
    ensures received == CodedBytes(message)
    ensures forall i :: 0 <= i < LENGTH ==> (symbols[i] % 2 == 1) == sync[i]
  {
    var coded: seq<Byte> :| |coded| == LENGTH && IsInterleaved(coded, CodedBytes(message))
      && forall i :: 0 <= i < LENGTH ==> symbols[i] == 2 * coded[i] as int + if sync[i] then 1 else 0;
    hide IsInterleaved, CodedBytes;
    assert data == coded;
    InterleavingIsBijective(data, received, coded, CodedBytes(message));
  }
}
