/** One WSPR message from its fields to the channel and back: what the receiver prints when every
    received symbol favours the data bit sent. */
module WsprLink {
  import opened Bits
  import opened MessageBits
  import opened Interleaver
  import opened WsprPacking
  import opened WsprMessage
  import opened WsprChannel
  import Fano
  import FanoWalk
  import Jelinek
  import StackSearch

  function Ints(data: seq<bv8>): (b: seq<Byte>)
    ensures |b| == |data|
  {
    seq(|data|, i requires 0 <= i < |data| => data[i] as Byte)
  }

  /** The symbols on the air for the packed fields. */
  ghost predicate OnAir(p: Packed, data: seq<bv8>, sync: seq<bool>, symbols: seq<Byte>) {
    && |data| == 11 && Ints(data) == Bytes(p)
    && |symbols| == LENGTH == |sync| && Carries(symbols, BitsOf(data)[..MESSAGE_BITS], sync)
  }

  /** The received symbol favours the bit as the decoder needs it: the stack decoder asks for a
      margin, and for metrics that stay inside its buckets. */
  predicate Sure(mettab: MetricTable, bit: bool, received: Byte, useStack: bool) {
    if useStack then Jelinek.Favoured(mettab, bit, received) && Jelinek.Tame(mettab, bit, received)
    else Fano.Favoured(mettab, bit, received)
  }

  /** Each received symbol favours the data bit sent. */
  ghost predicate Heard(mettab: MetricTable, symbols: seq<Byte>, received: seq<Byte>, useStack: bool)
    requires |symbols| == |received| == LENGTH
  {
    forall i :: 0 <= i < LENGTH ==> Sure(mettab, symbols[i] / 2 == 1, received[i], useStack)
  }

  lemma LowBitsZero(b: bv8, i: nat)
    requires b as int % 0x40 == 0 && 2 <= i < 8
    ensures !BitAt(b, i)
  {
    var n := b as int;
    assert n == 0 || n == 0x40 || n == 0x80 || n == 0xC0;
    assert b == n as bv8;
  }

  lemma LastBytes(p: Packed)
    ensures Bytes(p)[6] % 0x40 == 0 && forall n :: 7 <= n < 11 ==> Bytes(p)[n] == 0
  {
    hide GRIDS;
    assert Bytes(p)[6] == p.m % 4 * 0x40;
  }

  /** A packed message ends in the 31 zero bits of the tail. */
  lemma TailIsZero(p: Packed, data: seq<bv8>)
    requires |data| == 11 && Ints(data) == Bytes(p)
    ensures forall j :: 50 <= j < 88 ==> !BitsOf(data)[j]
  {
    hide BitAt, BitsOf, Bytes;
    LastBytes(p);
    assert data[6] as Byte == Ints(data)[6] && forall n :: 7 <= n < 11 ==> data[n] as Byte == Ints(data)[n];
    forall j | 50 <= j < 88
      ensures !BitsOf(data)[j]
    {
      var n, i := j / 8, j % 8;
      BitOfByte(data, n, i);
      if n > 6 {
        assert data[n] == 0;
        ZeroByte(i);
      } else {
        LowBitsZero(data[6], i);
      }
    }
  }

  lemma PlaceOf(sent: seq<Byte>, message: seq<Byte>, k: nat)
    requires |sent| == |message| == LENGTH && IsInterleaved(sent, message) && k < LENGTH
    ensures |Order(256)| == LENGTH && sent[Order(256)[k]] == message[k]
  {
    hide Order;
  }

  lemma CodedBit(message: seq<bool>, k: nat)
    requires |message| == MESSAGE_BITS && k < LENGTH
    ensures |ChannelBits(message)| == LENGTH && CodedBytes(message)[k] == if ChannelBits(message)[k] then 1 else 0
  {
    hide ChannelBits;
  }

  /** The receiver's view after deinterleaving: every code bit of the message is favoured. */
  lemma CodeIsHeard(mettab: MetricTable, message: seq<bool>, sync: seq<bool>, symbols: seq<Byte>,
                    received: seq<Byte>, ordered: seq<Byte>, useStack: bool)
    requires |symbols| == |received| == |ordered| == LENGTH == |sync| && |message| == MESSAGE_BITS
    requires Carries(symbols, message, sync) && Heard(mettab, symbols, received, useStack) && IsInterleaved(received, ordered)
    ensures forall k :: 0 <= k < LENGTH ==> Sure(mettab, ChannelBits(message)[k], ordered[k], useStack)
  {
    var coded: seq<Byte> :| |coded| == LENGTH && IsInterleaved(coded, CodedBytes(message))
      && forall i :: 0 <= i < LENGTH ==> symbols[i] == 2 * coded[i] as int + if sync[i] then 1 else 0;
    hide *;
    forall k | 0 <= k < LENGTH
      ensures Sure(mettab, ChannelBits(message)[k], ordered[k], useStack)
    {
      PlaceOf(received, ordered, k);
      PlaceOf(coded, CodedBytes(message), k);
      CodedBit(message, k);
      HeardAt(mettab, symbols, received, useStack, Order(256)[k]);
      DataBit(symbols[Order(256)[k]], coded[Order(256)[k]], sync[Order(256)[k]]);
    }
  }

  lemma DataBit(symbol: Byte, bit: Byte, sync: bool)
    requires symbol == 2 * bit as int + if sync then 1 else 0
    ensures symbol / 2 == bit
  {
  }

  lemma HeardAt(mettab: MetricTable, symbols: seq<Byte>, received: seq<Byte>, useStack: bool, i: nat)
    requires |symbols| == |received| == LENGTH && Heard(mettab, symbols, received, useStack) && i < LENGTH
    ensures Sure(mettab, symbols[i] / 2 == 1, received[i], useStack)
  {
    hide Sure;
  }

  /** What each decoder needs to know of the ordered symbols to find the message. */
  ghost predicate IsClear(mettab: MetricTable, ordered: seq<Byte>, message: seq<bool>, useStack: bool)
    requires |ordered| == LENGTH
  {
    if useStack then
      Jelinek.Clean(mettab, ordered, MESSAGE_BITS, message) && Jelinek.FitsAround(mettab, ordered, MESSAGE_BITS, message)
    else Fano.Clean(mettab, ordered, MESSAGE_BITS, message)
  }

  lemma SureIsClear(mettab: MetricTable, ordered: seq<Byte>, message: seq<bool>, useStack: bool)
    requires |ordered| == LENGTH && |message| == MESSAGE_BITS && forall j :: 50 <= j < MESSAGE_BITS ==> !message[j]
    requires forall k :: 0 <= k < LENGTH ==> Sure(mettab, ChannelBits(message)[k], ordered[k], useStack)
    ensures IsClear(mettab, ordered, message, useStack)
  {
    hide ChannelBits, Fano.Favoured, Jelinek.Favoured, Jelinek.Tame, Jelinek.FitsAround;
    if useStack {
      Jelinek.TameFits(mettab, ordered, MESSAGE_BITS, message);
    }
  }

  lemma IsClean(mettab: MetricTable, p: Packed, data: seq<bv8>, sync: seq<bool>, symbols: seq<Byte>,
                received: seq<Byte>, ordered: seq<Byte>, useStack: bool)
    requires OnAir(p, data, sync, symbols) && |received| == |ordered| == LENGTH
    requires Heard(mettab, symbols, received, useStack) && IsInterleaved(received, ordered)
    ensures IsClear(mettab, ordered, BitsOf(data)[..MESSAGE_BITS], useStack)
  {
    hide BitsOf, ChannelBits, Carries, Heard, IsInterleaved, Bytes, Ints, Sure, IsClear;
    TailIsZero(p, data);
    CodeIsHeard(mettab, BitsOf(data)[..MESSAGE_BITS], sync, symbols, received, ordered, useStack);
    SureIsClear(mettab, ordered, BitsOf(data)[..MESSAGE_BITS], useStack);
  }

  /** Unpacking reads the first seven bytes only. */
  lemma SameStart(a: seq<Byte>, b: seq<Byte>, t: Tables, hash: string -> nat)
    requires |a| >= 7 && |b| >= 7 && a[..7] == b[..7]
    ensures Unpack(a, t, hash) == Unpack(b, t, hash)
  {
    hide UnpackFields;
    assert forall i :: 0 <= i < 7 ==> a[i] == a[..7][i] == b[i];
  }

  /** The decoded bytes start like the bytes sent. */
  lemma SameFields(decoded: seq<bv8>, data: seq<bv8>, p: Packed, t: Tables, hash: string -> nat)
    requires |decoded| == |data| == 11 && Ints(data) == Bytes(p)
    requires BitsOf(decoded[..7]) == BitsOf(data)[..56]
    ensures Unpack(Ints(decoded), t, hash) == Unpack(Bytes(p), t, hash)
  {
    hide BitsOf, Unpack, Bytes;
    FirstBits(data, data[..7]);
    SameBytes(decoded[..7], data[..7]);
    assert forall i :: 0 <= i < 7 ==> decoded[i] == decoded[..7][i] == data[..7][i] == data[i];
    SameStart(Ints(decoded), Ints(data), t, hash);
  }

  /** A message with a zero tail whose re-encoded bits correlate with the symbols as the metric says. */
  ghost predicate IsReading(mettab: MetricTable, ordered: seq<Byte>, message: seq<bool>, metric: int)
    requires |ordered| == LENGTH
  {
    && |message| == MESSAGE_BITS && (forall j :: 50 <= j < MESSAGE_BITS ==> !message[j])
    && metric == Correlation(mettab, ChannelBits(message), ordered) % Fano.UINT32
  }

  /** The cycles asked for stay far enough below 2^32 for running out of them to be noticed. */
  predicate CyclesCounted(maxcycles: nat, useStack: bool) {
    useStack ==> maxcycles * MESSAGE_BITS < Jelinek.UINT32 - 2
  }

  /** Either decoder on the ordered symbols. What is decoded is a reading of them, and the seven
      bytes that matter hold its first bits. */
  method RunDecoder(useStack: bool, symbols: seq<Byte>, stack: array<Jelinek.Node>, mettab: MetricTable, delta: int,
                    maxcycles: nat, data: array<bv8>, ghost sent: seq<bool>)
    returns (ok: bool, metric: int, ghost message: seq<bool>)
    requires |symbols| == LENGTH && delta > 0 && stack.Length >= 2 && data.Length == 11
    modifies stack, data
    ensures ok && CyclesCounted(maxcycles, useStack) ==>
      IsReading(mettab, symbols, message, metric) && BitsOf(data[..7]) == message[..56]
    ensures IsClear(mettab, symbols, sent, useStack) && (useStack ==> stack.Length >= MESSAGE_BITS)
            && 2 <= maxcycles && maxcycles * MESSAGE_BITS < Fano.UINT32 ==>
      ok && |sent| == MESSAGE_BITS && BitsOf(data[..7]) == sent[..56]
  {
    hide IsClear, IsReading;
    if useStack {
      ok, metric, message := RunStack(symbols, stack, mettab, maxcycles, data, sent);
    } else {
      ok, metric, message := RunFano(symbols, mettab, delta, maxcycles, data, sent);
    }
  }

  method RunFano(symbols: seq<Byte>, mettab: MetricTable, delta: int, maxcycles: nat, data: array<bv8>, ghost sent: seq<bool>)
    returns (ok: bool, metric: int, ghost message: seq<bool>)
    requires |symbols| == LENGTH && delta > 0 && data.Length == 11
    modifies data
    ensures ok ==> IsReading(mettab, symbols, message, metric) && BitsOf(data[..7]) == message[..56]
    ensures IsClear(mettab, symbols, sent, false) && 2 <= maxcycles && maxcycles * MESSAGE_BITS < Fano.UINT32 ==>
      ok && |sent| == MESSAGE_BITS && BitsOf(data[..7]) == sent[..56]
  {
    hide IsClear, IsReading, Fano.Message, Fano.IsDecoding, Fano.Spent, Fano.CycleLimit, BitsOf;
    hide FanoWalk.After, FanoWalk.IsNearlyBest, FanoWalk.Gamma, FanoWalk.Deepest;
    ghost var cycles, maxnp, finished, spent;
    ok, metric, cycles, maxnp, finished, spent := Fano.Decode(symbols, MESSAGE_BITS, mettab, delta, maxcycles, data);
    message := Fano.Message(data[..10], MESSAGE_BITS);
    FirstSeven(data[..10], data[..7], message);
    if ok {
      DecodedReading(mettab, symbols, message, metric);
    }
    if IsClear(mettab, symbols, sent, false) && 2 <= maxcycles && maxcycles * MESSAGE_BITS < Fano.UINT32 {
      ClearSearch(FanoWalk.Block(mettab, symbols, MESSAGE_BITS, delta), sent, maxcycles, finished, spent);
    }
  }

  lemma FirstSeven(bytes: seq<bv8>, start: seq<bv8>, message: seq<bool>)
    requires |bytes| == 10 && start == bytes[..7] && message == Fano.Message(bytes, MESSAGE_BITS)
    ensures BitsOf(start) == message[..56]
  {
    hide BitsOf;
    assert message[..56] == BitsOf(bytes)[..56];
    FirstBits(bytes, start);
  }

  /** Clear symbols are decoded in as many cycles as there are bits. */
  lemma ClearSearch(b: FanoWalk.Block, sent: seq<bool>, maxcycles: nat, finished: bool, spent: nat)
    requires FanoWalk.ValidBlock(b) && b.nbits == MESSAGE_BITS && |b.symbols| == LENGTH
    requires IsClear(b.mettab, b.symbols, sent, false) && 2 <= maxcycles && maxcycles * MESSAGE_BITS < Fano.UINT32
    requires Fano.Spent(b, Fano.CycleLimit(maxcycles, MESSAGE_BITS), finished, spent)
    ensures finished && spent < Fano.CycleLimit(maxcycles, MESSAGE_BITS)
    ensures |sent| == MESSAGE_BITS && FanoWalk.After(b, spent).bits == sent
  {
    hide Fano.Favours, Fano.ZeroTail, Fano.Spent, FanoWalk.After;
    Fano.CleanDecode(b, sent, Fano.CycleLimit(maxcycles, MESSAGE_BITS), finished, spent);
  }

  lemma DecodedReading(mettab: MetricTable, symbols: seq<Byte>, message: seq<bool>, metric: int)
    requires |symbols| == LENGTH && |message| == MESSAGE_BITS && Fano.IsDecoding(mettab, symbols, message, metric)
    ensures IsReading(mettab, symbols, message, metric)
  {
    hide ChannelBits, Correlation;
    assert forall j :: 50 <= j < MESSAGE_BITS ==> FanoWalk.IsTail(|message|, j);
  }

  method RunStack(symbols: seq<Byte>, stack: array<Jelinek.Node>, mettab: MetricTable, maxcycles: nat, data: array<bv8>,
                  ghost sent: seq<bool>)
    returns (ok: bool, metric: int, ghost message: seq<bool>)
    requires |symbols| == LENGTH && stack.Length >= 2 && data.Length == 11
    modifies stack, data
    ensures ok && CyclesCounted(maxcycles, true) ==>
      IsReading(mettab, symbols, message, metric) && BitsOf(data[..7]) == message[..56]
    ensures IsClear(mettab, symbols, sent, true) && stack.Length >= MESSAGE_BITS
            && 2 <= maxcycles && maxcycles * MESSAGE_BITS < Fano.UINT32 ==>
      ok && |sent| == MESSAGE_BITS && BitsOf(data[..7]) == sent[..56]
  {
    hide IsClear, IsReading, Jelinek.Message, Jelinek.TimedOut, BitsOf;
    hide StackSearch.After, StackSearch.IsBest, StackSearch.PathMetric;
    ghost var cycles, finished, spent;
    var stray;
    ghost var b := StackSearch.Block(mettab, symbols, MESSAGE_BITS, stack.Length);
    ok, metric, cycles, stray, finished, spent := Jelinek.Decode(symbols, MESSAGE_BITS, stack, mettab, maxcycles, data);
    message := Jelinek.Message(data[..7], MESSAGE_BITS);
    FirstOfSeven(data[..7], message);
    if finished {
      FinishedReading(b, Jelinek.CycleLimit(maxcycles, MESSAGE_BITS), message, metric);
    }
    if IsClear(mettab, symbols, sent, true) && stack.Length >= MESSAGE_BITS
       && 2 <= maxcycles && maxcycles * MESSAGE_BITS < Fano.UINT32 {
      ClearQueue(b, sent, maxcycles, stray, finished, spent);
    }
  }

  lemma FirstOfSeven(bytes: seq<bv8>, message: seq<bool>)
    requires |bytes| == 7 && message == Jelinek.Message(bytes, MESSAGE_BITS)
    ensures BitsOf(bytes) == message[..56]
  {
    hide BitsOf;
  }

  lemma FinishedReading(b: StackSearch.Block, limit: nat, message: seq<bool>, metric: int)
    requires StackSearch.ValidBlock(b) && b.nbits == MESSAGE_BITS && |b.symbols| == LENGTH
    requires var q := StackSearch.After(b, limit);
      message == q.hand && StackSearch.IsBest(b, q.lost, message)
      && metric == StackSearch.PathMetric(b.mettab, b.symbols, message) % Jelinek.UINT32
    ensures IsReading(b.mettab, b.symbols, message, metric)
  {
    hide ChannelBits, Correlation, StackSearch.After, StackSearch.Lowest;
  }

  /** Clear symbols are decoded in as many cycles as there are bits. */
  lemma ClearQueue(b: StackSearch.Block, sent: seq<bool>, maxcycles: nat, stray: bool, finished: bool, spent: nat)
    requires StackSearch.ValidBlock(b) && b.nbits == MESSAGE_BITS && |b.symbols| == LENGTH && b.slots >= MESSAGE_BITS
    requires IsClear(b.mettab, b.symbols, sent, true) && 2 <= maxcycles && maxcycles * MESSAGE_BITS < Fano.UINT32
    requires Jelinek.Spent(b, Jelinek.CycleLimit(maxcycles, MESSAGE_BITS), stray, finished, spent)
    ensures finished && spent + 1 < maxcycles * MESSAGE_BITS
    ensures |sent| == MESSAGE_BITS && StackSearch.After(b, Jelinek.CycleLimit(maxcycles, MESSAGE_BITS)).hand == sent
  {
    hide Jelinek.Clean, Jelinek.FitsAround, Jelinek.Spent, StackSearch.After;
    Jelinek.CleanDecode(b, sent, Jelinek.CycleLimit(maxcycles, MESSAGE_BITS), stray, finished, spent);
    Jelinek.CleanLength(b.mettab, b.symbols, b.nbits, sent);
  }

  lemma FirstBits(bytes: seq<bv8>, start: seq<bv8>)
    requires |bytes| >= 7 && start == bytes[..7]
    ensures BitsOf(start) == BitsOf(bytes)[..56]
  {
    hide BitAt;
  }

  lemma SentBytes(p: Packed, data: seq<bv8>, sync: seq<bool>, symbols: seq<Byte>)
    requires OnAir(p, data, sync, symbols)
    ensures |data| == 11 && Ints(data) == Bytes(p) && |BitsOf(data)| == 88
  {
    hide BitsOf, Bytes, Carries;
  }

  // ----- what the receiver prints of a message that comes back whole

  ghost predicate SaysPlain(p: Packed, spot: Spot) {
    forall call: string, grid: string, power: int ::
      CanonicalCall(call) && CanonicalGrid(grid) && WholePower(power) && Fits(call) && p == PackPlain(call, grid, power) ==>
        spot == Plain(call, grid, power)
  }

  ghost predicate SaysPrefix(p: Packed, spot: Spot) {
    forall prefix: string, call: string, power: int ::
      CanonicalPrefix(prefix) && CanonicalCall(call) && |call| >= 3 && Fits(call) && WholePower(power)
      && (PrefixCode(prefix) < 32400 || PrefixCode(prefix) > 32768) && p == PackSlashed(prefix, call, power) ==>
        spot == Slashed(prefix + "/" + call, power)
  }

  ghost predicate SaysSuffix(p: Packed, spot: Spot) {
    forall call: string, suffix: char, power: int ::
      CanonicalCall(call) && Fits(call) && |call| <= 6 && IsAlphanumeric(suffix) && WholePower(power)
      && p == PackSlashed(call, [suffix], power) ==>
        spot == Slashed(call + "/" + [suffix], power)
  }

  ghost predicate SaysTwoDigits(p: Packed, spot: Spot) {
    forall call: string, tens: char, ones: char, power: int ::
      CanonicalCall(call) && Fits(call) && |call| <= 6 && IsDigit(tens) && tens != '0' && IsDigit(ones) && WholePower(power)
      && p == PackSlashed(call, [tens, ones], power) ==>
        spot == Slashed(call + "/" + [tens, ones], power)
  }

  ghost predicate SaysHashed(p: Packed, spot: Spot, t: Tables) {
    forall h: nat, grid: string, power: int ::
      h < GRIDS && CanonicalGrid6(grid) && Fits(Rotated(grid)) && WholePower(power) && p == PackHashed(h, grid, power) ==>
        spot == Hashed(Known(t, h), grid, power)
  }

  /** The fields packed, whichever kind of message they are. */
  ghost predicate Says(p: Packed, spot: Spot, t: Tables) {
    SaysPlain(p, spot) && SaysPrefix(p, spot) && SaysSuffix(p, spot) && SaysTwoDigits(p, spot) && SaysHashed(p, spot, t)
  }

  lemma UnpackedPlain(p: Packed, t: Tables, hash: string -> nat)
    ensures SaysPlain(p, Unpack(Bytes(p), t, hash).0)
  {
    hide PackPlain, Unpack, Bytes, CanonicalCall, Fits, WholePower;
    forall call: string, grid: string, power: int |
      CanonicalCall(call) && CanonicalGrid(grid) && WholePower(power) && Fits(call) && p == PackPlain(call, grid, power)
      ensures Unpack(Bytes(p), t, hash).0 == Plain(call, grid, power)
    {
      PlainRoundTrip(call, grid, power, t, hash);
    }
  }

  lemma UnpackedPrefix(p: Packed, t: Tables, hash: string -> nat)
    ensures SaysPrefix(p, Unpack(Bytes(p), t, hash).0)
  {
    hide PackSlashed, Unpack, Bytes, CanonicalCall, CanonicalPrefix, PrefixCode, Fits, WholePower;
    forall prefix: string, call: string, power: int |
      CanonicalPrefix(prefix) && CanonicalCall(call) && |call| >= 3 && Fits(call) && WholePower(power)
      && (PrefixCode(prefix) < 32400 || PrefixCode(prefix) > 32768) && p == PackSlashed(prefix, call, power)
      ensures Unpack(Bytes(p), t, hash).0 == Slashed(prefix + "/" + call, power)
    {
      PrefixRoundTrip(prefix, call, power, t, hash);
    }
  }

  lemma UnpackedSuffix(p: Packed, t: Tables, hash: string -> nat)
    ensures SaysSuffix(p, Unpack(Bytes(p), t, hash).0)
  {
    hide PackSlashed, Unpack, Bytes, CanonicalCall, Fits, WholePower;
    forall call: string, suffix: char, power: int |
      CanonicalCall(call) && Fits(call) && |call| <= 6 && IsAlphanumeric(suffix) && WholePower(power)
      && p == PackSlashed(call, [suffix], power)
      ensures Unpack(Bytes(p), t, hash).0 == Slashed(call + "/" + [suffix], power)
    {
      SuffixRoundTrip(call, suffix, power, t, hash);
    }
  }

  lemma UnpackedTwoDigits(p: Packed, t: Tables, hash: string -> nat)
    ensures SaysTwoDigits(p, Unpack(Bytes(p), t, hash).0)
  {
    hide PackSlashed, Unpack, Bytes, CanonicalCall, Fits, WholePower;
    forall call: string, tens: char, ones: char, power: int |
      CanonicalCall(call) && Fits(call) && |call| <= 6 && IsDigit(tens) && tens != '0' && IsDigit(ones) && WholePower(power)
      && p == PackSlashed(call, [tens, ones], power)
      ensures Unpack(Bytes(p), t, hash).0 == Slashed(call + "/" + [tens, ones], power)
    {
      TwoDigitRoundTrip(call, tens, ones, power, t, hash);
    }
  }

  lemma UnpackedHashed(p: Packed, t: Tables, hash: string -> nat)
    ensures SaysHashed(p, Unpack(Bytes(p), t, hash).0, t)
  {
    hide PackHashed, Unpack, Bytes, Known, Fits, WholePower;
    forall h: nat, grid: string, power: int |
      h < GRIDS && CanonicalGrid6(grid) && Fits(Rotated(grid)) && WholePower(power) && p == PackHashed(h, grid, power)
      ensures Unpack(Bytes(p), t, hash).0 == Hashed(Known(t, h), grid, power)
    {
      HashedRoundTrip(h, grid, power, t, hash);
    }
  }

  lemma UnpackedSays(p: Packed, t: Tables, hash: string -> nat)
    ensures Says(p, Unpack(Bytes(p), t, hash).0, t)
  {
    hide Unpack, Bytes, SaysPlain, SaysPrefix, SaysSuffix, SaysTwoDigits, SaysHashed;
    UnpackedPlain(p, t, hash);
    UnpackedPrefix(p, t, hash);
    UnpackedSuffix(p, t, hash);
    UnpackedTwoDigits(p, t, hash);
    UnpackedHashed(p, t, hash);
  }

  /** The spot printed is what unpacking makes of a message read from the ordered symbols. */
  ghost predicate SpotRead(mettab: MetricTable, ordered: seq<Byte>, message: seq<bool>, metric: int, bytes: seq<bv8>,
                           result: (Spot, bool, Tables), t: Tables, hash: string -> nat)
    requires |ordered| == LENGTH
  {
    && IsReading(mettab, ordered, message, metric) && |bytes| == 11 && BitsOf(bytes[..7]) == message[..56]
    && result == Unpack(Ints(bytes), t, hash)
  }

  /** The receiver's path for one candidate (deinterleave, decode with the chosen decoder, unpack),
      with the message it is meant to hear. */
  method Receive(useStack: bool, symbols: array<Byte>, stack: array<Jelinek.Node>, mettab: MetricTable, delta: int,
                 maxcycles: nat, t: Tables, hash: string -> nat,
                 ghost p: Packed, ghost data: seq<bv8>, ghost sync: seq<bool>, ghost sent: seq<Byte>)
    returns (decoded: bool, spot: Spot, noprint: bool, tables: Tables, ghost message: seq<bool>, ghost metric: int, ghost bytes: seq<bv8>)
    requires symbols.Length == LENGTH && delta > 0 && stack.Length >= 2 && |data| == 11 && |sent| == LENGTH
    modifies symbols, stack
    ensures IsInterleaved(old(symbols[..]), symbols[..])
    ensures decoded && CyclesCounted(maxcycles, useStack) ==>
      SpotRead(mettab, symbols[..], message, metric, bytes, (spot, noprint, tables), t, hash)
    ensures !decoded ==> spot == Failed && tables == t
    ensures OnAir(p, data, sync, sent) && Heard(mettab, sent, old(symbols[..]), useStack)
            && 2 <= maxcycles && maxcycles * MESSAGE_BITS < Fano.UINT32 && (useStack ==> stack.Length >= MESSAGE_BITS) ==>
      decoded && (spot, noprint, tables) == Unpack(Bytes(p), t, hash) && Says(p, spot, t)
  {
    hide Says, BitsOf, ChannelBits, OnAir, Heard, IsInterleaved, IsClear, IsReading, CyclesCounted, Unpack, Bytes, Ints;
    ghost var received := symbols[..];
    assert symbols[..LENGTH] == received;
    Deinterleave(symbols);
    assert symbols[..LENGTH] == symbols[..];
    var decdata := new bv8[11](_ => 0);
    decoded, metric, message := RunDecoder(useStack, symbols[..], stack, mettab, delta, maxcycles, decdata, BitsOf(data)[..MESSAGE_BITS]);
    bytes := decdata[..];
    assert bytes[..7] == decdata[..7];
    spot, noprint, tables := Failed, true, t;
    if decoded {
      var r := Unpack(Ints(decdata[..]), t, hash);
      spot, noprint, tables := r.0, r.1, r.2;
    }
    if OnAir(p, data, sync, sent) && Heard(mettab, sent, received, useStack) {
      IsClean(mettab, p, data, sync, sent, received, symbols[..], useStack);
      SentBytes(p, data, sync, sent);
      if BitsOf(bytes[..7]) == BitsOf(data)[..MESSAGE_BITS][..56] {
        assert BitsOf(data)[..MESSAGE_BITS][..56] == BitsOf(data)[..56];
        SameFields(bytes, data, p, t, hash);
        UnpackedSays(p, t, hash);
      }
    }
  }
}
