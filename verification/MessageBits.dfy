/** Message bytes as bit strings, high bit first, and the symbol metrics of a received block. */
module MessageBits {
  import opened Bits
  import opened ConvolutionalCode

  /** Metric table, [sent bit][received byte]. */
  type MetricTable = t: seq<seq<int>> | |t| == 2 && |t[0]| == 256 && |t[1]| == 256
    witness [seq(256, _ => 0), seq(256, _ => 0)]

  /** Metrics of the four symbol pairs, indexed 2*first + second. */
  datatype Metrics = Metrics(m0: int, m1: int, m2: int, m3: int) {
    function At(p: Pair): int {
      match p.Index()
      case 0 => m0
      case 1 => m1
      case 2 => m2
      case _ => m3
    }
  }

  function BranchMetrics(mettab: MetricTable, a: Byte, b: Byte): Metrics {
    Metrics(mettab[0][a] + mettab[0][b], mettab[0][a] + mettab[1][b],
            mettab[1][a] + mettab[0][b], mettab[1][a] + mettab[1][b])
  }

  /** `(unsigned char)encstate`. */
  function LowByte(w: bv64): bv8 {
    (w & 0xff) as bv8
  }

  lemma LowByteShift(w: bv64, bit: bool, i: nat)
    requires i < 8
    ensures BitAt(LowByte(Shift(w, bit)), i) == if i == 7 then bit else BitAt(LowByte(w), i + 1)
  {
  }

  /** The low byte of an encoder state is the last eight bits shifted in. */
  lemma {:induction false} LowByteOfState(bits: seq<bool>, i: nat)
    requires i < 8 && |bits| + i >= 8
    ensures BitAt(LowByte(State(bits)), i) == bits[|bits| - 8 + i]
    decreases bits
  {
    hide BitAt, LowByte, Shift;
    var earlier := bits[..|bits| - 1];
    LowByteShift(State(earlier), bits[|bits| - 1], i);
    if i < 7 {
      LowByteOfState(earlier, i + 1);
    }
  }

  /** The channel bits of a message, two per message bit. */
  ghost function ChannelBits(bits: seq<bool>): (channel: seq<bool>)
    ensures |channel| == 2 * |bits|
  {
    if bits == [] then []
    else
      var pair := Encode(State(bits));
      ChannelBits(bits[..|bits| - 1]) + [pair.first, pair.second]
  }

  /** The log-likelihood of sending `channel` when `received` came in, symbol by symbol. */
  ghost function Correlation(mettab: MetricTable, channel: seq<bool>, received: seq<Byte>): int
    requires |channel| <= |received|
  {
    if channel == [] then 0
    else
      var k := |channel| - 1;
      Correlation(mettab, channel[..k], received) + mettab[if channel[k] then 1 else 0][received[k]]
  }

  lemma {:induction false} ChannelPair(bits: seq<bool>, j: nat)
    requires j < |bits|
    ensures var pair := Encode(State(bits[..j + 1]));
      ChannelBits(bits)[2 * j] == pair.first && ChannelBits(bits)[2 * j + 1] == pair.second
  {
    hide Encode, State;
    var earlier := bits[..|bits| - 1];
    if j < |earlier| {
      ChannelPair(earlier, j);
      assert bits[..j + 1] == earlier[..j + 1];
    } else {
      assert bits[..j + 1] == bits;
    }
  }

  /** One more message bit adds the branch metric of its symbol pair. */
  lemma CorrelationStep(mettab: MetricTable, bits: seq<bool>, received: seq<Byte>)
    requires bits != [] && 2 * |bits| <= |received|
    ensures var n := |bits| - 1;
      Correlation(mettab, ChannelBits(bits), received)
      == Correlation(mettab, ChannelBits(bits[..n]), received)
         + BranchMetrics(mettab, received[2 * n], received[2 * n + 1]).At(Encode(State(bits)))
  {
    hide Encode, State;
    var n := |bits| - 1;
    var channel, earlier := ChannelBits(bits), ChannelBits(bits[..n]);
    assert channel[..2 * n + 1][..2 * n] == earlier;
    assert channel[..2 * n + 1] == earlier + [Encode(State(bits)).first];
  }

  /** The block received when every channel bit arrives as strong as can be. */
  ghost function Saturated(bits: seq<bool>): (symbols: seq<Byte>)
    ensures |symbols| == 2 * |bits|
    ensures forall k :: 0 <= k < |symbols| ==> symbols[k] == if ChannelBits(bits)[k] then 255 else 0
  {
    seq(2 * |bits|, k requires 0 <= k < 2 * |bits| => if ChannelBits(bits)[k] then 255 else 0)
  }
}
