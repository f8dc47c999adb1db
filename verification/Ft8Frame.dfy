/** FT8 channel symbols: Gray-coded tones with Costas sync blocks on the way out, soft bits from
    tone magnitudes on the way in. */
module Ft8Frame {
  import opened Bits

  const NN := 79
  const ND := 58
  const COSTAS: seq<nat> := [3, 1, 4, 0, 6, 5, 2]
  const GRAY: seq<nat> := [0, 1, 3, 2, 5, 6, 4, 7]

  function Three(a: bool, b: bool, c: bool): (v: nat)
    ensures v < 8
  {
    (if a then 4 else 0) + (if b then 2 else 0) + (if c then 1 else 0)
  }

  /** Position of data symbol k in the frame: past 7 or 14 sync symbols. */
  function SymbolOf(k: nat): nat {
    k + if k < 29 then 7 else 14
  }

  /** The tone that carries data symbol k. */
  function DataTone(code: seq<bool>, k: nat): (tone: nat)
    requires 3 * k + 2 < |code|
    ensures tone < 8
  {
    GRAY[Three(code[3 * k], code[3 * k + 1], code[3 * k + 2])]
  }

  /** The frame of a codeword: sync at 0, 36 and 72, data in between. */
  function Tone(code: seq<bool>, t: nat): (tone: nat)
    requires t < NN && |code| >= 3 * ND
    ensures tone < 8
  {
    if t < 7 then COSTAS[t]
    else if 36 <= t < 43 then COSTAS[t - 36]
    else if t >= 72 then COSTAS[t - 72]
    else DataTone(code, if t < 36 then t - 7 else t - 14)
  }

  /** Read the bit under the mask and move on. */
  method TakeBit(codeword: seq<bv8>, idx: nat, mask: bv8, ghost pos: nat) returns (bit: bool, idx': nat, mask': bv8)
    requires idx < |codeword| && pos / 8 == idx && mask == ByteMask(pos % 8)
    ensures bit == BitsOf(codeword)[pos]
    ensures (pos + 1) / 8 == idx' && mask' == ByteMask((pos + 1) % 8)
  {
    hide ByteMask, NextPlace, BitsOf;
    bit := codeword[idx] & mask != 0;
    BitOfByte(codeword, idx, pos % 8);
    NextPlaceIs(idx, pos % 8);
    var place := NextPlace(idx, mask);
    idx', mask' := place.0, place.1;
  }

  /** The framing half of `ft8_encode`. */
  method Modulate(codeword: seq<bv8>, tones: array<nat>)
    requires |codeword| == 22 && tones.Length >= NN
    modifies tones
    ensures forall t :: 0 <= t < NN ==> tones[t] == Tone(BitsOf(codeword), t)
  {
    hide ByteMask, BitsOf;
    var mask := ByteMask(0);
    var iByte := 0;
    ghost var pos := 0;
    for t := 0 to NN
      invariant pos == 3 * (if t < 7 then 0 else if t < 36 then t - 7 else if t < 43 then 29 else if t < 72 then t - 14 else ND)
      invariant iByte == pos / 8 && mask == ByteMask(pos % 8)
      invariant forall u :: 0 <= u < t ==> tones[u] == Tone(BitsOf(codeword), u)
    {
      if 0 <= t < 7 {
        tones[t] := COSTAS[t];
      } else if 36 <= t < 43 {
        tones[t] := COSTAS[t - 36];
      } else if 72 <= t < 79 {
        tones[t] := COSTAS[t - 72];
      } else {
        var b2, b1, b0;
        b2, iByte, mask := TakeBit(codeword, iByte, mask, pos);
        b1, iByte, mask := TakeBit(codeword, iByte, mask, pos + 1);
        b0, iByte, mask := TakeBit(codeword, iByte, mask, pos + 2);
        tones[t] := GRAY[Three(b2, b1, b0)];
        pos := pos + 3;
      }
    }
  }

  // ----- soft extraction

  /** `WF_ELEM_MAG`. */
  function Mag(x: Byte): real {
    x as real * 0.5 - 120.0
  }

  function Max2(a: real, b: real): real {
    if a >= b then a else b
  }

  function Max4(a: real, b: real, c: real, d: real): real {
    Max2(Max2(a, b), Max2(c, d))
  }

  /** The three soft bits of one symbol, from the magnitudes of its eight tones. */
  function SoftBits(wf: seq<Byte>): (soft: seq<real>)
    requires |wf| == 8
    ensures |soft| == 3
  {
    var s2 := seq(8, j requires 0 <= j < 8 => Mag(wf[GRAY[j]]));
    [Max4(s2[4], s2[5], s2[6], s2[7]) - Max4(s2[0], s2[1], s2[2], s2[3]),
     Max4(s2[2], s2[3], s2[6], s2[7]) - Max4(s2[0], s2[1], s2[4], s2[5]),
     Max4(s2[1], s2[3], s2[5], s2[7]) - Max4(s2[0], s2[2], s2[4], s2[6])]
  }

  /** Bit i of a number below 8, high bit first. */
  predicate BitOf(v: nat, i: nat) {
    (if i == 0 then v / 4 else if i == 1 then v / 2 else v) % 2 == 1
  }

  /** Of the tones whose number has this bit, `v` numbers a loudest. */
  ghost predicate Loudest(wf: seq<Byte>, i: nat, bit: bool, v: nat)
    requires |wf| == 8
  {
    v < 8 && BitOf(v, i) == bit && forall u: nat :: u < 8 && BitOf(u, i) == bit ==> wf[GRAY[u]] <= wf[GRAY[v]]
  }

  /** There is such a tone for either bit. */
  lemma {:induction false} LoudestExists(wf: seq<Byte>, i: nat, bit: bool) returns (v: nat)
    requires |wf| == 8 && i < 3
    ensures Loudest(wf, i, bit, v)
  {
    var found := false;
    v := 0;
    for u := 0 to 8
      invariant found ==> v < 8 && BitOf(v, i) == bit
      invariant !found ==> forall w: nat :: w < u ==> BitOf(w, i) != bit
      invariant found ==> forall w: nat :: w < u && BitOf(w, i) == bit ==> wf[GRAY[w]] <= wf[GRAY[v]]
    {
      if BitOf(u, i) == bit && (!found || wf[GRAY[u]] > wf[GRAY[v]]) {
        found, v := true, u;
      }
    }
    assert BitOf(0, i) == false && BitOf(7, i) == true;
  }

  /** Soft bit i is half the amount by which the loudest tone that stands for a one there exceeds
      the loudest that stands for a zero. */
  lemma SoftBitIs(wf: seq<Byte>, i: nat) returns (one: nat, zero: nat)
    requires |wf| == 8 && i < 3
    ensures Loudest(wf, i, true, one) && Loudest(wf, i, false, zero)
    ensures SoftBits(wf)[i] == (wf[GRAY[one]] as real - wf[GRAY[zero]] as real) * 0.5
  {
    one := LoudestExists(wf, i, true);
    zero := LoudestExists(wf, i, false);
    LargestOf(wf, i, true, one);
    LargestOf(wf, i, false, zero);
    hide Loudest, Max4;
  }

  /** The four numbers with this bit. */
  function With(i: nat, bit: bool): (four: seq<nat>)
    requires i < 3
    ensures |four| == 4 && forall j :: 0 <= j < 4 ==> four[j] < 8 && BitOf(four[j], i) == bit
    ensures forall u: nat :: u < 8 && BitOf(u, i) == bit ==> u in four
  {
    match (i, bit)
    case (0, true) => [4, 5, 6, 7]
    case (0, false) => [0, 1, 2, 3]
    case (1, true) => [2, 3, 6, 7]
    case (1, false) => [0, 1, 4, 5]
    case (_, true) => [1, 3, 5, 7]
    case (_, false) => [0, 2, 4, 6]
  }

  lemma LargestOf(wf: seq<Byte>, i: nat, bit: bool, v: nat)
    requires |wf| == 8 && i < 3 && Loudest(wf, i, bit, v)
    ensures var four := With(i, bit);
      Max4(Mag(wf[GRAY[four[0]]]), Mag(wf[GRAY[four[1]]]), Mag(wf[GRAY[four[2]]]), Mag(wf[GRAY[four[3]]])) == Mag(wf[GRAY[v]])
  {
    var four := With(i, bit);
    assert v in four;
    hide With, BitOf;
    assert forall j :: 0 <= j < 4 ==> wf[GRAY[four[j]]] <= wf[GRAY[v]];
  }

  /** The tone is louder than all the others. */
  predicate Strongest(wf: seq<Byte>, tone: nat)
    requires |wf| == 8 && tone < 8
  {
    forall t :: 0 <= t < 8 && t != tone ==> wf[t] < wf[tone]
  }

  /** When the sent tone is the loudest, all three soft bits have the sign of the sent bits. */
  lemma SoftBitsSign(wf: seq<Byte>, a: bool, b: bool, c: bool)
    requires |wf| == 8 && Strongest(wf, GRAY[Three(a, b, c)])
    ensures var soft := SoftBits(wf);
      (soft[0] > 0.0) == a && (soft[1] > 0.0) == b && (soft[2] > 0.0) == c
  {
  }
}
