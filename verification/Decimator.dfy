/** The streaming decimator of one complex sample stream, over exact reals. */
module Decimator {
  import opened CicFilter

  datatype Sample = Sample(re: real, im: real)

  const OUTPUT_RATE: nat := 375

  function Re(x: seq<Sample>): (r: seq<real>)
    ensures |r| == |x|
  {
    seq(|x|, k requires 0 <= k < |x| => x[k].re)
  }

  function Im(x: seq<Sample>): (r: seq<real>)
    ensures |r| == |x|
  {
    seq(|x|, k requires 0 <= k < |x| => x[k].im)
  }

  /** The fields of one channel. */
  datatype Channel = Channel(integrator1: real, integrator2: real, comb1z1: real, comb1z2: real,
                             comb2z1: real, comb2z2: real, fir: seq<real>)

  function Silence(): seq<real> {
    seq(TAPS, _ => 0.0)
  }

  function Integrated(c: Channel, input: real): Channel {
    c.(integrator1 := c.integrator1 + input, integrator2 := c.integrator2 + (c.integrator1 + input))
  }

  function Combed(c: Channel): Channel
    requires |c.fir| == TAPS
  {
    var comb1 := c.integrator2 - c.comb1z2;
    Channel(c.integrator1, c.integrator2, c.integrator2, c.comb1z1, comb1, c.comb2z1, c.fir[1..] + [comb1 - c.comb2z2])
  }

  /** The channel holds what the input history x demands, `phase` inputs after an output. */
  ghost predicate Follows(c: Channel, x: seq<real>, phase: nat, factor: nat) {
    var t, last, delay := |x|, |x| - phase, 2 * factor;
    && c.integrator1 == Sum1(x, t) && c.integrator2 == Sum2(x, t)
    && c.comb1z1 == Sum2(x, last) && c.comb1z2 == Sum2(x, last - factor)
    && c.comb2z1 == Comb1(x, last, delay) && c.comb2z2 == Comb1(x, last - factor, delay)
    && |c.fir| == TAPS && forall j :: 0 <= j < TAPS ==> c.fir[j] == Comb2(x, last - Times(TAPS - 1 - j, factor), delay)
  }

  lemma FollowsFromStart(factor: nat)
    ensures Follows(Channel(0.0, 0.0, 0.0, 0.0, 0.0, 0.0, Silence()), Re([]), 0, factor)
    ensures Follows(Channel(0.0, 0.0, 0.0, 0.0, 0.0, 0.0, Silence()), Im([]), 0, factor)
  {
  }

  /** An input moves the integrators only. */
  lemma IntegrateFollows(c: Channel, x: seq<real>, phase: nat, factor: nat, input: real)
    requires Follows(c, x, phase, factor)
    ensures Follows(Integrated(c, input), x + [input], phase + 1, factor)
  {
    var last, delay, y := |x| - phase, 2 * factor, x + [input];
    Sum1Prefix(x, [input], |x|);
    Sum2Prefix(x, [input], |x|);
    assert At(y, |x|) == input;
    Sum2Prefix(x, [input], last);
    Sum2Prefix(x, [input], last - factor);
    CombPrefix(x, [input], last, delay);
    CombPrefix(x, [input], last - factor, delay);
    var d := Integrated(c, input);
    forall j | 0 <= j < TAPS ensures d.fir[j] == Comb2(y, |y| - (phase + 1) - Times(TAPS - 1 - j, factor), delay) {
      CombPrefix(x, [input], last - Times(TAPS - 1 - j, factor), delay);
    }
  }

  /** An output, factor inputs after the last one, moves the combs and the filter. */
  lemma CombFollows(c: Channel, x: seq<real>, factor: nat)
    requires Follows(c, x, factor, factor)
    ensures Follows(Combed(c), x, 0, factor)
  {
    var last, delay, d := |x| - factor, 2 * factor, Combed(c);
    assert last - factor == |x| - delay;
    forall j | 0 <= j < TAPS ensures d.fir[j] == Comb2(x, |x| - Times(TAPS - 1 - j, factor), delay) {
      if j < TAPS - 1 {
        assert d.fir[j] == c.fir[j + 1];
        assert Times(TAPS - 1 - j, factor) == Times(TAPS - 2 - j, factor) + factor;
      } else {
        assert Times(0, factor) == 0;
        assert d.fir[j] == Comb1(x, |x|, delay) - Comb1(x, |x| - delay, delay);
      }
    }
  }

  /** After an output the filter line holds the recent double moving sums of the input. */
  lemma FilterLine(c: Channel, x: seq<real>, factor: nat)
    requires Follows(c, x, 0, factor)
    ensures c.fir == Recent(x, |x| - 1, factor)
  {
    forall j | 0 <= j < TAPS ensures c.fir[j] == Recent(x, |x| - 1, factor)[j] {
      Comb2IsDoubleWindow(x, |x| - Times(TAPS - 1 - j, factor), 2 * factor);
    }
  }

  lemma Next(x: seq<Sample>, input: Sample)
    ensures Re(x + [input]) == Re(x) + [input.re] && Im(x + [input]) == Im(x) + [input.im]
  {
  }

  /** Inputs taken since the last output. */
  function Phase(n: nat, factor: nat): (phase: nat)
    requires factor > 0
    ensures phase < factor && (n == 0 ==> phase == 0)
  {
    n % factor
  }

  /** The phase goes up by one and wraps at the factor. */
  lemma PhaseCounts(n: nat, factor: nat)
    requires factor > 0
    ensures Phase(n + 1, factor) == if Phase(n, factor) + 1 < factor then Phase(n, factor) + 1 else 0
  {
    var q, phase := n / factor, n % factor;
    assert n == q * factor + phase;
    if phase + 1 < factor {
      Remainder(n + 1, q, phase + 1, factor);
    } else {
      assert q * factor + factor == (q + 1) * factor;
      Remainder(n + 1, q + 1, 0, factor);
    }
  }

  lemma Remainder(n: nat, q: int, r: nat, factor: nat)
    requires r < factor && n == q * factor + r
    ensures n % factor == r
  {
    var d := n / factor - q;
    assert n % factor - r == -(d * factor) by {
      assert n == (n / factor) * factor + n % factor;
      assert d * factor == (n / factor) * factor - q * factor;
    }
    Between(d, factor);
  }

  lemma Between(d: int, factor: nat)
    requires factor > 0 && 0 - factor < d * factor < factor
    ensures d == 0
  {
  }

  lemma Advanced(i: Channel, q: Channel, x: seq<Sample>, phase: nat, factor: nat, input: Sample)
    requires factor > 0 && phase == Phase(|x|, factor) && Follows(i, Re(x), phase, factor) && Follows(q, Im(x), phase, factor)
    ensures var y := x + [input];
      && Phase(|y|, factor) == (if phase + 1 < factor then phase + 1 else 0)
      && Follows(Integrated(i, input.re), Re(y), phase + 1, factor) && Follows(Integrated(q, input.im), Im(y), phase + 1, factor)
  {
    hide Follows, Re, Im, Phase, Integrated;
    Next(x, input);
    IntegrateFollows(i, Re(x), phase, factor, input.re);
    IntegrateFollows(q, Im(x), phase, factor, input.im);
    PhaseCounts(|x|, factor);
  }

  class Decimator {
    var factor: nat
    var phase: nat
    var iIntegrator1: real
    var iIntegrator2: real
    var qIntegrator1: real
    var qIntegrator2: real
    var iComb1Z1: real
    var iComb1Z2: real
    var iComb2Z1: real
    var iComb2Z2: real
    var qComb1Z1: real
    var qComb1Z2: real
    var qComb2Z1: real
    var qComb2Z2: real
    const iFir: array<real>
    const qFir: array<real>

    /** The inputs since the last reset. */
    ghost var inputs: seq<Sample>

    function IChannel(): Channel
      reads `iIntegrator1, `iIntegrator2, `iComb1Z1, `iComb1Z2, `iComb2Z1, `iComb2Z2, iFir
    {
      Channel(iIntegrator1, iIntegrator2, iComb1Z1, iComb1Z2, iComb2Z1, iComb2Z2, iFir[..])
    }

    function QChannel(): Channel
      reads `qIntegrator1, `qIntegrator2, `qComb1Z1, `qComb1Z2, `qComb2Z1, `qComb2Z2, qFir
    {
      Channel(qIntegrator1, qIntegrator2, qComb1Z1, qComb1Z2, qComb2Z1, qComb2Z2, qFir[..])
    }

    /** The state is what the inputs since the reset demand. */
    ghost predicate Valid()
      reads this, iFir, qFir
    {
      && iFir != qFir && iFir.Length == TAPS && qFir.Length == TAPS
      && (factor > 0 ==> phase == Phase(|inputs|, factor) && Follows(IChannel(), Re(inputs), phase, factor)
                         && Follows(QChannel(), Im(inputs), phase, factor))
    }

    constructor ()
      ensures Valid() && factor == 0 && fresh(iFir) && fresh(qFir)
    {
      factor, phase := 0, 0;
      iIntegrator1, iIntegrator2, qIntegrator1, qIntegrator2 := 0.0, 0.0, 0.0, 0.0;
      iComb1Z1, iComb1Z2, iComb2Z1, iComb2Z2 := 0.0, 0.0, 0.0, 0.0;
      qComb1Z1, qComb1Z2, qComb2Z1, qComb2Z2 := 0.0, 0.0, 0.0, 0.0;
      iFir := new real[TAPS](_ => 0.0);
      qFir := new real[TAPS](_ => 0.0);
      inputs := [];
    }

    /** `wspr_decimator_init`. */
    method Init(inputRate: nat) returns (ok: bool)
      requires Valid()
      modifies this, iFir, qFir
      ensures Valid() && ok == (inputRate > 0 && inputRate % OUTPUT_RATE == 0)
      ensures if ok then factor * OUTPUT_RATE == inputRate && inputs == [] else factor == old(factor) && inputs == old(inputs)
    {
      if inputRate == 0 || inputRate % OUTPUT_RATE != 0 {
        return false;
      }
      factor := inputRate / OUTPUT_RATE;
      Clear();
      ok := true;
    }

    /** `wspr_decimator_reset`: as freshly initialised for the same factor. */
    method Reset()
      requires Valid()
      modifies this, iFir, qFir
      ensures Valid() && factor == old(factor) && inputs == []
    {
      Clear();
    }

    /** `memset`, but for the factor. */
    method Clear()
      requires iFir != qFir && iFir.Length == TAPS && qFir.Length == TAPS
      modifies this, iFir, qFir
      ensures Valid() && factor == old(factor) && inputs == []
    {
      hide Follows, Phase, Silence, Re, Im;
      FollowsFromStart(factor);
      ClearScalars();
      ClearFilters();
      phase, inputs := 0, [];
    }

    method ClearScalars()
      modifies `iIntegrator1, `iIntegrator2, `qIntegrator1, `qIntegrator2, `iComb1Z1, `iComb1Z2, `iComb2Z1, `iComb2Z2,
        `qComb1Z1, `qComb1Z2, `qComb2Z1, `qComb2Z2
      ensures iIntegrator1 == iIntegrator2 == qIntegrator1 == qIntegrator2 == 0.0
      ensures iComb1Z1 == iComb1Z2 == iComb2Z1 == iComb2Z2 == qComb1Z1 == qComb1Z2 == qComb2Z1 == qComb2Z2 == 0.0
    {
      iIntegrator1, iIntegrator2, qIntegrator1, qIntegrator2 := 0.0, 0.0, 0.0, 0.0;
      iComb1Z1, iComb1Z2, iComb2Z1, iComb2Z2 := 0.0, 0.0, 0.0, 0.0;
      qComb1Z1, qComb1Z2, qComb2Z1, qComb2Z2 := 0.0, 0.0, 0.0, 0.0;
    }

    method ClearFilters()
      requires iFir != qFir && iFir.Length == TAPS && qFir.Length == TAPS
      modifies iFir, qFir
      ensures iFir[..] == Silence() && qFir[..] == Silence()
    {
      for index := 0 to TAPS
        invariant forall j :: 0 <= j < index ==> iFir[j] == 0.0 && qFir[j] == 0.0
      {
        iFir[index], qFir[index] := 0.0, 0.0;
      }
    }

    /** `wspr_decimator_process`: one output after every factor inputs, the compensated double
        moving sum of all inputs since the reset. */
    method Process(input: Sample) returns (ready: bool, output: Sample)
      requires Valid()
      modifies this, iFir, qFir
      ensures Valid() && factor == old(factor)
      ensures inputs == if factor == 0 then old(inputs) else old(inputs) + [input]
      ensures ready == (factor > 0 && Phase(|inputs|, factor) == 0)
      ensures ready ==> output == Sample(Output(Re(inputs), |inputs| - 1, factor), Output(Im(inputs), |inputs| - 1, factor))
    {
      output := Sample(0.0, 0.0);
      if factor == 0 {
        return false, output;
      }
      hide Follows, Re, Im, Output, Phase;
      Advance(input);
      if phase < factor {
        return false, output;
      }
      phase := 0;
      output := Emit();
      ready := true;
    }

    /** Integrate the input and step the phase. */
    method Advance(input: Sample)
      requires Valid() && factor > 0
      modifies `iIntegrator1, `qIntegrator1, `iIntegrator2, `qIntegrator2, `phase, `inputs
      ensures inputs == old(inputs) + [input] && 0 < phase <= factor
      ensures Follows(IChannel(), Re(inputs), phase, factor) && Follows(QChannel(), Im(inputs), phase, factor)
      ensures Phase(|inputs|, factor) == if phase < factor then phase else 0
    {
      hide Follows, Re, Im, Phase, Integrated;
      ghost var i, q, x, p := IChannel(), QChannel(), inputs, phase;
      Advanced(i, q, x, p, factor, input);
      Integrate(input);
      inputs := x + [input];
      phase := phase + 1;
    }

    method Integrate(input: Sample)
      modifies `iIntegrator1, `qIntegrator1, `iIntegrator2, `qIntegrator2
      ensures IChannel() == Integrated(old(IChannel()), input.re) && QChannel() == Integrated(old(QChannel()), input.im)
    {
      iIntegrator1 := iIntegrator1 + input.re;
      qIntegrator1 := qIntegrator1 + input.im;
      iIntegrator2 := iIntegrator2 + iIntegrator1;
      qIntegrator2 := qIntegrator2 + qIntegrator1;
    }

    /** The combs, the filter line and the output. */
    method Emit() returns (output: Sample)
      requires iFir != qFir && iFir.Length == TAPS && qFir.Length == TAPS && factor > 0 && phase == Phase(|inputs|, factor) == 0
      requires Follows(IChannel(), Re(inputs), factor, factor) && Follows(QChannel(), Im(inputs), factor, factor)
      modifies this, iFir, qFir
      ensures Valid() && factor == old(factor) && phase == 0 && inputs == old(inputs)
      ensures output == Sample(Output(Re(inputs), |inputs| - 1, factor), Output(Im(inputs), |inputs| - 1, factor))
    {
      hide Follows, Re, Im, Recent, Compensation, Dot, Phase, AtUnitGain;
      CombFollows(IChannel(), Re(inputs), factor);
      CombFollows(QChannel(), Im(inputs), factor);
      FilterLine(Combed(IChannel()), Re(inputs), factor);
      FilterLine(Combed(QChannel()), Im(inputs), factor);
      ghost var i, q := Combed(IChannel()), Combed(QChannel());
      Comb();
      assert IChannel() == i && QChannel() == q;
      var iSum, qSum := WeightedSums();
      output := Sample(AtUnitGain(iSum, factor), AtUnitGain(qSum, factor));
    }

    method Comb()
      requires iFir != qFir && iFir.Length == TAPS && qFir.Length == TAPS
      modifies `iComb1Z1, `iComb1Z2, `iComb2Z1, `iComb2Z2, `qComb1Z1, `qComb1Z2, `qComb2Z1, `qComb2Z2, iFir, qFir
      ensures IChannel() == Combed(old(IChannel())) && QChannel() == Combed(old(QChannel()))
    {
      var iComb1 := iIntegrator2 - iComb1Z2;
      var qComb1 := qIntegrator2 - qComb1Z2;
      iComb1Z2, qComb1Z2 := iComb1Z1, qComb1Z1;
      iComb1Z1, qComb1Z1 := iIntegrator2, qIntegrator2;

      var iComb2 := iComb1 - iComb2Z2;
      var qComb2 := qComb1 - qComb2Z2;
      iComb2Z2, qComb2Z2 := iComb2Z1, qComb2Z1;
      iComb2Z1, qComb2Z1 := iComb1, qComb1;

      Shift(iComb2, qComb2);
    }

    /** Move both filter lines up by one and append the newest values. */
    method Shift(iComb2: real, qComb2: real)
      requires iFir != qFir && iFir.Length == TAPS && qFir.Length == TAPS
      modifies iFir, qFir
      ensures iFir[..] == old(iFir[..])[1..] + [iComb2] && qFir[..] == old(qFir[..])[1..] + [qComb2]
    {
      for index := 0 to TAPS - 1
        invariant forall j :: 0 <= j < index ==> iFir[j] == old(iFir[..])[j + 1] && qFir[j] == old(qFir[..])[j + 1]
        invariant forall j :: index <= j < TAPS ==> iFir[j] == old(iFir[..])[j] && qFir[j] == old(qFir[..])[j]
      {
        iFir[index] := iFir[index + 1];
        qFir[index] := qFir[index + 1];
      }
      iFir[TAPS - 1], qFir[TAPS - 1] := iComb2, qComb2;
    }

    method WeightedSums() returns (iSum: real, qSum: real)
      requires iFir.Length == TAPS && qFir.Length == TAPS
      ensures iSum == Dot(iFir[..], Compensation(), TAPS) && qSum == Dot(qFir[..], Compensation(), TAPS)
    {
      hide Compensation;
      iSum, qSum := 0.0, 0.0;
      for index := 0 to TAPS
        invariant iSum == Dot(iFir[..], Compensation(), index) && qSum == Dot(qFir[..], Compensation(), index)
      {
        iSum := iSum + iFir[index] * Compensation()[index];
        qSum := qSum + qFir[index] * Compensation()[index];
      }
    }
  }
}
