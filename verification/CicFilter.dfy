/** What the decimator computes: a two-stage integrator-comb filter is a double moving sum. */
module CicFilter {

  /** Sample i of a signal that is zero before its start. */
  function At(x: seq<real>, i: int): real {
    if 0 <= i < |x| then x[i] else 0.0
  }

  /** Sum of x[t - b] over b in 0..len. */
  function Window(x: seq<real>, t: int, len: nat): real {
    if len == 0 then 0.0 else Window(x, t, len - 1) + At(x, t - (len - 1))
  }

  /** Sum of x[t - a - b] over a in 0..rows and b in 0..len. */
  function DoubleWindow(x: seq<real>, t: int, rows: nat, len: nat): real {
    if rows == 0 then 0.0 else DoubleWindow(x, t, rows - 1, len) + Window(x, t - (rows - 1), len)
  }

  // ----- the integrators and combs, as functions of the number of inputs taken

  /** The first integrator after t inputs. */
  function Sum1(x: seq<real>, t: int): real
    decreases if t <= 0 then 0 else t
  {
    if t <= 0 then 0.0 else Sum1(x, t - 1) + At(x, t - 1)
  }

  /** The second integrator after t inputs. */
  function Sum2(x: seq<real>, t: int): real
    decreases if t <= 0 then 0 else t
  {
    if t <= 0 then 0.0 else Sum2(x, t - 1) + Sum1(x, t)
  }

  /** The first comb: the second integrator against itself, delay inputs ago. */
  function Comb1(x: seq<real>, t: int, delay: int): real {
    Sum2(x, t) - Sum2(x, t - delay)
  }

  function Comb2(x: seq<real>, t: int, delay: int): real {
    Comb1(x, t, delay) - Comb1(x, t - delay, delay)
  }

  lemma {:induction false} Sum1Window(x: seq<real>, t: int, len: nat)
    ensures Sum1(x, t) - Sum1(x, t - len) == Window(x, t - 1, len)
  {
    if len == 0 {
    } else {
      Sum1Window(x, t, len - 1);
    }
  }

  /** A difference of the second integrator is a sum of the first. */
  function Sums1(x: seq<real>, t: int, rows: nat): real {
    if rows == 0 then 0.0 else Sums1(x, t, rows - 1) + Sum1(x, t - (rows - 1))
  }

  lemma {:induction false} Sum2Sums1(x: seq<real>, t: int, rows: nat)
    ensures Sum2(x, t) - Sum2(x, t - rows) == Sums1(x, t, rows)
  {
    if rows == 0 {
    } else {
      Sum2Sums1(x, t, rows - 1);
    }
  }

  lemma {:induction false} Sums1Window(x: seq<real>, t: int, rows: nat, len: nat)
    ensures Sums1(x, t, rows) - Sums1(x, t - len, rows) == DoubleWindow(x, t - 1, rows, len)
  {
    if rows == 0 {
    } else {
      Sums1Window(x, t, rows - 1, len);
      Sum1Window(x, t - (rows - 1), len);
    }
  }

  /** The second comb value is the double moving sum of the inputs up to the newest one. */
  lemma Comb2IsDoubleWindow(x: seq<real>, t: int, delay: nat)
    ensures Comb2(x, t, delay) == DoubleWindow(x, t - 1, delay, delay)
  {
    Sum2Sums1(x, t, delay);
    Sum2Sums1(x, t - delay, delay);
    Sums1Window(x, t, delay, delay);
  }

  // ----- inputs still to come do not matter

  lemma {:induction false} Sum1Prefix(x: seq<real>, y: seq<real>, t: int)
    requires t <= |x|
    ensures Sum1(x + y, t) == Sum1(x, t)
    decreases if t <= 0 then 0 else t
  {
    if t <= 0 {
    } else {
      Sum1Prefix(x, y, t - 1);
    }
  }

  lemma {:induction false} Sum2Prefix(x: seq<real>, y: seq<real>, t: int)
    requires t <= |x|
    ensures Sum2(x + y, t) == Sum2(x, t)
    decreases if t <= 0 then 0 else t
  {
    if t <= 0 {
    } else {
      Sum2Prefix(x, y, t - 1);
      Sum1Prefix(x, y, t);
    }
  }

  lemma CombPrefix(x: seq<real>, y: seq<real>, t: int, delay: nat)
    requires t <= |x|
    ensures Comb1(x + y, t, delay) == Comb1(x, t, delay) && Comb2(x + y, t, delay) == Comb2(x, t, delay)
  {
    Sum2Prefix(x, y, t);
    Sum2Prefix(x, y, t - delay);
    Sum2Prefix(x, y, t - delay - delay);
  }

  // ----- the compensation filter

  const TAPS: nat := 33

  function Compensation(): (taps: seq<real>)
    ensures |taps| == TAPS && forall j :: 0 <= j < TAPS ==> taps[j] == taps[TAPS - 1 - j]
  {
    [-0.0027772683, -0.0005058826, 0.0049745750, -0.0034059318, -0.0077557814, 0.0139375423, 0.0039896935, -0.0299394142,
     0.0162250643, 0.0405130860, -0.0580746013, -0.0272104968, 0.1183705475, -0.0306029022, -0.2011241667, 0.1615898423,
     0.5000000000,
     0.1615898423, -0.2011241667, -0.0306029022, 0.1183705475, -0.0272104968, -0.0580746013, 0.0405130860, 0.0162250643,
     -0.0299394142, 0.0039896935, 0.0139375423, -0.0077557814, -0.0034059318, 0.0049745750, -0.0005058826, -0.0027772683]
  }

  /** Sum of a[i] * b[i] over the first n positions. */
  function Dot(a: seq<real>, b: seq<real>, n: nat): real
    requires n <= |a| && n <= |b|
  {
    if n == 0 then 0.0 else Dot(a, b, n - 1) + a[n - 1] * b[n - 1]
  }

  /** k factors. */
  function Times(k: nat, factor: nat): nat {
    if k == 0 then 0 else Times(k - 1, factor) + factor
  }

  /** The double moving sums at the last 33 outputs, the newest at input position t. */
  function Recent(x: seq<real>, t: int, factor: nat): (fir: seq<real>)
    ensures |fir| == TAPS
  {
    seq(TAPS, j requires 0 <= j < TAPS => DoubleWindow(x, t - Times(TAPS - 1 - j, factor), 2 * factor, 2 * factor))
  }

  /** The filter's sum at unit gain: the two stages gain (2 * factor)^2. */
  function AtUnitGain(sum: real, factor: nat): real
    requires factor > 0
  {
    sum / (4.0 * factor as real * factor as real)
  }

  /** The output after input position t: the compensated double moving sum, at unit gain. */
  function Output(x: seq<real>, t: int, factor: nat): real
    requires factor > 0
  {
    AtUnitGain(Dot(Recent(x, t, factor), Compensation(), TAPS), factor)
  }

  // ----- a constant input comes out at unit gain

  /** The samples from one position to another are the same. */
  ghost predicate Constant(x: seq<real>, c: real, from: int, to: int) {
    forall i :: from <= i <= to ==> At(x, i) == c
  }

  lemma {:induction false} ConstantWindow(x: seq<real>, c: real, t: int, len: nat)
    requires Constant(x, c, t - len + 1, t)
    ensures Window(x, t, len) == c * len as real
  {
    hide At;
    if len == 0 {
    } else {
      ConstantWindow(x, c, t, len - 1);
    }
  }

  lemma {:induction false} ConstantDouble(x: seq<real>, c: real, t: int, rows: nat, len: nat)
    requires Constant(x, c, t - rows - len + 2, t)
    ensures DoubleWindow(x, t, rows, len) == c * len as real * rows as real
  {
    hide At, Window;
    if rows == 0 {
    } else {
      ConstantDouble(x, c, t, rows - 1, len);
      ConstantWindow(x, c, t - (rows - 1), len);
    }
  }

  function SumOf(a: seq<real>, n: nat): real
    requires n <= |a|
  {
    if n == 0 then 0.0 else SumOf(a, n - 1) + a[n - 1]
  }

  lemma {:induction false} ConstantDot(a: seq<real>, b: seq<real>, g: real, n: nat)
    requires n <= |a| && n <= |b| && forall j :: 0 <= j < n ==> a[j] == g
    ensures Dot(a, b, n) == g * SumOf(b, n)
  {
    if n == 0 {
    } else {
      ConstantDot(a, b, g, n - 1);
    }
  }

  lemma {:induction false} TimesIs(k: nat, factor: nat)
    ensures Times(k, factor) == k * factor
  {
    if k == 0 {
    } else {
      TimesIs(k - 1, factor);
    }
  }

  /** Over as many equal samples as the filter remembers, the output is the sample times the sum of
      the taps. */
  lemma UnitGain(x: seq<real>, t: int, factor: nat, c: real)
    requires factor > 0 && Constant(x, c, t - 36 * factor + 2, t)
    ensures Output(x, t, factor) == c * SumOf(Compensation(), TAPS)
  {
    hide At, DoubleWindow, Compensation, SumOf, Dot, AtUnitGain, Times;
    var gain := c * (2 * factor) as real * (2 * factor) as real;
    var fir := Recent(x, t, factor);
    forall j | 0 <= j < TAPS
      ensures fir[j] == gain
    {
      ConstantAt(x, t, factor, c, TAPS - 1 - j);
    }
    ConstantDot(fir, Compensation(), gain, TAPS);
    var sum := SumOf(Compensation(), TAPS);
    UnitOf(c, factor, gain, sum);
    assert Output(x, t, factor) == AtUnitGain(Dot(fir, Compensation(), TAPS), factor);
    assert Dot(fir, Compensation(), TAPS) == gain * sum;
  }

  lemma ConstantAt(x: seq<real>, t: int, factor: nat, c: real, back: nat)
    requires factor > 0 && Constant(x, c, t - 36 * factor + 2, t) && back < TAPS
    ensures DoubleWindow(x, t - Times(back, factor), 2 * factor, 2 * factor) == c * (2 * factor) as real * (2 * factor) as real
  {
    hide At, DoubleWindow;
    TimesIs(back, factor);
    Most(back, factor);
    ConstantDouble(x, c, t - Times(back, factor), 2 * factor, 2 * factor);
  }

  lemma Most(back: nat, factor: nat)
    requires back < TAPS
    ensures 0 <= back * factor <= 32 * factor
  {
  }

  lemma UnitOf(c: real, factor: nat, gain: real, s: real)
    requires factor > 0 && gain == c * (2 * factor) as real * (2 * factor) as real
    ensures AtUnitGain(gain * s, factor) == c * s
  {
    var f := factor as real;
    assert (2 * factor) as real == 2.0 * f;
    assert c * (2.0 * f) * (2.0 * f) * s == c * s * (4.0 * f * f);
    Cancel(c * s, 4.0 * f * f);
  }

  lemma Cancel(a: real, b: real)
    requires b != 0.0
    ensures a * b / b == a
  {
  }
}
