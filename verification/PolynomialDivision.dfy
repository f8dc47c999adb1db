/** Cyclic redundancy checks as polynomial division over bit strings, in the two shapes the
    sources use: long division on an array, and a feedback register fed bit by bit. */
module PolynomialDivision {

  type Flags = seq<bool>

  /** One clock of the register: the incoming bit meets the top bit, and `poly` is fed back. */
  function Feed(reg: Flags, poly: Flags, bit: bool): (next: Flags)
    requires |reg| == |poly| > 0
    ensures |next| == |reg|
  {
    var top := reg[0] != bit;
    seq(|reg|, j requires 0 <= j < |reg| => (j + 1 < |reg| && reg[j + 1]) != (top && poly[j]))
  }

  /** The register after the whole message, started at zero. */
  function Remainder(poly: Flags, msg: Flags): (reg: Flags)
    requires |poly| > 0
    ensures |reg| == |poly|
  {
    if msg == [] then seq(|poly|, _ => false)
    else Feed(Remainder(poly, msg[..|msg| - 1]), poly, msg[|msg| - 1])
  }

  /** One long-division step at position i: cancel bit i with the divisor 1:poly. */
  function Cancel(msg: Flags, poly: Flags, i: nat): (next: Flags)
    requires i + |poly| < |msg|
    ensures |next| == |msg|
  {
    if msg[i]
    then seq(|msg|, k requires 0 <= k < |msg| =>
           msg[k] != (k == i || (i < k <= i + |poly| && poly[k - i - 1])))
    else msg
  }

  lemma CancelAt(msg: Flags, poly: Flags, i: nat, k: nat)
    requires i + |poly| < |msg| && k < |msg|
    ensures Cancel(msg, poly, i)[k] == (msg[k] != (msg[i] && (k == i || (i < k <= i + |poly| && poly[k - i - 1]))))
  {
  }

  /** Long division of the first n positions. */
  function Divide(msg: Flags, poly: Flags, n: nat): (work: Flags)
    requires n + |poly| <= |msg|
    ensures |work| == |msg|
  {
    if n == 0 then msg else Cancel(Divide(msg, poly, n - 1), poly, n - 1)
  }

  /** During long division the window at position n is the register over the first n bits,
      plus the message itself; the rest is untouched. */
  lemma {:induction false} WindowIsRegister(msg: Flags, poly: Flags, n: nat)
    requires |poly| > 0 && n + |poly| <= |msg|
    ensures var work := Divide(msg, poly, n);
      && (forall j :: 0 <= j < |poly| ==> work[n + j] == (Remainder(poly, msg[..n])[j] != msg[n + j]))
      && (forall k :: n + |poly| <= k < |msg| ==> work[k] == msg[k])
  {
    if n == 0 {
    } else {
      WindowIsRegister(msg, poly, n - 1);
      assert msg[..n][..n - 1] == msg[..n - 1];
      var work := Divide(msg, poly, n - 1);
      var reg := Remainder(poly, msg[..n - 1]);
      assert work[n - 1 + 0] == (reg[0] != msg[n - 1]);
      forall j | 0 <= j < |poly|
        ensures Divide(msg, poly, n)[n + j] == (Remainder(poly, msg[..n])[j] != msg[n + j])
      {
        if j + 1 < |poly| {
          assert work[n - 1 + (j + 1)] == (reg[j + 1] != msg[n + j]);
        }
      }
    }
  }

  /** What long division leaves at the end of the bits: the register over those before, plus
      the last |poly| bits themselves. */
  function Residue(poly: Flags, bits: Flags): (rest: Flags)
    requires 0 < |poly| <= |bits|
    ensures |rest| == |poly|
  {
    var n := |bits| - |poly|;
    seq(|poly|, j requires 0 <= j < |poly| => Remainder(poly, bits[..n])[j] != bits[n + j])
  }

  lemma DivisionIsResidue(bits: Flags, poly: Flags)
    requires 0 < |poly| <= |bits|
    ensures Divide(bits, poly, |bits| - |poly|)[|bits| - |poly|..] == Residue(poly, bits)
  {
    hide Divide, Remainder;
    var n := |bits| - |poly|;
    WindowIsRegister(bits, poly, n);
    var rest := Divide(bits, poly, n)[n..];
    forall j | 0 <= j < |poly|
      ensures rest[j] == Residue(poly, bits)[j]
    {
      assert rest[j] == Divide(bits, poly, n)[n + j];
    }
  }

  /** A message followed by zeros leaves the register of the message. */
  lemma ResidueOfPadded(poly: Flags, bits: Flags)
    requires 0 < |poly| <= |bits| && forall k :: |bits| - |poly| <= k < |bits| ==> !bits[k]
    ensures Residue(poly, bits) == Remainder(poly, bits[..|bits| - |poly|])
  {
    hide Remainder;
  }
}
