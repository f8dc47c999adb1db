/** One capture frame: blocks in, with silence for lost samples, decimated samples out. */
module Capture {
  import opened CicFilter
  import opened Decimator
  import opened SampleQueue

  const U64: nat := 0x1_0000_0000_0000_0000

  function Silent(n: nat): (x: seq<Sample>)
    ensures |x| == n
  {
    seq(n, _ => Sample(0.0, 0.0))
  }

  /** Addition of the 64-bit counters. */
  function Add64(a: nat, b: nat): nat {
    (a + b) % U64
  }

  /** The input a block stands for, in the counters' 64-bit arithmetic. */
  function Expanded(b: Block): (x: seq<Sample>)
  {
    var missing := Add64(b.deviceDropped, b.queueDropped);
    var n := Add64(missing, |b.samples|);
    seq(n, k requires 0 <= k < n => if k >= missing && k - missing < |b.samples| then b.samples[k - missing] else Sample(0.0, 0.0))
  }

  lemma ExpandedCount(b: Block)
    ensures |Expanded(b)| == Add64(Add64(b.deviceDropped, b.queueDropped), |b.samples|)
  {
  }

  lemma ExpandedAt(b: Block, k: nat)
    requires k < |Expanded(b)|
    ensures var missing := Add64(b.deviceDropped, b.queueDropped);
      Expanded(b)[k] == if k >= missing && k - missing < |b.samples| then b.samples[k - missing] else Sample(0.0, 0.0)
  {
  }

  /** Short of overflow that is the lost samples as zeros, then the samples. */
  lemma ExpandedPlain(b: Block)
    requires b.deviceDropped + b.queueDropped + |b.samples| < U64
    ensures Expanded(b) == Silent(b.deviceDropped + b.queueDropped) + b.samples
  {
  }

  // ----- what a frame holds after an input stream

  /** Output k comes after input (k + 1) * factor. */
  function OutputAt(x: seq<Sample>, k: nat, factor: nat): Sample
    requires factor > 0
  {
    var t := (k + 1) * factor - 1;
    Sample(Output(Re(x), t, factor), Output(Im(x), t, factor))
  }

  function OutputCount(n: nat, factor: nat): nat
    requires factor > 0
  {
    n / factor
  }

  /** The stored outputs: all of them up to the target. */
  ghost function Stored(x: seq<Sample>, factor: nat, target: nat): (s: seq<Sample>)
    requires factor > 0
    ensures |s| == if OutputCount(|x|, factor) < target then OutputCount(|x|, factor) else target
  {
    var n := OutputCount(|x|, factor);
    var m := if n < target then n else target;
    seq(m, k requires 0 <= k < m => OutputAt(x, k, factor))
  }

  /** The frame is still open. */
  predicate Open(n: nat, factor: nat, target: nat)
    requires factor > 0
  {
    OutputCount(n, factor) < target
  }

  // ----- later input does not change earlier outputs

  lemma {:induction false} WindowPrefix(x: seq<real>, y: seq<real>, t: int, len: nat)
    requires t < |x|
    ensures Window(x + y, t, len) == Window(x, t, len)
  {
    if len == 0 {
    } else {
      WindowPrefix(x, y, t, len - 1);
      assert At(x + y, t - (len - 1)) == At(x, t - (len - 1));
    }
  }

  lemma {:induction false} DoubleWindowPrefix(x: seq<real>, y: seq<real>, t: int, rows: nat, len: nat)
    requires t < |x|
    ensures DoubleWindow(x + y, t, rows, len) == DoubleWindow(x, t, rows, len)
  {
    if rows == 0 {
    } else {
      DoubleWindowPrefix(x, y, t, rows - 1, len);
      WindowPrefix(x, y, t - (rows - 1), len);
    }
  }

  lemma OutputPrefix(x: seq<real>, y: seq<real>, t: int, factor: nat)
    requires t < |x| && factor > 0
    ensures Output(x + y, t, factor) == Output(x, t, factor)
  {
    hide Dot, Compensation, AtUnitGain, DoubleWindow;
    forall j | 0 <= j < TAPS ensures Recent(x + y, t, factor)[j] == Recent(x, t, factor)[j] {
      DoubleWindowPrefix(x, y, t - Times(TAPS - 1 - j, factor), 2 * factor, 2 * factor);
    }
    assert Recent(x + y, t, factor) == Recent(x, t, factor);
  }

  lemma OutputInside(n: nat, k: nat, factor: nat)
    requires factor > 0 && k < OutputCount(n, factor)
    ensures (k + 1) * factor <= n
  {
    assert (k + 1) * factor <= n / factor * factor;
  }

  lemma Scaled(a: int, b: int, factor: nat)
    requires a <= b
    ensures a * factor <= b * factor
  {
    assert b * factor - a * factor == (b - a) * factor;
  }

  /** The count is the number of whole factors in n. */
  lemma CountIs(n: nat, q: nat, factor: nat)
    requires factor > 0 && q * factor <= n < q * factor + factor
    ensures OutputCount(n, factor) == q
  {
    Remainder(n, q, n - q * factor, factor);
    var d := n / factor - q;
    assert d * factor == n / factor * factor - q * factor == 0;
    Between(d, factor);
  }

  lemma CountBounds(n: nat, factor: nat)
    requires factor > 0
    ensures OutputCount(n, factor) * factor <= n < OutputCount(n, factor) * factor + factor
  {
  }

  lemma CountPrefix(n: nat, m: nat, factor: nat)
    requires factor > 0 && n <= m
    ensures OutputCount(n, factor) <= OutputCount(m, factor)
  {
    var a, b := OutputCount(n, factor), OutputCount(m, factor);
    CountBounds(n, factor);
    CountBounds(m, factor);
    hide OutputCount;
    assert (b + 1) * factor == b * factor + factor;
    if b + 1 <= a {
      Scaled(b + 1, a, factor);
    }
  }

  /** One more input makes one more output exactly when the phase is back at zero. */
  lemma CountStep(n: nat, factor: nat)
    requires factor > 0
    ensures OutputCount(n + 1, factor) == OutputCount(n, factor) + if Phase(n + 1, factor) == 0 then 1 else 0
    ensures Phase(n + 1, factor) == 0 ==> OutputCount(n + 1, factor) * factor == n + 1
  {
    PhaseCounts(n, factor);
    var q := OutputCount(n, factor);
    CountBounds(n, factor);
    assert n == q * factor + Phase(n, factor);
    if Phase(n + 1, factor) == 0 {
      assert (q + 1) * factor == q * factor + factor;
      CountIs(n + 1, q + 1, factor);
    } else {
      CountIs(n + 1, q, factor);
    }
  }

  /** Output k depends only on the first (k + 1) * factor inputs. */
  lemma OutputAtPrefix(x: seq<Sample>, y: seq<Sample>, k: nat, factor: nat)
    requires factor > 0 && k < OutputCount(|x|, factor)
    ensures OutputAt(x + y, k, factor) == OutputAt(x, k, factor)
  {
    hide Output;
    OutputInside(|x|, k, factor);
    assert Re(x + y) == Re(x) + Re(y) && Im(x + y) == Im(x) + Im(y);
    OutputPrefix(Re(x), Re(y), (k + 1) * factor - 1, factor);
    OutputPrefix(Im(x), Im(y), (k + 1) * factor - 1, factor);
  }

  /** More input only adds outputs. */
  lemma StoredPrefix(x: seq<Sample>, y: seq<Sample>, factor: nat, target: nat)
    requires factor > 0
    ensures Stored(x, factor, target) <= Stored(x + y, factor, target)
  {
    hide OutputAt, OutputCount;
    CountPrefix(|x|, |x + y|, factor);
    forall k | 0 <= k < |Stored(x, factor, target)| ensures OutputAt(x + y, k, factor) == OutputAt(x, k, factor) {
      OutputAtPrefix(x, y, k, factor);
    }
  }

  /** A closed frame stays as it is. */
  lemma ClosedStays(x: seq<Sample>, y: seq<Sample>, factor: nat, target: nat)
    requires factor > 0 && !Open(|x|, factor, target)
    ensures !Open(|x + y|, factor, target) && Stored(x + y, factor, target) == Stored(x, factor, target)
  {
    hide OutputAt, OutputCount;
    CountPrefix(|x|, |x + y|, factor);
    StoredPrefix(x, y, factor, target);
  }

  /** One more input, one more output at most, stored while there is room. */
  lemma StoredStep(x: seq<Sample>, input: Sample, factor: nat, target: nat)
    requires factor > 0 && Open(|x|, factor, target)
    ensures var y := x + [input];
      Stored(y, factor, target) == Stored(x, factor, target)
        + if Phase(|y|, factor) == 0 then [Sample(Output(Re(y), |y| - 1, factor), Output(Im(y), |y| - 1, factor))] else []
    ensures Open(|x| + 1, factor, target) <==> |Stored(x + [input], factor, target)| < target
  {
    var y := x + [input];
    CountStep(|x|, factor);
    StoredPrefix(x, [input], factor, target);
    hide Output, OutputCount, Phase;
    var n := OutputCount(|x|, factor);
    if Phase(|y|, factor) == 0 {
      assert Stored(y, factor, target)[n] == OutputAt(y, n, factor);
    }
  }

  // ----- a frame, one input at a time

  /** The capture flag, the stored outputs, the input decimated and the decodings requested,
      all since the frame was started. */
  datatype Frame = Frame(open: bool, stored: seq<Sample>, fed: seq<Sample>, requests: nat)

  function Started(): Frame {
    Frame(true, [], [], 0)
  }

  /** One pass of the loop over the input: an open frame stores each output and closes when full. */
  ghost function Taken(f: Frame, input: Sample, factor: nat, target: nat): Frame
    requires factor > 0
  {
    if !f.open then f
    else
      var fed := f.fed + [input];
      var stored := if Phase(|fed|, factor) != 0 then f.stored
                    else f.stored + [Sample(Output(Re(fed), |fed| - 1, factor), Output(Im(fed), |fed| - 1, factor))];
      Frame(|stored| < target, stored, fed, f.requests)
  }

  ghost function TakenAll(f: Frame, input: seq<Sample>, factor: nat, target: nat): Frame
    requires factor > 0
  {
    if input == [] then f else Taken(TakenAll(f, input[..|input| - 1], factor, target), input[|input| - 1], factor, target)
  }

  /** A whole block; the one that closes the frame requests decoding. */
  ghost function Handled(f: Frame, b: Block, factor: nat, target: nat): Frame
    requires factor > 0
  {
    var next := TakenAll(f, Expanded(b), factor, target);
    if f.open && !next.open then next.(requests := f.requests + 1) else next
  }

  lemma TakenSnoc(f: Frame, input: seq<Sample>, n: nat, factor: nat, target: nat)
    requires factor > 0 && n < |input|
    ensures TakenAll(f, input[..n + 1], factor, target) == Taken(TakenAll(f, input[..n], factor, target), input[n], factor, target)
  {
    assert input[..n + 1][..n] == input[..n];
  }

  /** Once closed, the rest of the input changes nothing. */
  lemma {:induction false} ClosedRest(f: Frame, input: seq<Sample>, n: nat, factor: nat, target: nat)
    requires factor > 0 && n <= |input| && !TakenAll(f, input[..n], factor, target).open
    ensures TakenAll(f, input, factor, target) == TakenAll(f, input[..n], factor, target)
  {
    if n == |input| {
      assert input[..n] == input;
    } else {
      var m := |input| - 1;
      assert input[..m][..n] == input[..n];
      ClosedRest(f, input[..m], n, factor, target);
    }
  }

  /** The frame holds what the whole input x demands, whether or not it was all decimated. */
  ghost predicate Fills(f: Frame, x: seq<Sample>, factor: nat, target: nat)
    requires factor > 0
  {
    f.open == Open(|x|, factor, target) && f.stored == Stored(x, factor, target) && (f.open ==> f.fed == x)
  }

  /** Decoding was requested once if the frame is full, and not before. */
  ghost predicate FrameFollows(f: Frame, x: seq<Sample>, factor: nat, target: nat)
    requires factor > 0
  {
    Fills(f, x, factor, target) && f.requests == if f.open then 0 else 1
  }

  lemma StartedFollows(factor: nat, target: nat)
    requires factor > 0 && target > 0
    ensures FrameFollows(Started(), [], factor, target)
  {
    CountIs(0, 0, factor);
  }

  lemma TakenFills(f: Frame, x: seq<Sample>, input: Sample, factor: nat, target: nat)
    requires factor > 0 && Fills(f, x, factor, target)
    ensures Fills(Taken(f, input, factor, target), x + [input], factor, target)
  {
    hide Output, OutputCount, Stored;
    if f.open {
      StoredStep(x, input, factor, target);
    } else {
      ClosedStays(x, [input], factor, target);
    }
  }

  lemma {:induction false} AllTakenFills(f: Frame, x: seq<Sample>, input: seq<Sample>, factor: nat, target: nat)
    requires factor > 0 && Fills(f, x, factor, target)
    ensures Fills(TakenAll(f, input, factor, target), x + input, factor, target)
    ensures TakenAll(f, input, factor, target).requests == f.requests
    ensures !f.open ==> TakenAll(f, input, factor, target) == f
  {
    hide Fills;
    if input == [] {
      assert x + input == x;
    } else {
      var n := |input| - 1;
      AllTakenFills(f, x, input[..n], factor, target);
      TakenFills(TakenAll(f, input[..n], factor, target), x + input[..n], input[n], factor, target);
      assert x + input[..n] + [input[n]] == x + input;
    }
  }

  /** Handling a block keeps the frame that of all the input, and requests decoding once. */
  lemma HandledFollows(f: Frame, x: seq<Sample>, b: Block, factor: nat, target: nat)
    requires factor > 0 && FrameFollows(f, x, factor, target)
    ensures FrameFollows(Handled(f, b, factor, target), x + Expanded(b), factor, target)
  {
    hide Stored, Open, Expanded, TakenAll;
    AllTakenFills(f, x, Expanded(b), factor, target);
  }

  // ----- the frame in place

  class Receiver {
    const decimator: Decimator
    const target: nat
    const iSamples: array<real>
    const qSamples: array<real>
    var captureFlag: bool
    var decodeFlag: bool
    var iqIndex: nat
    var deviceDropped: nat
    var queueDropped: nat

    /** Decodings requested since the frame was started. */
    ghost var requests: nat

    ghost predicate Ready()
      reads decimator, decimator.iFir, decimator.qFir
    {
      && decimator.Valid() && decimator.factor > 0 && target > 0
      && iSamples.Length >= target && qSamples.Length >= target && iSamples != qSamples
      && {iSamples, qSamples} !! {decimator.iFir, decimator.qFir}
    }

    /** An open frame has room for another output. */
    ghost predicate Valid()
      reads `captureFlag, `iqIndex, decimator, decimator.iFir, decimator.qFir
    {
      Ready() && iqIndex <= target && (captureFlag ==> iqIndex < target)
    }

    ghost function Current(): (f: Frame)
      requires iqIndex <= iSamples.Length && iqIndex <= qSamples.Length
      reads `captureFlag, `iqIndex, `requests, decimator, iSamples, qSamples
    {
      var n := iqIndex;
      Frame(captureFlag,
            seq(n, k requires 0 <= k < n && n <= iSamples.Length && n <= qSamples.Length
              reads iSamples, qSamples => Sample(iSamples[k], qSamples[k])),
            decimator.inputs, requests)
    }

    constructor (decimator: Decimator, target: nat)
      requires decimator.Valid() && decimator.factor > 0 && target > 0
      ensures Ready() && this.decimator == decimator && this.target == target && !captureFlag
      ensures iqIndex == requests == 0 && !decodeFlag && deviceDropped == queueDropped == 0
    {
      this.decimator, this.target := decimator, target;
      iSamples := new real[target](_ => 0.0);
      qSamples := new real[target](_ => 0.0);
      captureFlag, decodeFlag, iqIndex, deviceDropped, queueDropped := false, false, 0, 0, 0;
      requests := 0;
    }

    /** `initSampleStorage`, but for the queue it also empties: an open, empty frame. */
    method StartFrame()
      requires Ready()
      modifies `captureFlag, `iqIndex, `deviceDropped, `queueDropped, `requests, decimator, decimator.iFir, decimator.qFir
      ensures Valid() && Current() == Started() && deviceDropped == queueDropped == 0
      ensures decimator.factor == old(decimator.factor)
    {
      captureFlag := false;
      iqIndex, deviceDropped, queueDropped := 0, 0, 0;
      decimator.Reset();
      captureFlag := true;
      requests := 0;
    }

    /** One input sample: decimate, store an output, close a full frame. */
    method Take(input: Sample)
      requires Valid() && captureFlag
      modifies `captureFlag, `iqIndex, decimator, decimator.iFir, decimator.qFir, iSamples, qSamples
      ensures Valid() && decimator.factor == old(decimator.factor)
      ensures Current() == Taken(old(Current()), input, decimator.factor, target) && captureFlag == Current().open
    {
      hide Output, Phase;
      ghost var stored := Current().stored;
      var ready, output := decimator.Process(input);
      assert Current().stored == stored;
      if ready {
        if iqIndex < target {
          iSamples[iqIndex], qSamples[iqIndex] := output.re, output.im;
          iqIndex := iqIndex + 1;
          assert Current().stored == stored + [output];
        }
        if iqIndex >= target {
          captureFlag := false;
        }
      }
    }

    /** `process_sample_block`: feed the block's input until the frame is full. The frame
        completes, and decoding is requested, exactly when this call closes it. */
    method ProcessBlock(b: Block)
      requires Valid()
      modifies this, decimator, decimator.iFir, decimator.qFir, iSamples, qSamples
      ensures Valid() && decimator.factor == old(decimator.factor)
      ensures Current() == Handled(old(Current()), b, decimator.factor, target)
      ensures decodeFlag == (old(decodeFlag) || requests > old(requests))
      ensures deviceDropped == if old(captureFlag) then Add64(old(deviceDropped), b.deviceDropped) else old(deviceDropped)
      ensures queueDropped == if old(captureFlag) then Add64(old(queueDropped), b.queueDropped) else old(queueDropped)
    {
      hide Expanded, Add64, Taken, TakenAll, Decimator.Valid;
      StartsEmpty(Current(), Expanded(b), decimator.factor, target);
      if !captureFlag {
        ClosedRest(Current(), Expanded(b), 0, decimator.factor, target);
        return;
      }
      var missing := Add64(b.deviceDropped, b.queueDropped);
      var inputCount := Add64(missing, |b.samples|);
      ExpandedCount(b);
      deviceDropped := Add64(deviceDropped, b.deviceDropped);
      queueDropped := Add64(queueDropped, b.queueDropped);
      Feed(b, missing, inputCount);
      if !captureFlag {
        decodeFlag := true;
        requests := requests + 1;
      }
    }

    /** The loop over the block's input. */
    method Feed(b: Block, missing: nat, inputCount: nat)
      requires Valid() && captureFlag && inputCount == |Expanded(b)| && missing == Add64(b.deviceDropped, b.queueDropped)
      modifies `captureFlag, `iqIndex, decimator, decimator.iFir, decimator.qFir, iSamples, qSamples
      ensures Valid() && decimator.factor == old(decimator.factor)
      ensures Current() == TakenAll(old(Current()), Expanded(b), decimator.factor, target)
    {
      hide Taken, TakenAll, Current, Expanded, Decimator.Valid;
      ghost var input, start, factor := Expanded(b), Current(), decimator.factor;
      var inputIndex := 0;
      StartsEmpty(start, input, factor, target);
      while inputIndex < inputCount
        invariant inputIndex <= inputCount && Valid() && captureFlag && decimator.factor == factor
        invariant Current() == TakenAll(start, input[..inputIndex], factor, target)
      {
        var sample := Sample(0.0, 0.0);
        if inputIndex >= missing && inputIndex - missing < |b.samples| {
          sample := b.samples[inputIndex - missing];
        }
        ExpandedAt(b, inputIndex);
        TakenSnoc(start, input, inputIndex, factor, target);
        Take(sample);
        inputIndex := inputIndex + 1;
        if !captureFlag {
          ClosedRest(start, input, inputIndex, factor, target);
          return;
        }
      }
      assert input[..inputIndex] == input;
    }
  }

  lemma StartsEmpty(f: Frame, input: seq<Sample>, factor: nat, target: nat)
    requires factor > 0
    ensures TakenAll(f, input[..0], factor, target) == f
  {
  }
}
