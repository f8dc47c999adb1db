/** The FT8 receive chain after the waterfall: soft bits, belief-propagation acceptance, the
    ordered-statistics fallback, packing and the CRC; and the transmit chain that feeds it. */
module Ft8Decode {
  import opened Bits
  import opened Gf2
  import opened Ldpc
  import opened Ft8Frame
  import Crc14
  import Osd

  const FTX_LDPC_N := 174
  const FTX_LDPC_K := 91
  const FTX_LDPC_M := 83
  const MAX_LDPC_ERRORS := 32

  datatype Waterfall = Waterfall(mag: seq<Byte>, numBlocks: nat, numBins: nat, timeOsr: nat, freqOsr: nat) {
    function BlockStride(): nat {
      timeOsr * freqOsr * numBins
    }
  }

  datatype Candidate = Candidate(timeOffset: int, freqOffset: nat, timeSub: nat, freqSub: nat)

  /** `get_cand_mag`: where the candidate's first symbol starts in the magnitude array. */
  function CandidateStart(wf: Waterfall, cand: Candidate): int {
    ((cand.timeOffset * wf.timeOsr + cand.timeSub) * wf.freqOsr + cand.freqSub) * wf.numBins + cand.freqOffset
  }

  predicate BlockInRange(wf: Waterfall, cand: Candidate, k: nat) {
    0 <= cand.timeOffset + SymbolOf(k) < wf.numBlocks
  }

  function SymbolStart(wf: Waterfall, cand: Candidate, k: nat): int {
    CandidateStart(wf, cand) + SymbolOf(k) * wf.BlockStride()
  }

  /** All eight tones of every recorded symbol lie inside the magnitude array. */
  predicate InBounds(wf: Waterfall, cand: Candidate) {
    forall k :: 0 <= k < ND && BlockInRange(wf, cand, k) ==>
      0 <= SymbolStart(wf, cand, k) && SymbolStart(wf, cand, k) + 8 <= |wf.mag|
  }

  function SymbolMags(wf: Waterfall, cand: Candidate, k: nat): (mags: seq<Byte>)
    requires InBounds(wf, cand) && k < ND && BlockInRange(wf, cand, k)
    ensures |mags| == 8
  {
    wf.mag[SymbolStart(wf, cand, k)..SymbolStart(wf, cand, k) + 8]
  }

  /** Where an element of the magnitude array lies: the array holds
      [blocks][time subdivisions][frequency subdivisions][bins]. */
  ghost predicate LiesAt(wf: Waterfall, i: int, block: int, timeSub: nat, freqSub: nat, bin: nat)
    requires wf.numBins > 0 && wf.freqOsr > 0 && wf.timeOsr > 0
  {
    && i % wf.numBins == bin && i / wf.numBins % wf.freqOsr == freqSub
    && i / wf.numBins / wf.freqOsr % wf.timeOsr == timeSub && i / wf.numBins / wf.freqOsr / wf.timeOsr == block
  }

  lemma Divide(q: int, n: nat, r: nat)
    requires r < n
    ensures (q * n + r) / n == q && (q * n + r) % n == r
  {
    var i := q * n + r;
    assert i == i / n * n + i % n;
    var d := i / n - q;
    assert d * n == r - i % n;
    if d != 0 {
      FarFromZero(d, n);
    }
  }

  lemma FarFromZero(d: int, n: int)
    requires d != 0 && n >= 0
    ensures d * n >= n || d * n <= -n
  {
    if d > 0 {
      assert (d - 1) * n >= 0;
    } else {
      assert (-d - 1) * n >= 0;
    }
  }

  lemma FlatIndex(wf: Waterfall, cand: Candidate, k: nat)
    requires k < ND
    ensures SymbolStart(wf, cand, k)
      == (((cand.timeOffset + SymbolOf(k)) * wf.timeOsr + cand.timeSub) * wf.freqOsr + cand.freqSub) * wf.numBins + cand.freqOffset
  {
    hide SymbolOf;
    Distribute(cand.timeOffset, SymbolOf(k), wf.timeOsr, cand.timeSub, wf.freqOsr, cand.freqSub, wf.numBins);
  }

  lemma Distribute(a: int, s: int, t: int, u: int, f: int, g: int, n: int)
    ensures ((a * t + u) * f + g) * n + s * (t * f * n) == (((a + s) * t + u) * f + g) * n
  {
    assert ((a + s) * t + u) * f == (a * t + u) * f + s * t * f;
    assert (((a + s) * t + u) * f + g) * n == ((a * t + u) * f + g) * n + s * t * f * n;
    assert s * (t * f * n) == s * t * f * n;
  }

  /** The blocks of the 58 data symbols: seven sync symbols come before the first, fourteen before the
      thirtieth. What is not recorded is not read. */
  lemma RecordedIff(wf: Waterfall, cand: Candidate, k: nat)
    requires k < ND
    ensures SymbolOf(k) == if k < 29 then k + 7 else k + 14
    ensures BlockInRange(wf, cand, k) <==>
      -cand.timeOffset <= (if k < 29 then k + 7 else k + 14) < wf.numBlocks - cand.timeOffset
  {
  }

  lemma RowsFit(row: int, rows: int, width: nat, at: int)
    requires 0 <= row < rows && 0 <= at < width
    ensures 0 <= row * width + at < rows * width
  {
    assert rows * width == row * width + (rows - row) * width;
    assert (rows - row - 1) * width >= 0;
  }

  /** A candidate inside the waterfall's own dimensions is never read outside the array. */
  lemma InsideIsInBounds(wf: Waterfall, cand: Candidate)
    requires cand.timeSub < wf.timeOsr && cand.freqSub < wf.freqOsr && cand.freqOffset + 8 <= wf.numBins
    requires |wf.mag| >= wf.numBlocks * wf.timeOsr * wf.freqOsr * wf.numBins
    ensures InBounds(wf, cand)
  {
    forall k | 0 <= k < ND && BlockInRange(wf, cand, k)
      ensures 0 <= SymbolStart(wf, cand, k) && SymbolStart(wf, cand, k) + 8 <= |wf.mag|
    {
      FlatIndex(wf, cand, k);
      hide SymbolOf, SymbolStart;
      var block := cand.timeOffset + SymbolOf(k);
      var row := block * wf.timeOsr + cand.timeSub;
      RowsFit(block, wf.numBlocks, wf.timeOsr, cand.timeSub);
      RowsFit(row, wf.numBlocks * wf.timeOsr, wf.freqOsr, cand.freqSub);
      RowsFit(row * wf.freqOsr + cand.freqSub, wf.numBlocks * wf.timeOsr * wf.freqOsr, wf.numBins, cand.freqOffset);
      RowsFit(row * wf.freqOsr + cand.freqSub, wf.numBlocks * wf.timeOsr * wf.freqOsr, wf.numBins, cand.freqOffset + 7);
    }
  }

  lemma FlatLiesAt(wf: Waterfall, block: int, timeSub: nat, freqSub: nat, bin: nat)
    requires timeSub < wf.timeOsr && freqSub < wf.freqOsr && bin < wf.numBins
    ensures LiesAt(wf, ((block * wf.timeOsr + timeSub) * wf.freqOsr + freqSub) * wf.numBins + bin, block, timeSub, freqSub, bin)
  {
    var row := block * wf.timeOsr + timeSub;
    Divide(row * wf.freqOsr + freqSub, wf.numBins, bin);
    Divide(row, wf.freqOsr, freqSub);
    Divide(block, wf.timeOsr, timeSub);
  }

  /** Tone t of data symbol k is read where the candidate says: its block is that of the symbol, its
      subdivisions are the candidate's own, and its bin is t above the candidate's. */
  lemma ToneLiesAt(wf: Waterfall, cand: Candidate, k: nat, t: nat)
    requires InBounds(wf, cand) && k < ND && BlockInRange(wf, cand, k) && t < 8
    requires cand.timeSub < wf.timeOsr && cand.freqSub < wf.freqOsr && cand.freqOffset + 8 <= wf.numBins
    ensures var i := SymbolStart(wf, cand, k) + t;
      0 <= i < |wf.mag| && SymbolMags(wf, cand, k)[t] == wf.mag[i] && LiesAt(wf, i, cand.timeOffset + SymbolOf(k), cand.timeSub, cand.freqSub, cand.freqOffset + t)
  {
    FlatIndex(wf, cand, k);
    hide SymbolOf, SymbolStart, LiesAt, CandidateStart;
    FlatLiesAt(wf, cand.timeOffset + SymbolOf(k), cand.timeSub, cand.freqSub, cand.freqOffset + t);
  }

  /** `ft8_extract_likelihood`. */
  method ExtractLikelihood(wf: Waterfall, cand: Candidate) returns (llr: seq<real>)
    requires InBounds(wf, cand)
    ensures |llr| == FTX_LDPC_N
    ensures forall k :: 0 <= k < ND ==>
      llr[3 * k..3 * k + 3] == if BlockInRange(wf, cand, k) then SoftBits(SymbolMags(wf, cand, k)) else [0.0, 0.0, 0.0]
  {
    hide SoftBits, CandidateStart;
    llr := [];
    for k := 0 to ND
      invariant |llr| == 3 * k
      invariant forall j :: 0 <= j < k ==>
        llr[3 * j..3 * j + 3] == if BlockInRange(wf, cand, j) then SoftBits(SymbolMags(wf, cand, j)) else [0.0, 0.0, 0.0]
    {
      ghost var before := llr;
      llr := llr + if BlockInRange(wf, cand, k) then SoftBits(SymbolMags(wf, cand, k)) else [0.0, 0.0, 0.0];
      forall j | 0 <= j < k
        ensures llr[3 * j..3 * j + 3] == before[3 * j..3 * j + 3]
      {
      }
    }
  }

  /** `ftx_normalize_logl`, its factor given. */
  method Normalize(llr: seq<real>, factor: real) returns (scaled: seq<real>)
    ensures |scaled| == |llr| && forall i :: 0 <= i < |llr| ==> scaled[i] == llr[i] * factor
  {
    scaled := [];
    for i := 0 to |llr|
      invariant |scaled| == i && forall j :: 0 <= j < i ==> scaled[j] == llr[j] * factor
    {
      scaled := scaled + [llr[i] * factor];
    }
  }

  // ----- parity checks and belief-propagation acceptance

  /** A check lists codeword positions, counted from 1. */
  predicate IsCheckTable(checks: seq<seq<nat>>, n: nat) {
    forall m :: 0 <= m < |checks| ==> forall i :: 0 <= i < |checks[m]| ==> 1 <= checks[m][i] <= n
  }

  /** XOR of the listed positions. */
  ghost function CheckSum(check: seq<nat>, code: seq<bool>): bool
    requires forall i :: 0 <= i < |check| ==> 1 <= check[i] <= |code|
  {
    if check == [] then false
    else CheckSum(check[..|check| - 1], code) != code[check[|check| - 1] - 1]
  }

  ghost predicate Satisfies(checks: seq<seq<nat>>, code: seq<bool>)
    requires IsCheckTable(checks, |code|)
  {
    forall m :: 0 <= m < |checks| ==> !CheckSum(checks[m], code)
  }

  /** The checks that fail. */
  ghost function Failing(checks: seq<seq<nat>>, code: seq<bool>): (failing: set<nat>)
    requires IsCheckTable(checks, |code|)
    ensures forall m :: m in failing <==> 0 <= m < |checks| && CheckSum(checks[m], code)
  {
    set m: nat | m < |checks| && CheckSum(checks[m], code)
  }

  lemma FailingBound(checks: seq<seq<nat>>, code: seq<bool>)
    requires IsCheckTable(checks, |code|)
    ensures |Failing(checks, code)| <= |checks|
    ensures |Failing(checks, code)| == 0 <==> Satisfies(checks, code)
  {
    hide CheckSum;
    BoundedSet(Failing(checks, code), |checks|);
    if Satisfies(checks, code) {
      assert Failing(checks, code) == {};
    }
  }

  lemma {:induction false} BoundedSet(a: set<nat>, n: nat)
    requires forall m :: m in a ==> m < n
    ensures |a| <= n
  {
    if n == 0 {
    } else {
      BoundedSet(a - {n - 1}, n - 1);
    }
  }

  /** `ldpc_check`: the number of failing checks. */
  method LdpcCheck(checks: seq<seq<nat>>, code: seq<bool>) returns (errors: nat)
    requires IsCheckTable(checks, |code|)
    ensures errors == |Failing(checks, code)|
  {
    hide CheckSum;
    errors := 0;
    ghost var found: set<nat> := {};
    for m := 0 to |checks|
      invariant errors == |found| && forall j :: j in found <==> 0 <= j < m && CheckSum(checks[j], code)
    {
      var x := CheckParity(checks[m], code);
      if x {
        errors := errors + 1;
        found := found + {m};
      }
    }
    assert found == Failing(checks, code);
  }

  method CheckParity(check: seq<nat>, code: seq<bool>) returns (x: bool)
    requires forall i :: 0 <= i < |check| ==> 1 <= check[i] <= |code|
    ensures x == CheckSum(check, code)
  {
    x := false;
    for i := 0 to |check|
      invariant x == CheckSum(check[..i], code)
    {
      assert check[..i + 1][..i] == check[..i];
      x := x != code[check[i] - 1];
    }
    assert check[..|check|] == check;
  }

  function Hard(llr: seq<real>): (bits: seq<bool>)
    ensures |bits| == |llr|
  {
    seq(|llr|, i requires 0 <= i < |llr| => llr[i] > 0.0)
  }

  /** The hard decisions of one iteration: the first decides on the channel values alone. */
  function Decision(codeword: seq<real>, updates: seq<seq<real>>, iter: nat): (bits: seq<bool>)
    requires iter <= |updates| && forall i :: 0 <= i < |updates| ==> |updates[i]| == |codeword|
    ensures |bits| == |codeword|
  {
    Hard(if iter == 0 then codeword else updates[iter - 1])
  }

  /** An iteration that goes on: its decisions are not all zero and fail some check. */
  ghost predicate GoesOn(checks: seq<seq<nat>>, bits: seq<bool>)
    requires IsCheckTable(checks, |bits|)
  {
    bits != Zero(|bits|) && !Satisfies(checks, bits)
  }

  /** The outcome of a run that made `iters` iterations: it went on until its decisions passed,
      vanished or the iterations ran out; the decisions are the last ones, and the error count
      is the least number of failing checks met, or all of them for vanishing decisions. */
  ghost predicate BpOutcome(checks: seq<seq<nat>>, codeword: seq<real>, maxIters: nat, updates: seq<seq<real>>,
                            iters: nat, plain: seq<bool>, errors: nat)
    requires IsCheckTable(checks, |codeword|) && maxIters <= |updates|
    requires forall i :: 0 <= i < |updates| ==> |updates[i]| == |codeword|
  {
    && iters <= maxIters && |plain| == |codeword|
    && (forall i :: 0 <= i < iters - 1 ==> GoesOn(checks, Decision(codeword, updates, i)))
    && (iters == 0 ==> plain == Zero(|plain|) && errors == |checks| && maxIters == 0)
    && (iters > 0 ==> plain == Decision(codeword, updates, iters - 1))
    && (GoesOn(checks, plain) ==> iters == maxIters)
    && (plain == Zero(|plain|) ==> errors == |checks|)
    && (plain != Zero(|plain|) ==>
        && (forall i :: 0 <= i < iters ==> errors <= |Failing(checks, Decision(codeword, updates, i))|)
        && (exists i :: 0 <= i < iters && errors == |Failing(checks, Decision(codeword, updates, i))|))
  }

  /** A zero error count means that the last decisions are a nonzero word that satisfies the table. */
  lemma NoErrors(checks: seq<seq<nat>>, codeword: seq<real>, maxIters: nat, updates: seq<seq<real>>,
                 iters: nat, plain: seq<bool>, errors: nat)
    requires IsCheckTable(checks, |codeword|) && |checks| > 0 && maxIters <= |updates|
    requires forall i :: 0 <= i < |updates| ==> |updates[i]| == |codeword|
    requires BpOutcome(checks, codeword, maxIters, updates, iters, plain, errors)
    ensures errors == 0 <==> plain != Zero(|plain|) && Satisfies(checks, plain)
  {
    hide Satisfies, Hard;
    FailingBound(checks, plain);
    if errors == 0 {
      var i :| 0 <= i < iters && errors == |Failing(checks, Decision(codeword, updates, i))|;
      FailingBound(checks, Decision(codeword, updates, i));
    }
  }

  /** `iters` iterations went on, and `errors` is the least number of failing checks so far. */
  ghost predicate Running(checks: seq<seq<nat>>, codeword: seq<real>, updates: seq<seq<real>>, iters: nat, errors: nat)
    requires IsCheckTable(checks, |codeword|) && iters <= |updates|
    requires forall i :: 0 <= i < |updates| ==> |updates[i]| == |codeword|
  {
    && (forall i :: 0 <= i < iters ==> GoesOn(checks, Decision(codeword, updates, i)))
    && (iters == 0 ==> errors == |checks|)
    && (forall i :: 0 <= i < iters ==> errors <= |Failing(checks, Decision(codeword, updates, i))|)
    && (iters > 0 ==> exists i :: 0 <= i < iters && errors == |Failing(checks, Decision(codeword, updates, i))|)
  }

  lemma RunStarts(checks: seq<seq<nat>>, codeword: seq<real>, updates: seq<seq<real>>)
    requires IsCheckTable(checks, |codeword|)
    requires forall i :: 0 <= i < |updates| ==> |updates[i]| == |codeword|
    ensures Running(checks, codeword, updates, 0, |checks|)
  {
  }

  lemma RunGoesOn(checks: seq<seq<nat>>, codeword: seq<real>, updates: seq<seq<real>>, iter: nat, errors: nat, now: nat)
    requires IsCheckTable(checks, |codeword|) && iter < |updates| && 0 < errors <= |checks|
    requires forall i :: 0 <= i < |updates| ==> |updates[i]| == |codeword|
    requires Running(checks, codeword, updates, iter, errors) && now == |Failing(checks, Decision(codeword, updates, iter))| > 0
    requires Decision(codeword, updates, iter) != Zero(|codeword|)
    ensures Running(checks, codeword, updates, iter + 1, if now < errors then now else errors)
    ensures now <= |checks|
  {
    hide Satisfies, Failing, Decision;
    FailingBound(checks, Decision(codeword, updates, iter));
    var least := if now < errors then now else errors;
    assert exists i :: 0 <= i < iter + 1 && least == |Failing(checks, Decision(codeword, updates, i))| by {
      if now <= errors {
        assert least == |Failing(checks, Decision(codeword, updates, iter))|;
      }
    }
  }

  /** The last iteration finds vanishing decisions or ones that pass. */
  lemma RunEnds(checks: seq<seq<nat>>, codeword: seq<real>, maxIters: nat, updates: seq<seq<real>>, iter: nat, errors: nat, now: nat)
    requires IsCheckTable(checks, |codeword|) && iter < maxIters <= |updates| && |checks| > 0
    requires forall i :: 0 <= i < |updates| ==> |updates[i]| == |codeword|
    requires Running(checks, codeword, updates, iter, errors)
    requires var bits := Decision(codeword, updates, iter);
      if bits == Zero(|bits|) then now == |checks| else now == |Failing(checks, bits)| == 0
    ensures BpOutcome(checks, codeword, maxIters, updates, iter + 1, Decision(codeword, updates, iter), now)
  {
    hide Satisfies, Failing, Decision;
    FailingBound(checks, Decision(codeword, updates, iter));
  }

  lemma RunsOut(checks: seq<seq<nat>>, codeword: seq<real>, maxIters: nat, updates: seq<seq<real>>, plain: seq<bool>, errors: nat)
    requires IsCheckTable(checks, |codeword|) && maxIters <= |updates| && |checks| > 0
    requires forall i :: 0 <= i < |updates| ==> |updates[i]| == |codeword|
    requires Running(checks, codeword, updates, maxIters, errors)
    requires plain == if maxIters == 0 then Zero(|codeword|) else Decision(codeword, updates, maxIters - 1)
    ensures BpOutcome(checks, codeword, maxIters, updates, maxIters, plain, errors)
  {
    hide Satisfies, Failing, Decision;
  }

  /** `bp_decode`. What the messages between bit and check nodes add up to after each iteration is
      given by `updates`. */
  method BpDecode(checks: seq<seq<nat>>, codeword: seq<real>, maxIters: nat, updates: seq<seq<real>>)
    returns (plain: seq<bool>, errors: nat, ghost iters: nat)
    requires IsCheckTable(checks, |codeword|) && |checks| > 0 && |updates| >= maxIters
    requires forall i :: 0 <= i < |updates| ==> |updates[i]| == |codeword|
    ensures |plain| == |codeword| && BpOutcome(checks, codeword, maxIters, updates, iters, plain, errors)
  {
    hide Satisfies, Failing, Running, BpOutcome, Hard;
    errors := |checks|;
    plain := Zero(|codeword|);
    iters := 0;
    var tovSum := codeword;
    RunStarts(checks, codeword, updates);
    for iter := 0 to maxIters
      invariant iters == iter && |tovSum| == |codeword| && 0 < errors <= |checks|
      invariant Hard(tovSum) == Decision(codeword, updates, iter)
      invariant plain == if iter == 0 then Zero(|codeword|) else Decision(codeword, updates, iter - 1)
      invariant Running(checks, codeword, updates, iter, errors)
    {
      plain := Hard(tovSum);
      iters := iter + 1;
      var plainSum := CountOnes(plain);
      if plainSum == 0 {
        RunEnds(checks, codeword, maxIters, updates, iter, errors, |checks|);
        errors := |checks|;
        return;
      }
      var now := LdpcCheck(checks, plain);
      if now == 0 {
        RunEnds(checks, codeword, maxIters, updates, iter, errors, now);
      } else {
        RunGoesOn(checks, codeword, updates, iter, errors, now);
      }
      if now < errors {
        errors := now;
        if now == 0 {
          return;
        }
      }
      tovSum := updates[iter];
    }
    RunsOut(checks, codeword, maxIters, updates, plain, errors);
  }

  method CountOnes(bits: seq<bool>) returns (sum: nat)
    ensures sum == 0 <==> bits == Zero(|bits|)
  {
    sum := 0;
    for n := 0 to |bits|
      invariant sum == 0 <==> forall j :: 0 <= j < n ==> !bits[j]
    {
      sum := sum + if bits[n] then 1 else 0;
    }
  }

  // ----- packing

  /** `pack_bits`: set bits one mask at a time into cleared bytes. */
  method PackBits(bits: seq<bool>, packed: array<bv8>)
    requires packed.Length == (|bits| + 7) / 8
    modifies packed
    ensures forall n :: 0 <= n < 8 * packed.Length ==> BitsOf(packed[..])[n] == (n < |bits| && bits[n])
  {
    hide BitsOf, ByteMask, NextPlace, Or;
    for i := 0 to packed.Length
      invariant forall j :: 0 <= j < i ==> packed[j] == 0
    {
      packed[i] := 0;
    }
    ClearedBytes(packed[..]);
    ghost var now := BitsOf(packed[..]);
    var mask := ByteMask(0);
    var byteIdx := 0;
    ghost var bit := 0;
    for i := 0 to |bits|
      invariant 0 <= bit < 8 && 8 * byteIdx + bit == i && mask == ByteMask(bit)
      invariant now == BitsOf(packed[..]) && |now| == 8 * packed.Length
      invariant forall n :: 0 <= n < |now| ==> now[n] == (n < i && bits[n])
    {
      if bits[i] {
        OrInto(packed, byteIdx, mask, bit);
        now := now[i := true];
      }
      NextPlaceIs(byteIdx, bit);
      var place := NextPlace(byteIdx, mask);
      byteIdx, mask := place.0, place.1;
      bit := if bit == 7 then 0 else bit + 1;
    }
  }

  lemma ClearedBytes(data: seq<bv8>)
    requires forall j :: 0 <= j < |data| ==> data[j] == 0
    ensures forall n :: 0 <= n < 8 * |data| ==> !BitsOf(data)[n]
  {
    hide BitsOf;
    forall n | 0 <= n < 8 * |data|
      ensures !BitsOf(data)[n]
    {
      BitOfByte(data, n / 8, n % 8);
      ZeroByte(n % 8);
    }
  }

  // ----- one candidate, end to end

  /** The check table annihilates the generator. */
  ghost predicate Annihilates(parity: seq<Vec>, checks: seq<seq<nat>>)
    requires IsMatrix(parity, FTX_LDPC_K) && |parity| == FTX_LDPC_M && IsCheckTable(checks, FTX_LDPC_N)
  {
    forall x: Vec :: |x| == FTX_LDPC_K ==> Satisfies(checks, Codeword(parity, FTX_LDPC_K, x))
  }

  /** `ft8_encode`: CRC, parity, frame. */
  method Encode(generator: seq<seq<bv8>>, payload: seq<bv8>, tones: array<nat>)
    returns (ghost word: seq<bv8>, ghost code: seq<bool>)
    requires |generator| == FTX_LDPC_M && forall i :: 0 <= i < |generator| ==> |generator[i]| == 12
    requires |payload| >= 10 && tones.Length >= NN
    modifies tones
    ensures Crc14.IsWordOf(word, payload)
    ensures code == Codeword(ParityRows(generator, FTX_LDPC_K), FTX_LDPC_K, BitsOf(word)[..FTX_LDPC_K])
    ensures forall t :: 0 <= t < NN ==> tones[t] == Tone(code, t)
  {
    hide BitsOf, Codeword;
    var a91 := new bv8[12];
    Crc14.AddCrc(payload, a91);
    word := a91[..];
    assert a91[..12] == a91[..];
    var codeword := new bv8[22];
    EncodePacked(generator, FTX_LDPC_K, a91[..], codeword);
    code := BitsOf(codeword[..])[..FTX_LDPC_N];
    Modulate(codeword[..], tones);
    forall t | 0 <= t < NN
      ensures Tone(code, t) == Tone(BitsOf(codeword[..]), t)
    {
      ToneUsesCode(BitsOf(codeword[..]), FTX_LDPC_N, t);
    }
  }

  lemma ToneUsesCode(bits: seq<bool>, n: nat, t: nat)
    requires 3 * ND <= n <= |bits| && t < NN
    ensures Tone(bits[..n], t) == Tone(bits, t)
  {
  }

  /** The candidate's symbols are those of `code`, each tone the loudest of its eight. */
  ghost predicate Received(wf: Waterfall, cand: Candidate, code: seq<bool>)
    requires InBounds(wf, cand)
  {
    && |code| == FTX_LDPC_N
    && forall k :: 0 <= k < ND ==> BlockInRange(wf, cand, k) && Strongest(SymbolMags(wf, cand, k), Tone(code, SymbolOf(k)))
  }

  /** The scaled soft bits of the candidate; symbols outside the recording give zeros. */
  ghost function ScaledSoft(wf: Waterfall, cand: Candidate, factor: real): (llr: seq<real>)
    requires InBounds(wf, cand)
    ensures |llr| == FTX_LDPC_N
  {
    seq(FTX_LDPC_N, n requires 0 <= n < FTX_LDPC_N =>
      if BlockInRange(wf, cand, n / 3) then SoftBits(SymbolMags(wf, cand, n / 3))[n % 3] * factor else 0.0)
  }

  lemma ScaledIs(wf: Waterfall, cand: Candidate, factor: real, raw: seq<real>, llr: seq<real>)
    requires InBounds(wf, cand)
    requires |raw| == |llr| == FTX_LDPC_N && forall i :: 0 <= i < |raw| ==> llr[i] == raw[i] * factor
    requires forall k :: 0 <= k < ND ==>
      raw[3 * k..3 * k + 3] == if BlockInRange(wf, cand, k) then SoftBits(SymbolMags(wf, cand, k)) else [0.0, 0.0, 0.0]
    ensures llr == ScaledSoft(wf, cand, factor)
  {
    hide SoftBits, CandidateStart, InBounds;
    forall n | 0 <= n < FTX_LDPC_N
      ensures llr[n] == ScaledSoft(wf, cand, factor)[n]
    {
      var k := n / 3;
      assert raw[n] == raw[3 * k..3 * k + 3][n % 3];
    }
  }

  /** With every sent tone the loudest, hard decisions on the scaled soft bits give the codeword. */
  lemma HardDecisions(wf: Waterfall, cand: Candidate, code: seq<bool>, factor: real)
    requires InBounds(wf, cand) && |code| == FTX_LDPC_N && Received(wf, cand, code) && factor > 0.0
    ensures Hard(ScaledSoft(wf, cand, factor)) == code
  {
    hide SoftBits, CandidateStart;
    forall n | 0 <= n < FTX_LDPC_N
      ensures (ScaledSoft(wf, cand, factor)[n] > 0.0) == code[n]
    {
      var k := n / 3;
      SoftBitsSign(SymbolMags(wf, cand, k), code[3 * k], code[3 * k + 1], code[3 * k + 2]);
      assert n == 3 * k + n % 3;
    }
  }

  /** What was sent: the word of a nonzero payload, and its codeword. */
  ghost predicate Sent(parity: seq<Vec>, payload: seq<bv8>, word: seq<bv8>, code: seq<bool>)
    requires IsMatrix(parity, FTX_LDPC_K)
  {
    && |payload| >= 10 && Crc14.IsWordOf(word, payload)
    && BitsOf(payload)[..Crc14.PAYLOAD_BITS] != Zero(Crc14.PAYLOAD_BITS)
    && code == Codeword(parity, FTX_LDPC_K, BitsOf(word)[..FTX_LDPC_K])
  }

  lemma SentIsNonzero(parity: seq<Vec>, payload: seq<bv8>, word: seq<bv8>, code: seq<bool>)
    requires IsMatrix(parity, FTX_LDPC_K) && Sent(parity, payload, word, code)
    ensures code[..FTX_LDPC_K] == BitsOf(word)[..FTX_LDPC_K] && code != Zero(|code|)
  {
    hide BitsOf, Dot;
    var bits := BitsOf(word);
    forall n | 0 <= n < FTX_LDPC_K
      ensures code[n] == bits[n]
    {
      CodewordParts(parity, FTX_LDPC_K, bits[..FTX_LDPC_K], n);
    }
    NonzeroHasOne(bits[..Crc14.PAYLOAD_BITS]);
    var n :| 0 <= n < Crc14.PAYLOAD_BITS && bits[..Crc14.PAYLOAD_BITS][n];
    assert code[n];
  }

  /** Packing the systematic part of a sent codeword gives back the sent word. */
  lemma PackedIsWord(word: seq<bv8>, payload: seq<bv8>, bits: seq<bool>, packed: seq<bv8>)
    requires |payload| >= 10 && Crc14.IsWordOf(word, payload) && |packed| == 12
    requires bits == BitsOf(word)[..FTX_LDPC_K]
    requires forall n :: 0 <= n < 96 ==> BitsOf(packed)[n] == (n < |bits| && bits[n])
    ensures packed == word
  {
    hide BitsOf;
    forall n | 0 <= n < 96
      ensures BitsOf(packed)[n] == BitsOf(word)[n]
    {
    }
    SameBytes(packed, word);
  }

  /** The 91 bits passed their CRC and were packed into the word, whose start is the payload. */
  ghost predicate Delivered(bits: seq<bool>, word: seq<bv8>, payload: seq<bv8>, hash: bv16) {
    && |bits| >= FTX_LDPC_K && Crc14.Accepted(bits)
    && |word| == 12 && (forall n :: 0 <= n < 96 ==> BitsOf(word)[n] == (n < FTX_LDPC_K && bits[n]))
    && payload == word[..10] && hash == Crc14.Extract(word[9], word[10], word[11])
  }

  /** The fallback's own outcome on the same soft bits; it accepts exactly what it found. */
  ghost predicate FallbackOutcome(parity: seq<Vec>, llr: seq<real>, order: seq<nat>, accepted: bool,
                                  word: seq<bv8>, payload: seq<bv8>, hash: bv16)
    requires IsMatrix(parity, FTX_LDPC_K) && |parity| == FTX_LDPC_M && |llr| == FTX_LDPC_N && Osd.IsOrdering(order, FTX_LDPC_N)
  {
    exists flip: int, out: seq<bool>, depth: int ::
      && Osd.IsResult(parity, llr, OSD_DEPTH, Osd.Selection(parity, FTX_LDPC_K, order, FTX_LDPC_K), flip, accepted, out, depth)
      && (accepted ==> Delivered(out, word, payload, hash))
  }

  /** The FT8 case of `ftx_decode_candidate`. `factor` is the normalisation factor, `updates` the
      message sums of later iterations, `order` the reliability sort used by the fallback. */
  method DecodeCandidate(parity: seq<Vec>, checks: seq<seq<nat>>, wf: Waterfall, cand: Candidate, maxIters: nat,
                         factor: real, updates: seq<seq<real>>, order: seq<nat>,
                         ghost sent: seq<bv8>, ghost sentWord: seq<bv8>, ghost code: seq<bool>)
    returns (accepted: bool, payload: seq<bv8>, hash: bv16, ghost iters: nat, ghost decided: seq<bool>, ghost errors: nat, ghost word: seq<bv8>)
    requires IsMatrix(parity, FTX_LDPC_K) && |parity| == FTX_LDPC_M
    requires IsCheckTable(checks, FTX_LDPC_N) && |checks| > 0 && InBounds(wf, cand)
    requires |updates| >= maxIters && forall i :: 0 <= i < |updates| ==> |updates[i]| == FTX_LDPC_N
    requires Osd.IsOrdering(order, FTX_LDPC_N)
    ensures BpOutcome(checks, ScaledSoft(wf, cand, factor), maxIters, updates, iters, decided, errors)
    ensures errors == 0 ==> (accepted <==> Crc14.Accepted(decided)) && (accepted ==> Delivered(decided, word, payload, hash))
    ensures 0 < errors <= 32 ==> FallbackOutcome(parity, ScaledSoft(wf, cand, factor), order, accepted, word, payload, hash)
    ensures errors > 32 ==> !accepted
    ensures Annihilates(parity, checks) && Sent(parity, sent, sentWord, code) && Received(wf, cand, code)
            && factor > 0.0 && maxIters > 0 ==>
      accepted && iters == 1 && errors == 0 && word == sentWord
      && BitsOf(payload)[..Crc14.PAYLOAD_BITS] == BitsOf(sent)[..Crc14.PAYLOAD_BITS]
  {
    hide BitsOf, Satisfies, SoftBits, ScaledSoft, CandidateStart, Codeword, Received, Sent, Annihilates, BpOutcome, Delivered, FallbackOutcome;
    var raw := ExtractLikelihood(wf, cand);
    var llr := Normalize(raw, factor);
    ScaledIs(wf, cand, factor, raw, llr);
    var plain, found;
    plain, found, iters := BpDecode(checks, llr, maxIters, updates);
    decided, errors := plain, found;
    if Annihilates(parity, checks) && Sent(parity, sent, sentWord, code) && Received(wf, cand, code) && factor > 0.0 && maxIters > 0 {
      CleanRun(parity, checks, wf, cand, factor, maxIters, updates, iters, plain, found, sent, sentWord, code);
    }
    if found > 0 {
      if found <= MAX_LDPC_ERRORS {
        accepted, payload, hash, word := Fallback(parity, llr, order);
        return;
      }
      return false, [], 0, iters, decided, errors, [];
    }
    accepted, payload, hash, word := Deliver(plain);
    if Annihilates(parity, checks) && Sent(parity, sent, sentWord, code) && Received(wf, cand, code) && factor > 0.0 && maxIters > 0 {
      DeliversSent(parity, sent, sentWord, code, plain, accepted, word, payload, hash);
    }
  }

  const OSD_DEPTH: nat := 6

  /** Steps 5 to 8: pack the information bits, check them, hand over hash and payload. */
  method Deliver(plain: seq<bool>) returns (accepted: bool, payload: seq<bv8>, hash: bv16, ghost word: seq<bv8>)
    requires |plain| >= FTX_LDPC_K
    ensures accepted == Crc14.Accepted(plain) && (accepted ==> Delivered(plain, word, payload, hash))
  {
    hide BitsOf, Crc14.Accepted, Crc14.Extract;
    payload, hash := [], 0;
    var packed := new bv8[12];
    PackBits(plain[..FTX_LDPC_K], packed);
    word := packed[..];
    assert BitsOf(word)[..FTX_LDPC_K] == plain[..FTX_LDPC_K];
    Crc14.AcceptedPrefix(BitsOf(word), plain);
    accepted := Crc14.CheckPacked(packed[..]);
    if accepted {
      hash := Crc14.Extract(packed[9], packed[10], packed[11]);
      payload := packed[..10];
    }
  }

  /** Step 4, then steps 5 to 8 on what it found: a message that passes is never lost later. */
  method Fallback(parity: seq<Vec>, llr: seq<real>, order: seq<nat>)
    returns (accepted: bool, payload: seq<bv8>, hash: bv16, ghost word: seq<bv8>)
    requires IsMatrix(parity, FTX_LDPC_K) && |parity| == FTX_LDPC_M && |llr| == FTX_LDPC_N && Osd.IsOrdering(order, FTX_LDPC_N)
    ensures FallbackOutcome(parity, llr, order, accepted, word, payload, hash)
  {
    hide BitsOf, Crc14.Accepted, Osd.IsResult, Osd.Selection, Osd.Fit, Delivered;
    var ok, plain, depth := Osd.OsdDecode(parity, llr, OSD_DEPTH, order);
    if !ok {
      return false, [], 0, [];
    }
    accepted, payload, hash, word := Deliver(plain);
  }

  /** Received without a wrong tone, the first iteration already decides on the codeword sent. */
  lemma CleanRun(parity: seq<Vec>, checks: seq<seq<nat>>, wf: Waterfall, cand: Candidate, factor: real, maxIters: nat,
                 updates: seq<seq<real>>, iters: nat, plain: seq<bool>, errors: nat, sent: seq<bv8>, word: seq<bv8>, code: seq<bool>)
    requires IsMatrix(parity, FTX_LDPC_K) && |parity| == FTX_LDPC_M && IsCheckTable(checks, FTX_LDPC_N) && |checks| > 0
    requires InBounds(wf, cand) && Annihilates(parity, checks) && Sent(parity, sent, word, code)
    requires Received(wf, cand, code) && factor > 0.0 && 0 < maxIters <= |updates|
    requires forall i :: 0 <= i < |updates| ==> |updates[i]| == FTX_LDPC_N
    requires BpOutcome(checks, ScaledSoft(wf, cand, factor), maxIters, updates, iters, plain, errors)
    ensures iters == 1 && errors == 0 && plain == code && plain[..FTX_LDPC_K] == BitsOf(word)[..FTX_LDPC_K]
  {
    hide BitsOf, Satisfies, ScaledSoft, Received, Hard, Failing, Codeword, Sent, Annihilates;
    CleanFirstIteration(parity, checks, wf, cand, factor, sent, word, code);
    assert Decision(ScaledSoft(wf, cand, factor), updates, 0) == code;
    NoErrors(checks, ScaledSoft(wf, cand, factor), maxIters, updates, iters, plain, errors);
  }

  lemma CleanFirstIteration(parity: seq<Vec>, checks: seq<seq<nat>>, wf: Waterfall, cand: Candidate, factor: real,
                            sent: seq<bv8>, word: seq<bv8>, code: seq<bool>)
    requires IsMatrix(parity, FTX_LDPC_K) && |parity| == FTX_LDPC_M && IsCheckTable(checks, FTX_LDPC_N)
    requires InBounds(wf, cand) && Annihilates(parity, checks) && Sent(parity, sent, word, code)
    requires Received(wf, cand, code) && factor > 0.0
    ensures |code| == FTX_LDPC_N && Hard(ScaledSoft(wf, cand, factor)) == code && code != Zero(FTX_LDPC_N) && Satisfies(checks, code)
    ensures code[..FTX_LDPC_K] == BitsOf(word)[..FTX_LDPC_K]
  {
    hide BitsOf, Satisfies, SoftBits, CandidateStart, Received;
    SentIsNonzero(parity, sent, word, code);
    HardDecisions(wf, cand, code, factor);
  }

  lemma DeliversSent(parity: seq<Vec>, sent: seq<bv8>, sentWord: seq<bv8>, code: seq<bool>, plain: seq<bool>,
                     accepted: bool, word: seq<bv8>, payload: seq<bv8>, hash: bv16)
    requires IsMatrix(parity, FTX_LDPC_K) && Sent(parity, sent, sentWord, code) && |plain| >= FTX_LDPC_K
    requires plain[..FTX_LDPC_K] == BitsOf(sentWord)[..FTX_LDPC_K]
    requires accepted == Crc14.Accepted(plain) && (accepted ==> Delivered(plain, word, payload, hash))
    ensures accepted && word == sentWord && BitsOf(payload)[..Crc14.PAYLOAD_BITS] == BitsOf(sent)[..Crc14.PAYLOAD_BITS]
  {
    hide BitsOf, Crc14.Accepted, Crc14.Extract, Codeword;
    SentWord(parity, sent, sentWord, code);
    Crc14.AcceptedPrefix(BitsOf(sentWord), plain);
    forall n | 0 <= n < 96
      ensures BitsOf(word)[n] == (n < FTX_LDPC_K && plain[..FTX_LDPC_K][n])
    {
    }
    PackedIsWord(sentWord, sent, plain[..FTX_LDPC_K], word);
    PayloadBits(word, payload);
  }

  lemma SentWord(parity: seq<Vec>, payload: seq<bv8>, word: seq<bv8>, code: seq<bool>)
    requires IsMatrix(parity, FTX_LDPC_K) && Sent(parity, payload, word, code)
    ensures |payload| >= 10 && Crc14.IsWordOf(word, payload)
  {
  }

  lemma PayloadBits(word: seq<bv8>, payload: seq<bv8>)
    requires |word| == 12 && payload == word[..10]
    ensures BitsOf(payload)[..Crc14.PAYLOAD_BITS] == BitsOf(word)[..Crc14.PAYLOAD_BITS]
  {
    hide BitsOf;
    forall n | 0 <= n < Crc14.PAYLOAD_BITS
      ensures BitsOf(payload)[n] == BitsOf(word)[n]
    {
      BitOfByte(payload, n / 8, n % 8);
      BitOfByte(word, n / 8, n % 8);
    }
  }
}
