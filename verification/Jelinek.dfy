/** The stack-bucket sequential decoder: all open nodes of the code tree sit in one array,
    chained by metric bucket, and run the search of StackSearch. */
module Jelinek {
  import opened Bits
  import opened ConvolutionalCode
  import opened MessageBits
  import opened BucketChains
  import opened StackSearch

  const STATE_BITS := 56
  const UINT32: int := 0x1_0000_0000

  datatype Node = Node(encstate: bv64, gamma: int, depth: nat, jpointer: nat)

  /** So do those of every node on the way to `sent`. */
  ghost predicate FitsAround(mettab: MetricTable, symbols: seq<Byte>, nbits: nat, sent: seq<bool>) {
    forall d :: 0 <= d < nbits && d <= |sent| ==> DaughtersFit(mettab, symbols, nbits, sent[..d])
  }

  /** What a node stores of its path: the first 56 bits of encoder state, the depth, the metric. */
  ghost predicate Describes(mettab: MetricTable, symbols: seq<Byte>, nbits: nat, path: seq<bool>,
                            encstate: bv64, gamma: int, depth: nat)
    requires 2 * nbits <= |symbols|
  {
    && IsPath(nbits, path) && depth == |path|
    && encstate == State(if |path| < STATE_BITS then path else path[..STATE_BITS])
    && gamma == PathMetric(mettab, symbols, path)
  }

  /** `w << n`. */
  function ShiftLeft(w: bv64, n: nat): bv64 {
    if n == 0 then w else Up(ShiftLeft(w, n - 1))
  }

  lemma {:induction false} ZerosShiftLeft(bits: seq<bool>, n: nat)
    requires n <= |bits| && forall j :: n <= j < |bits| ==> !bits[j]
    ensures State(bits) == ShiftLeft(State(bits[..n]), |bits| - n)
  {
    hide Up, Flip;
    if n == |bits| {
      assert bits[..n] == bits;
    } else {
      var earlier := bits[..|bits| - 1];
      ZerosShiftLeft(earlier, n);
      assert earlier[..n] == bits[..n];
    }
  }

  /** The encoder state of the 0-branch out of a node, as the decoder computes it. */
  function ZeroBranchState(encstate: bv64, depth: nat): bv64 {
    if depth < STATE_BITS then Up(encstate) else ShiftLeft(encstate, depth - (STATE_BITS - 1))
  }

  lemma ZeroBranch(nbits: nat, path: seq<bool>, encstate: bv64)
    requires IsPath(nbits, path) && nbits <= NTAIL + STATE_BITS
    requires encstate == State(if |path| < STATE_BITS then path else path[..STATE_BITS])
    ensures ZeroBranchState(encstate, |path|) == State(path + [false])
  {
    hide Up, Flip, ShiftLeft, State, IsPath;
    var longer := path + [false];
    assert longer[..|path|] == path;
    if |path| >= STATE_BITS {
      assert longer[..STATE_BITS] == path[..STATE_BITS];
      LateZeros(nbits, path, longer);
      ZerosShiftLeft(longer, STATE_BITS);
    } else {
      NextZero(path, longer);
    }
  }

  /** From bit 56 on a path has only zeros. */
  lemma LateZeros(nbits: nat, path: seq<bool>, longer: seq<bool>)
    requires IsPath(nbits, path) && nbits <= NTAIL + STATE_BITS && longer == path + [false]
    ensures forall j :: STATE_BITS <= j < |longer| ==> !longer[j]
  {
  }

  lemma NextZero(path: seq<bool>, longer: seq<bool>)
    requires longer == path + [false] && longer[..|path|] == path
    ensures State(longer) == Up(State(path))
  {
    hide Up, Flip;
  }

  /** The two daughters of a node and their metrics. */
  lemma Daughter(mettab: MetricTable, symbols: seq<Byte>, nbits: nat, path: seq<bool>, encstate: bv64, gamma: int, bit: bool)
    requires 2 * nbits <= |symbols| && nbits <= NTAIL + STATE_BITS
    requires Describes(mettab, symbols, nbits, path, encstate, gamma, |path|) && |path| < nbits
    requires bit ==> |path| + 1 <= nbits - NTAIL
    ensures var depth := |path|;
      var lsym := Encode(ZeroBranchState(encstate, depth));
      var kept := if depth < STATE_BITS then Up(encstate) else encstate;
      var metric := BranchMetrics(mettab, symbols[2 * depth], symbols[2 * depth + 1]).At(if bit then lsym.Complement() else lsym);
      Describes(mettab, symbols, nbits, path + [bit], if bit then Flip(kept) else kept, gamma + metric, depth + 1)
  {
    hide Encode, Up, Flip, BranchMetrics, Correlation, ChannelBits;
    var longer := path + [bit];
    assert longer[..|path|] == path;
    assert (path + [false])[..|path|] == path;
    ZeroBranch(nbits, path, encstate);
    ComplementaryBranches(Up(State(path)));
    CorrelationStep(mettab, longer, symbols);
    if |path| >= STATE_BITS {
      assert longer[..STATE_BITS] == path[..STATE_BITS];
    } else if |path| == STATE_BITS - 1 {
      assert longer[..STATE_BITS] == longer;
    }
  }

  /** Both daughters as the decoder writes them. */
  lemma Daughters(mettab: MetricTable, symbols: seq<Byte>, nbits: nat, path: seq<bool>, encstate: bv64, gamma: int)
    requires 2 * nbits <= |symbols| && nbits <= NTAIL + STATE_BITS
    requires Describes(mettab, symbols, nbits, path, encstate, gamma, |path|) && |path| < nbits
    ensures var depth := |path|;
      var lsym := Encode(ZeroBranchState(encstate, depth));
      var kept := if depth < STATE_BITS then Up(encstate) else encstate;
      var m := BranchMetrics(mettab, symbols[2 * depth], symbols[2 * depth + 1]);
      && Describes(mettab, symbols, nbits, path + [false], kept, gamma + m.At(lsym), depth + 1)
      && InBuckets(mettab, symbols, path + [false]) == HasBucket(gamma + m.At(lsym))
      && (depth + 1 <= nbits - NTAIL ==>
           Describes(mettab, symbols, nbits, path + [true], kept + 1, gamma + m.At(lsym.Complement()), depth + 1))
  {
    hide Encode, Flip, Describes, BranchMetrics, InBuckets, HasBucket, ZeroBranchState, Up, Low;
    var depth := |path|;
    var kept := if depth < STATE_BITS then Up(encstate) else encstate;
    var m := BranchMetrics(mettab, symbols[2 * depth], symbols[2 * depth + 1]);
    Daughter(mettab, symbols, nbits, path, encstate, gamma, false);
    FitsIs(mettab, symbols, nbits, path + [false], kept, gamma + m.At(Encode(ZeroBranchState(encstate, depth))), depth + 1);
    if depth + 1 <= nbits - NTAIL {
      Daughter(mettab, symbols, nbits, path, encstate, gamma, true);
      ShiftFacts(encstate);
      IncrementIsFlip(Up(encstate));
    }
  }

  ghost function Links(stack: seq<Node>): (links: seq<nat>)
    ensures |links| == |stack|
  {
    seq(|stack|, s requires 0 <= s < |stack| => stack[s].jpointer)
  }

  /** Slot s holds a node of the tree and hangs in the bucket of its metric. */
  ghost predicate Stored(mettab: MetricTable, symbols: seq<Byte>, nbits: nat, n: Node, path: seq<bool>, at: (nat, nat))
    requires 2 * nbits <= |symbols|
  {
    Describes(mettab, symbols, nbits, path, n.encstate, n.gamma, n.depth) && at.0 == Bucket(n.gamma)
  }

  lemma StoredMeans(mettab: MetricTable, symbols: seq<Byte>, nbits: nat, n: Node, path: seq<bool>, at: (nat, nat))
    requires 2 * nbits <= |symbols| && Stored(mettab, symbols, nbits, n, path, at)
    ensures Describes(mettab, symbols, nbits, path, n.encstate, n.gamma, n.depth) && at.0 == Bucket(n.gamma)
  {
    hide Describes, Bucket;
  }

  /** The paths of the chained slots. */
  ghost function RowOf(chain: Chain, paths: seq<seq<bool>>): (row: seq<seq<bool>>)
    ensures |row| == |chain|
  {
    seq(|chain|, p requires 0 <= p < |chain| => if chain[p] < |paths| then paths[chain[p]] else [])
  }

  ghost function RowsOf(chains: seq<Chain>, paths: seq<seq<bool>>): (rows: Rows)
    ensures |rows| == |chains|
  {
    seq(|chains|, c requires 0 <= c < |chains| => RowOf(chains[c], paths))
  }

  lemma RowsPush(links: seq<nat>, heads: seq<nat>, chains: seq<Chain>, place: seq<(nat, nat)>, top: nat, hand: nat,
                 paths: seq<seq<bool>>, b: nat, path: seq<bool>)
    requires Linked(links, heads, chains, place, top, hand) && 1 <= hand <= top && |paths| == |links| && b < BUCKETS
    ensures RowsOf(chains[b := chains[b] + [hand]], paths[hand := path]) == Push(RowsOf(chains, paths), b, path)
  {
    var chains', paths' := chains[b := chains[b] + [hand]], paths[hand := path];
    forall c | 0 <= c < BUCKETS
      ensures RowOf(chains[c], paths') == RowOf(chains[c], paths)
    {
      forall p | 0 <= p < |chains[c]|
        ensures chains[c][p] != hand
      {
        assert InChain(links, chains[c], place, top, hand, c, p);
      }
    }
    assert RowOf(chains'[b], paths') == RowOf(chains[b], paths) + [path];
  }

  lemma RowsDrop(chains: seq<Chain>, paths: seq<seq<bool>>, b: nat)
    requires b < |chains| && chains[b] != []
    ensures RowsOf(chains, paths)[b] != []
    ensures RowsOf(chains[b := chains[b][..|chains[b]| - 1]], paths) == Drop(RowsOf(chains, paths), b)
    ensures Head(chains[b]) < |paths| ==> Newest(RowsOf(chains, paths), b) == paths[Head(chains[b])]
  {
    var last := |chains[b]| - 1;
    assert RowOf(chains[b][..last], paths) == RowOf(chains[b], paths)[..last];
  }

  lemma SomeRow(chains: seq<Chain>, paths: seq<seq<bool>>)
    ensures SomeOpen(RowsOf(chains, paths)) <==> exists b :: 0 <= b < |chains| && chains[b] != []
  {
    if b :| 0 <= b < |chains| && chains[b] != [] {
      assert RowsOf(chains, paths)[b] != [];
    }
  }

  class Search {
    const nbits: nat
    const stack: array<Node>
    const buckets: array<nat>
    const metrics: seq<Metrics>
    ghost const mettab: MetricTable
    ghost const symbols: seq<Byte>

    var lowBucket: nat
    var highBucket: nat
    var stackptr: nat
    var ptr: nat
    var depth: nat
    var gamma: int
    var encstate: bv64

    ghost var chains: seq<Chain>
    ghost var place: seq<(nat, nat)>
    ghost var paths: seq<seq<bool>>
    ghost var path: seq<bool>
    ghost var lost: seq<seq<bool>>

    ghost function Task(): Block {
      Block(mettab, symbols, nbits, stack.Length)
    }

    /** The open paths, bucket by bucket. */
    ghost function Rows(): (rows: Rows)
      reads `chains, `paths
    {
      RowsOf(chains, paths)
    }

    /** Where the search stands. */
    ghost function Current(): (q: Queue)
      reads this
    {
      Queue(Rows(), stackptr, lost, path, false)
    }

    /** The array is a bucketed stack over the used slots, `hand` excepted. */
    ghost predicate Consistent(hand: nat)
      reads `lowBucket, `highBucket, `stackptr, `chains, `place, `paths, stack, buckets
    {
      && stack.Length >= 2 && NTAIL <= nbits <= NTAIL + STATE_BITS && 2 * nbits <= |symbols|
      && |metrics| == nbits && stackptr < stack.Length
      && (forall j :: 0 <= j < nbits ==> metrics[j] == BranchMetrics(mettab, symbols[2 * j], symbols[2 * j + 1]))
      && Linked(Links(stack[..]), buckets[..], chains, place, stackptr, hand)
      && |paths| == stack.Length && highBucket < BUCKETS
      && (forall s :: 1 <= s <= stackptr && s != hand ==>
           Stored(mettab, symbols, nbits, stack[s], paths[s], place[s]))
      && (forall b :: 0 <= b < BUCKETS && chains[b] != [] ==> lowBucket <= b <= highBucket)
    }

    lemma Sizes(hand: nat)
      requires Consistent(hand)
      ensures stack.Length >= 2 && NTAIL <= nbits <= NTAIL + STATE_BITS && 2 * nbits <= |symbols| && |chains| == BUCKETS
      ensures |metrics| == nbits && stackptr < stack.Length
      ensures forall j :: 0 <= j < nbits ==> metrics[j] == BranchMetrics(mettab, symbols[2 * j], symbols[2 * j + 1])
    {
      hide Stored, BranchMetrics;
      LinkedSizes(Links(stack[..]), buckets[..], chains, place, stackptr, hand);
    }

    /** Zero the array and put the root in hand, in slot 1. */
    constructor (stack: array<Node>, mettab: MetricTable, symbols: seq<Byte>, nbits: nat)
      requires NTAIL <= nbits <= 81 && 2 * nbits <= |symbols| && stack.Length >= 2
      modifies stack
      ensures Valid() && fresh(buckets) && this.stack == stack
      ensures this.nbits == nbits && Task() == Block(mettab, symbols, nbits, stack.Length)
      ensures Current() == Start(Task()) && depth == 0
    {
      this.nbits, this.stack, this.mettab, this.symbols := nbits, stack, mettab, symbols;
      this.metrics := seq(nbits, j requires 0 <= j < nbits => BranchMetrics(mettab, symbols[2 * j], symbols[2 * j + 1]));
      forall s | 0 <= s < stack.Length {
        stack[s] := Node(0, 0, 0, 0);
      }
      encstate, depth, gamma := 0, 0, 0;
      lowBucket, highBucket := BUCKETS - 1, 0;
      buckets := new nat[BUCKETS](_ => 0);
      ptr, stackptr := 1, 1;
      path := [];
      lost := [];
      chains := seq(BUCKETS, _ => []);
      place := seq(stack.Length, _ => (0, 0));
      paths := seq(stack.Length, _ => []);
    }

    /** At the top of a cycle one slot is in hand and its node is not yet at full depth. */
    ghost predicate Valid()
      reads this, stack, buckets
    {
      && 1 <= ptr <= stackptr && Consistent(ptr)
      && Describes(mettab, symbols, nbits, path, encstate, gamma, depth) && depth < nbits
    }

    /** Hang a daughter node, written to the slot in hand, into the bucket of its metric. */
    method Place(encstate: bv64, gamma: int, depth: nat, ghost path: seq<bool>)
      requires 1 <= ptr <= stackptr && Consistent(ptr)
      requires Describes(mettab, symbols, nbits, path, encstate, gamma, depth) && HasBucket(gamma)
      modifies this`lowBucket, this`highBucket, this`chains, this`place, this`paths, stack, buckets
      ensures Consistent(0) && |chains| == |old(chains)| == BUCKETS
      ensures 0 <= At(Task(), path) < BUCKETS && Rows() == Push(old(Rows()), At(Task(), path), path)
    {
      hide Describes, Linked, Bucket, PathBucket, PathMetric, RowsOf, Push;
      MetricOf(mettab, symbols, nbits, path, encstate, gamma, depth);
      var bucket := Bucket(gamma);
      if bucket > highBucket {
        highBucket := bucket;
      }
      if bucket < lowBucket {
        lowBucket := bucket;
      }
      PushKeepsLinks(Links(stack[..]), buckets[..], chains, place, stackptr, ptr, bucket);
      LinkedSizes(Links(stack[..]), buckets[..], chains, place, stackptr, ptr);
      RowsPush(Links(stack[..]), buckets[..], chains, place, stackptr, ptr, paths, bucket, path);
      place := place[ptr := (bucket, |chains[bucket]|)];
      chains := chains[bucket := chains[bucket] + [ptr]];
      paths := paths[ptr := path];
      stack[ptr] := Node(encstate, gamma, depth, buckets[bucket]);
      buckets[bucket] := ptr;
      assert Links(stack[..]) == old(Links(stack[..]))[ptr := old(buckets[bucket])];
    }

    /** Unhook the newest node of bucket b and take its slot in hand. */
    method Pop(b: nat)
      requires Consistent(0) && b < |chains| && chains[b] != []
      modifies this`ptr, this`chains, buckets
      ensures Consistent(ptr) && 1 <= ptr <= stackptr && ptr < |place|
      ensures Stored(mettab, symbols, nbits, stack[ptr], paths[ptr], place[ptr])
      ensures |old(Rows())| > b && old(Rows())[b] != [] && Rows() == Drop(old(Rows()), b) && paths[ptr] == Newest(old(Rows()), b)
    {
      hide Describes, Linked, Bucket, RowsOf, Drop, Newest;
      LinkedSizes(Links(stack[..]), buckets[..], chains, place, stackptr, 0);
      HeadEmpty(Links(stack[..]), buckets[..], chains, place, stackptr, b);
      PopKeepsLinks(Links(stack[..]), buckets[..], chains, place, stackptr, b);
      RowsDrop(chains, paths, b);
      ptr := buckets[b];
      buckets[b] := stack[ptr].jpointer;
      chains := chains[b := chains[b][..|chains[b]| - 1]];
    }

    /** Find a slot for the other daughter: a fresh one, or the newest node of the worst bucket. */
    method TakeSlot()
      requires Consistent(0) && SomeOpen(Rows())
      modifies this`lowBucket, this`stackptr, this`ptr, this`chains, this`lost, buckets
      ensures Consistent(ptr) && 1 <= ptr <= stackptr
      ensures if old(stackptr) < stack.Length - 1 then stackptr == old(stackptr) + 1 && Rows() == old(Rows()) && lost == old(lost)
        else stackptr == old(stackptr) && Rows() == Drop(old(Rows()), Worst(old(Rows())))
             && lost == old(lost) + [Newest(old(Rows()), Worst(old(Rows())))]
    {
      hide Describes, Linked, Bucket, Stored, Drop, Newest, Worst, SomeOpen, RowsOf;
      LinkedSizes(Links(stack[..]), buckets[..], chains, place, stackptr, 0);
      if stackptr < stack.Length - 1 {
        GrowKeepsLinks(Links(stack[..]), buckets[..], chains, place, stackptr);
        stackptr := stackptr + 1;
        ptr := stackptr;
      } else {
        SomeRow(chains, paths);
        ghost var some :| 0 <= some < |chains| && chains[some] != [];
        while buckets[lowBucket] == 0
          invariant Consistent(0) && lowBucket <= some
          invariant chains == old(chains) && stackptr == old(stackptr) && lost == old(lost)
          decreases some - lowBucket
        {
          HeadEmpty(Links(stack[..]), buckets[..], chains, place, stackptr, lowBucket);
          lowBucket := lowBucket + 1;
        }
        HeadEmpty(Links(stack[..]), buckets[..], chains, place, stackptr, lowBucket);
        LowestIsWorst(chains, paths, lowBucket);
        lost := lost + [Newest(Rows(), lowBucket)];
        Pop(lowBucket);
      }
    }

    /** Lower the high mark to the best non-empty bucket. */
    method ScanDown()
      requires Consistent(0) && SomeOpen(Rows())
      modifies this`highBucket
      ensures Consistent(0) && highBucket == Best(Rows())
    {
      hide Describes, Linked, Bucket, Stored, RowsOf, SomeOpen, Best;
      LinkedSizes(Links(stack[..]), buckets[..], chains, place, stackptr, 0);
      SomeRow(chains, paths);
      ghost var some :| 0 <= some < |chains| && chains[some] != [];
      while buckets[highBucket] == 0
        invariant Consistent(0) && some <= highBucket
        decreases highBucket
      {
        HeadEmpty(Links(stack[..]), buckets[..], chains, place, stackptr, highBucket);
        highBucket := highBucket - 1;
      }
      HeadEmpty(Links(stack[..]), buckets[..], chains, place, stackptr, highBucket);
      HighestIsBest(chains, paths, highBucket);
    }

    /** Take the newest node of the best bucket in hand and resume from it. */
    method PopHighest()
      requires Consistent(0) && SomeOpen(Rows())
      modifies this`highBucket, this`ptr, this`chains, this`path, this`depth, this`gamma, this`encstate, buckets
      ensures Consistent(ptr) && 1 <= ptr <= stackptr
      ensures Describes(mettab, symbols, nbits, path, encstate, gamma, depth)
      ensures Current() == old(TakenUp(Current()))
    {
      hide Describes, Linked, Bucket, Stored, Drop, Newest, Best, SomeOpen, RowsOf;
      ScanDown();
      SomeRow(chains, paths);
      assert chains[highBucket] != [] by {
        BestRow(chains, paths);
      }
      Pop(highBucket);
      StoredMeans(mettab, symbols, nbits, stack[ptr], paths[ptr], place[ptr]);
      TakeUp();
    }

    /** Copy the node in hand out of its slot. */
    method TakeUp()
      requires ptr < stack.Length && ptr < |paths|
      modifies this`path, this`depth, this`gamma, this`encstate
      ensures depth == stack[ptr].depth && gamma == stack[ptr].gamma && encstate == stack[ptr].encstate && path == paths[ptr]
    {
      depth := stack[ptr].depth;
      gamma := stack[ptr].gamma;
      encstate := stack[ptr].encstate;
      path := paths[ptr];
    }

    /** Put the daughters of the node in hand on the stack: the 0-node over its parent, and,
        before the tail, the 1-node into the slot that TakeSlot finds. A daughter without a
        bucket leads the search astray: its slot would be linked outside the bucket array. */
    method Extend() returns (stray: bool)
      requires Valid()
      modifies this`lowBucket, this`highBucket, this`stackptr, this`ptr, this`depth, this`encstate
      modifies this`chains, this`place, this`paths, this`lost, stack, buckets
      ensures stray == !Fits(Task(), path)
      ensures !stray ==> Consistent(0) && old(Ready(Task(), Current())) && Current() == old(Opened(Task(), Current()))
    {
      hide Encode, Up, Flip, Low, Describes, Linked, Bucket, Stored, BranchMetrics, IsPath, PathBucket, HasBucket, RowsOf;
      hide Push, Drop, Newest, Worst, SomeOpen, Open, ZeroBranchState, Consistent;
      Sizes(ptr);
      Depth(mettab, symbols, nbits, path, encstate, gamma, depth);
      var lsym := Encode(ZeroBranchState(encstate, depth));
      var m := metrics[depth];
      Daughters(mettab, symbols, nbits, path, encstate, gamma);
      if depth < STATE_BITS {
        encstate := Up(encstate);
      }
      var totmet0 := gamma + m.At(lsym);
      var totmet1 := gamma + m.At(lsym.Complement());
      depth := depth + 1;
      if !HasBucket(totmet0) {
        return true;
      }
      PushOpen(Rows(), At(Task(), path + [false]), path + [false], path + [false]);
      Place(encstate, totmet0, depth, path + [false]);
      stray := false;
      if depth <= nbits - NTAIL {
        stray := PlaceOther(encstate + 1, totmet1, depth, path + [true]);
      }
    }

    /** Find a slot for the other daughter and put it there. */
    method PlaceOther(encstate: bv64, gamma: int, depth: nat, ghost daughter: seq<bool>) returns (stray: bool)
      requires Consistent(0) && SomeOpen(Rows()) && Describes(mettab, symbols, nbits, daughter, encstate, gamma, depth)
      modifies this`lowBucket, this`highBucket, this`stackptr, this`ptr, this`chains, this`place, this`paths, this`lost, stack, buckets
      ensures stray == !InBuckets(mettab, symbols, daughter)
      ensures !stray ==> Consistent(0) && |old(Rows())| == BUCKETS
      ensures !stray ==>
        if old(stackptr) < stack.Length - 1 then
          stackptr == old(stackptr) + 1 && Rows() == Push(old(Rows()), At(Task(), daughter), daughter) && lost == old(lost)
        else
          && stackptr == old(stackptr) && lost == old(lost) + [Newest(old(Rows()), Worst(old(Rows())))]
          && Rows() == Push(Drop(old(Rows()), Worst(old(Rows()))), At(Task(), daughter), daughter)
    {
      hide Describes, Linked, Bucket, Stored, PathBucket, HasBucket, RowsOf, Push, Drop, Newest, Worst, SomeOpen;
      FitsIs(mettab, symbols, nbits, daughter, encstate, gamma, depth);
      LinkedSizes(Links(stack[..]), buckets[..], chains, place, stackptr, 0);
      TakeSlot();
      if !HasBucket(gamma) {
        return true;
      }
      Place(encstate, gamma, depth, daughter);
      return false;
    }

    /** One pass of the decoding loop; done when the node now in hand is at full depth. */
    method Cycle() returns (done: bool, stray: bool)
      requires Valid()
      modifies this, stack, buckets
      ensures old(Step(Task(), Current())) == if stray then old(Current()).(stray := true) else Current()
      ensures !stray ==> done == (depth == nbits) && |path| == depth
      ensures !stray && done ==> Describes(mettab, symbols, nbits, path, encstate, gamma, nbits)
      ensures !stray && !done ==> Valid()
    {
      hide Describes, Linked, Bucket, Stored, PathMetric, PathBucket, Fits, Opened, TakenUp;
      Depth(mettab, symbols, nbits, path, encstate, gamma, depth);
      LinkedSizes(Links(stack[..]), buckets[..], chains, place, stackptr, ptr);
      stray := Extend();
      if stray {
        return false, true;
      }
      PopHighest();
      Depth(mettab, symbols, nbits, path, encstate, gamma, depth);
      done := depth == nbits;
    }
  }

  lemma LowestIsWorst(chains: seq<Chain>, paths: seq<seq<bool>>, b: nat)
    requires b < |chains| && chains[b] != [] && forall c :: 0 <= c < b ==> chains[c] == []
    ensures SomeOpen(RowsOf(chains, paths)) && Worst(RowsOf(chains, paths)) == b
  {
    WorstIs(RowsOf(chains, paths), b);
  }

  lemma HighestIsBest(chains: seq<Chain>, paths: seq<seq<bool>>, b: nat)
    requires b < |chains| && chains[b] != [] && forall c :: b < c < |chains| ==> chains[c] == []
    ensures SomeOpen(RowsOf(chains, paths)) && Best(RowsOf(chains, paths)) == b
  {
    BestIs(RowsOf(chains, paths), b);
  }

  lemma BestRow(chains: seq<Chain>, paths: seq<seq<bool>>)
    requires SomeOpen(RowsOf(chains, paths))
    ensures var b := Best(RowsOf(chains, paths)); b < |chains| && chains[b] != []
  {
    assert RowsOf(chains, paths)[Best(RowsOf(chains, paths))] != [];
  }

  predicate HasBucket(gamma: int) {
    0 <= Bucket(gamma) < BUCKETS
  }

  lemma FitsIs(mettab: MetricTable, symbols: seq<Byte>, nbits: nat, path: seq<bool>, encstate: bv64, gamma: int, depth: nat)
    requires 2 * nbits <= |symbols| && Describes(mettab, symbols, nbits, path, encstate, gamma, depth)
    ensures InBuckets(mettab, symbols, path) == HasBucket(gamma)
  {
    MetricOf(mettab, symbols, nbits, path, encstate, gamma, depth);
  }

  lemma MetricOf(mettab: MetricTable, symbols: seq<Byte>, nbits: nat, path: seq<bool>, encstate: bv64, gamma: int, depth: nat)
    requires 2 * nbits <= |symbols| && Describes(mettab, symbols, nbits, path, encstate, gamma, depth)
    ensures PathBucket(mettab, symbols, path) == Bucket(gamma)
  {
  }

  /** Every received symbol favours the channel bit sent: its metric is not negative, and half a
      bucket above the other bit's. */
  ghost predicate Clean(mettab: MetricTable, symbols: seq<Byte>, nbits: nat, sent: seq<bool>)
    requires 2 * nbits <= |symbols|
  {
    && |sent| == nbits && IsPath(nbits, sent)
    && forall k :: 0 <= k < 2 * nbits ==> Favoured(mettab, ChannelBits(sent)[k], symbols[k])
  }

  lemma CleanLength(mettab: MetricTable, symbols: seq<Byte>, nbits: nat, sent: seq<bool>)
    requires 2 * nbits <= |symbols| && Clean(mettab, symbols, nbits, sent)
    ensures |sent| == nbits && IsPath(nbits, sent)
  {
  }

  predicate Favoured(mettab: MetricTable, sent: bool, received: Byte) {
    var metric := mettab[if sent then 1 else 0][received];
    metric >= 0 && metric >= mettab[if sent then 0 else 1][received] + 16
  }

  /** The two branches out of one path carry complementary pairs. */
  lemma OtherBranch(path: seq<bool>, bit: bool)
    ensures Encode(State(path + [!bit])) == Encode(State(path + [bit])).Complement()
  {
    hide Encode, Up, Flip;
    assert (path + [bit])[..|path|] == path && (path + [!bit])[..|path|] == path;
    ComplementaryBranches(Up(State(path)));
    ShiftFacts(Up(State(path)));
  }

  lemma PairMargin(mettab: MetricTable, pair: Pair, a: Byte, b: Byte)
    requires Favoured(mettab, pair.first, a) && Favoured(mettab, pair.second, b)
    ensures var m := BranchMetrics(mettab, a, b);
      m.At(pair) >= 0 && m.At(pair) >= m.At(pair.Complement()) + 32
  {
  }

  /** On a clean block the metric of the path sent never falls to a lower bucket, and the other
      branch at each node hangs in a lower one. */
  lemma CleanBuckets(mettab: MetricTable, symbols: seq<Byte>, nbits: nat, sent: seq<bool>, d: nat)
    requires 2 * nbits <= |symbols| && Clean(mettab, symbols, nbits, sent) && d < nbits
    ensures Bucket(PathMetric(mettab, symbols, sent[..d])) <= Bucket(PathMetric(mettab, symbols, sent[..d + 1]))
    ensures Bucket(PathMetric(mettab, symbols, sent[..d] + [!sent[d]])) < Bucket(PathMetric(mettab, symbols, sent[..d + 1]))
  {
    hide Encode, State, BranchMetrics, PathMetric, Clean, Bucket;
    CleanLength(mettab, symbols, nbits, sent);
    var base, right, wrong := sent[..d], sent[..d + 1], sent[..d] + [!sent[d]];
    CleanPair(mettab, symbols, nbits, sent, d);
    assert right == base + [sent[d]];
    OtherBranch(base, sent[d]);
    MetricStep(mettab, symbols, base, right);
    MetricStep(mettab, symbols, base, wrong);
    var m := BranchMetrics(mettab, symbols[2 * d], symbols[2 * d + 1]);
    BucketMargin(PathMetric(mettab, symbols, base), m.At(Encode(State(wrong))), m.At(Encode(State(right))));
  }

  lemma CleanPair(mettab: MetricTable, symbols: seq<Byte>, nbits: nat, sent: seq<bool>, d: nat)
    requires 2 * nbits <= |symbols| && Clean(mettab, symbols, nbits, sent) && d < nbits
    ensures var m, pair := BranchMetrics(mettab, symbols[2 * d], symbols[2 * d + 1]), Encode(State(sent[..d + 1]));
      m.At(pair) >= 0 && m.At(pair) >= m.At(pair.Complement()) + 32
  {
    hide Encode, State, Favoured, BranchMetrics, ChannelBits;
    assert Favoured(mettab, ChannelBits(sent)[2 * d], symbols[2 * d]);
    assert Favoured(mettab, ChannelBits(sent)[2 * d + 1], symbols[2 * d + 1]);
    ChannelPair(sent, d);
    PairMargin(mettab, Encode(State(sent[..d + 1])), symbols[2 * d], symbols[2 * d + 1]);
  }

  lemma MetricStep(mettab: MetricTable, symbols: seq<Byte>, path: seq<bool>, longer: seq<bool>)
    requires |longer| == |path| + 1 && 2 * |longer| <= |symbols| && longer[..|path|] == path
    ensures PathMetric(mettab, symbols, longer) == PathMetric(mettab, symbols, path)
      + BranchMetrics(mettab, symbols[2 * |path|], symbols[2 * |path| + 1]).At(Encode(State(longer)))
  {
    hide Encode, State, BranchMetrics, ChannelBits, Correlation;
    CorrelationStep(mettab, longer, symbols);
  }

  lemma BucketMargin(base: int, worse: int, better: int)
    requires better >= 0 && better >= worse + 32
    ensures Bucket(base) <= Bucket(base + better) && Bucket(base + worse) < Bucket(base + better)
  {
  }

  /** The metric of the bit sent stays small enough for 162 of it to have a bucket, and that of
      the other bit is no deeper below zero than the lowest bucket allows two of it to be. */
  predicate Tame(mettab: MetricTable, sent: bool, received: Byte) {
    mettab[if sent then 1 else 0][received] <= 157 && mettab[if sent then 0 else 1][received] >= -3200
  }

  lemma TamePair(mettab: MetricTable, pair: Pair, a: Byte, b: Byte)
    requires Tame(mettab, pair.first, a) && Tame(mettab, pair.second, b)
    ensures var m := BranchMetrics(mettab, a, b); m.At(pair) <= 314 && m.At(pair.Complement()) >= -6400
  {
  }

  /** Every received symbol is tame for the channel bit sent. */
  ghost predicate AllTame(mettab: MetricTable, symbols: seq<Byte>, nbits: nat, sent: seq<bool>)
    requires 2 * nbits <= |symbols| && |sent| == nbits
  {
    forall k :: 0 <= k < 2 * nbits ==> Tame(mettab, ChannelBits(sent)[k], symbols[k])
  }

  lemma TamedPair(mettab: MetricTable, symbols: seq<Byte>, nbits: nat, sent: seq<bool>, d: nat)
    requires 2 * nbits <= |symbols| && |sent| == nbits && AllTame(mettab, symbols, nbits, sent) && d < nbits
    ensures var m, pair := BranchMetrics(mettab, symbols[2 * d], symbols[2 * d + 1]), Encode(State(sent[..d + 1]));
      m.At(pair) <= 314 && m.At(pair.Complement()) >= -6400
  {
    hide Encode, State, BranchMetrics, Tame, ChannelBits;
    assert Tame(mettab, ChannelBits(sent)[2 * d], symbols[2 * d]);
    assert Tame(mettab, ChannelBits(sent)[2 * d + 1], symbols[2 * d + 1]);
    ChannelPair(sent, d);
    TamePair(mettab, Encode(State(sent[..d + 1])), symbols[2 * d], symbols[2 * d + 1]);
  }

  lemma TameSteps(mettab: MetricTable, symbols: seq<Byte>, nbits: nat, sent: seq<bool>, d: nat)
    requires 2 * nbits <= |symbols| && Clean(mettab, symbols, nbits, sent) && AllTame(mettab, symbols, nbits, sent) && d < nbits
    ensures var base := PathMetric(mettab, symbols, sent[..d]);
      && base <= PathMetric(mettab, symbols, sent[..d + 1]) <= base + 314
      && base - 6400 <= PathMetric(mettab, symbols, sent[..d] + [!sent[d]]) <= base + 314
  {
    hide Encode, State, BranchMetrics, PathMetric, Clean, AllTame;
    CleanLength(mettab, symbols, nbits, sent);
    var base, right, wrong := sent[..d], sent[..d + 1], sent[..d] + [!sent[d]];
    CleanPair(mettab, symbols, nbits, sent, d);
    TamedPair(mettab, symbols, nbits, sent, d);
    assert right == base + [sent[d]];
    OtherBranch(base, sent[d]);
    MetricStep(mettab, symbols, base, right);
    MetricStep(mettab, symbols, base, wrong);
  }

  lemma {:induction false} TameMetric(mettab: MetricTable, symbols: seq<Byte>, nbits: nat, sent: seq<bool>, d: nat)
    requires 2 * nbits <= |symbols| && Clean(mettab, symbols, nbits, sent) && AllTame(mettab, symbols, nbits, sent) && d <= nbits
    ensures 0 <= PathMetric(mettab, symbols, sent[..d]) <= 314 * d
  {
    if d == 0 {
      assert ChannelBits(sent[..0]) == [];
    } else {
      TameMetric(mettab, symbols, nbits, sent, d - 1);
      TameSteps(mettab, symbols, nbits, sent, d - 1);
    }
  }

  /** So the search finds a bucket for every node it opens on a tame block that favours `sent`. */
  lemma TameFits(mettab: MetricTable, symbols: seq<Byte>, nbits: nat, sent: seq<bool>)
    requires 2 * nbits <= |symbols| && Clean(mettab, symbols, nbits, sent) && AllTame(mettab, symbols, nbits, sent) && nbits <= 81
    ensures FitsAround(mettab, symbols, nbits, sent)
  {
    hide PathMetric, Clean, AllTame;
    CleanLength(mettab, symbols, nbits, sent);
    forall d | 0 <= d < nbits
      ensures DaughtersFit(mettab, symbols, nbits, sent[..d])
    {
      TameMetric(mettab, symbols, nbits, sent, d);
      TameSteps(mettab, symbols, nbits, sent, d);
      assert sent[..d + 1] == sent[..d] + [sent[d]];
    }
  }

  /** A block that arrives as strong as can be favours its message, and every node has a bucket,
      for any table with a margin at its ends. */
  lemma SaturatedBlock(mettab: MetricTable, nbits: nat, sent: seq<bool>)
    requires |sent| == nbits <= 81 && IsPath(nbits, sent)
    requires Favoured(mettab, false, 0) && Favoured(mettab, true, 255) && Tame(mettab, false, 0) && Tame(mettab, true, 255)
    ensures Clean(mettab, Saturated(sent), nbits, sent) && FitsAround(mettab, Saturated(sent), nbits, sent)
  {
    hide Favoured, Tame, ChannelBits, FitsAround;
    TameFits(mettab, Saturated(sent), nbits, sent);
  }

  /** Each node on the way to `sent` hangs in a bucket no lower than the one before and above the other branch. */
  lemma OnWay(mettab: MetricTable, symbols: seq<Byte>, nbits: nat, sent: seq<bool>, d: nat)
    requires 2 * nbits <= |symbols| && Clean(mettab, symbols, nbits, sent) && d < nbits
    requires DaughtersFit(mettab, symbols, nbits, sent[..d])
    ensures |sent| == nbits && (sent[d] ==> d + 1 <= nbits - NTAIL)
    ensures sent[..d + 1] == sent[..d] + [sent[d]]
    ensures PathBucket(mettab, symbols, sent[..d]) <= PathBucket(mettab, symbols, sent[..d + 1])
    ensures PathBucket(mettab, symbols, sent[..d] + [!sent[d]]) < PathBucket(mettab, symbols, sent[..d + 1])
    ensures 0 <= PathBucket(mettab, symbols, sent[..d + 1]) < BUCKETS
  {
    hide PathMetric, Bucket, Favoured;
    CleanBuckets(mettab, symbols, nbits, sent, d);
    assert sent[..d + 1] == sent[..d] + [sent[d]];
  }

  /** After n cycles the first n bits of the message are in hand and no open path lies as high. */
  ghost predicate Tracked(b: Block, sent: seq<bool>, n: nat, q: Queue)
    requires n <= |sent| && |q.rows| == BUCKETS
  {
    && !q.stray && q.hand == sent[..n] && q.used <= n + 1
    && forall c :: 0 <= c < BUCKETS && At(b, sent[..n]) <= c ==> q.rows[c] == []
  }

  /** The better of the daughters hangs alone in the best bucket. */
  lemma NewestOf(b: Block, q: Queue, bit: bool)
    requires Ready(b, q) && (q.used < b.slots - 1 || |q.hand| + 1 > b.nbits - NTAIL)
    requires bit ==> |q.hand| + 1 <= b.nbits - NTAIL
    requires var right, wrong := At(b, q.hand + [bit]), At(b, q.hand + [!bit]);
      && wrong < right && At(b, q.hand) <= right
      && forall c :: 0 <= c < BUCKETS && At(b, q.hand) <= c ==> q.rows[c] == []
    ensures var after := TakenUp(Opened(b, q));
      && !after.stray && after.hand == q.hand + [bit] && after.used <= q.used + 1
      && forall c :: 0 <= c < BUCKETS && At(b, q.hand + [bit]) <= c ==> after.rows[c] == []
  {
    hide PathBucket;
    var right := At(b, q.hand + [bit]);
    var mid := Opened(b, q);
    assert mid.rows[right] == [q.hand + [bit]];
    BestIs(mid.rows, right);
  }

  lemma TrackedStep(b: Block, sent: seq<bool>, n: nat, q: Queue)
    requires ValidBlock(b) && Clean(b.mettab, b.symbols, b.nbits, sent) && FitsAround(b.mettab, b.symbols, b.nbits, sent)
    requires b.slots >= b.nbits && n < b.nbits && |q.rows| == BUCKETS && n <= |sent| && Tracked(b, sent, n, q)
    ensures n < |sent| && Tracked(b, sent, n + 1, Step(b, q))
  {
    hide Clean, PathBucket, DaughtersFit, TakenUp, Opened;
    CleanLength(b.mettab, b.symbols, b.nbits, sent);
    OnWay(b.mettab, b.symbols, b.nbits, sent, n);
    assert sent[..n + 1] == q.hand + [sent[n]];
    NewestOf(b, q, sent[n]);
    assert Step(b, q) == TakenUp(Opened(b, q));
  }

  /** A block that favours the message keeps the search on it, one bit a cycle. */
  lemma {:induction false} CleanQueue(b: Block, sent: seq<bool>, n: nat)
    requires ValidBlock(b) && Clean(b.mettab, b.symbols, b.nbits, sent) && FitsAround(b.mettab, b.symbols, b.nbits, sent)
    requires b.slots >= b.nbits && n <= b.nbits
    ensures |sent| == b.nbits && Tracked(b, sent, n, After(b, n))
  {
    hide Clean, FitsAround, Step, PathBucket;
    CleanLength(b.mettab, b.symbols, b.nbits, sent);
    if n == 0 {
    } else {
      CleanQueue(b, sent, n - 1);
      TrackedStep(b, sent, n - 1, After(b, n - 1));
    }
  }

  lemma Depth(mettab: MetricTable, symbols: seq<Byte>, nbits: nat, path: seq<bool>, encstate: bv64, gamma: int, depth: nat)
    requires 2 * nbits <= |symbols| && Describes(mettab, symbols, nbits, path, encstate, gamma, depth)
    ensures depth == |path| <= nbits
  {
  }

  // ----- reading the data bytes out of the encoder state

  /** `encstate >> (48 - i * 8)`. */
  function StateFrom(encstate: bv64, i: nat): bv64
    requires i < 7
  {
    match i
    case 0 => encstate >> 48
    case 1 => encstate >> 40
    case 2 => encstate >> 32
    case 3 => encstate >> 24
    case 4 => encstate >> 16
    case 5 => encstate >> 8
    case _ => encstate
  }

  /** Shifting a bit into the state moves the first bit of each byte into the byte before it. */
  lemma StateFromShift(w: bv64, bit: bool, i: nat)
    requires i < 7
    ensures var carry := if i == 6 then bit else BitAt(LowByte(StateFrom(w, i + 1)), 0);
      LowByte(StateFrom(Shift(w, bit), i)) == LowByte(Shift(StateFrom(w, i), carry))
  {
    hide Shift, LowByte, BitAt;
    match i
    case 0 => Carry(w, bit);
    case 1 => Carry(w, bit);
    case 2 => Carry(w, bit);
    case 3 => Carry(w, bit);
    case 4 => Carry(w, bit);
    case 5 => Carry(w, bit);
    case _ =>
  }

  lemma Carry(w: bv64, bit: bool)
    ensures LowByte(Shift(w, bit) >> 48) == LowByte(Shift(w >> 48, BitAt(LowByte(w >> 40), 0)))
    ensures LowByte(Shift(w, bit) >> 40) == LowByte(Shift(w >> 40, BitAt(LowByte(w >> 32), 0)))
    ensures LowByte(Shift(w, bit) >> 32) == LowByte(Shift(w >> 32, BitAt(LowByte(w >> 24), 0)))
    ensures LowByte(Shift(w, bit) >> 24) == LowByte(Shift(w >> 24, BitAt(LowByte(w >> 16), 0)))
    ensures LowByte(Shift(w, bit) >> 16) == LowByte(Shift(w >> 16, BitAt(LowByte(w >> 8), 0)))
    ensures LowByte(Shift(w, bit) >> 8) == LowByte(Shift(w >> 8, BitAt(LowByte(w), 0)))
  {
  }

  /** Bit k of data byte i is the path bit that many places from the end of a 56-bit window. */
  lemma {:induction false} StateByteBit(path: seq<bool>, i: nat, k: nat)
    requires i < 7 && k < 8
    ensures var back := 56 - (8 * i + k);
      BitAt(LowByte(StateFrom(State(path), i)), k) == (back <= |path| && path[|path| - back])
    decreases path
  {
    hide BitAt, LowByte, Shift, StateFrom;
    if path == [] {
      EmptyState(i, k);
    } else {
      var earlier := path[..|path| - 1];
      StateFromShift(State(earlier), path[|path| - 1], i);
      LowByteShift(StateFrom(State(earlier), i), if i == 6 then path[|path| - 1] else BitAt(LowByte(StateFrom(State(earlier), i + 1)), 0), k);
      if k < 7 {
        StateByteBit(earlier, i, k + 1);
      } else if i < 6 {
        StateByteBit(earlier, i + 1, 0);
      }
    }
  }

  lemma EmptyState(i: nat, k: nat)
    requires i < 7 && k < 8
    ensures !BitAt(LowByte(StateFrom(0, i)), k)
  {
  }

  /** The decoded bytes as a message: 56 bits, cut or padded with zeros to nbits. */
  function Message(data: seq<bv8>, nbits: nat): (bits: seq<bool>)
    requires |data| == 7
    ensures |bits| == nbits
  {
    if nbits < STATE_BITS then BitsOf(data)[STATE_BITS - nbits..] else BitsOf(data) + Zeros(nbits - STATE_BITS)
  }

  lemma MessageIsPath(mettab: MetricTable, symbols: seq<Byte>, nbits: nat, path: seq<bool>, encstate: bv64, gamma: int, data: seq<bv8>)
    requires 2 * nbits <= |symbols| && nbits <= NTAIL + STATE_BITS && |data| == 7
    requires Describes(mettab, symbols, nbits, path, encstate, gamma, nbits)
    requires forall i :: 0 <= i < 7 ==> data[i] == LowByte(StateFrom(encstate, i))
    ensures Message(data, nbits) == path
  {
    hide LowByte, StateFrom, State, PathMetric, BitAt;
    var kept := if nbits < STATE_BITS then path else path[..STATE_BITS];
    assert |path| == nbits;
    if nbits == STATE_BITS {
      assert kept == path;
    }
    var skip := STATE_BITS - |kept|;
    forall j | 0 <= j < |kept|
      ensures BitsOf(data)[skip + j] == path[j]
    {
      var at := skip + j;
      BitOfByte(data, at / 8, at % 8);
      StateByteBit(kept, at / 8, at % 8);
    }
  }

  /** `nbits * maxcycles` as an unsigned 32-bit word. */
  function CycleLimit(maxcycles: nat, nbits: nat): nat {
    maxcycles * nbits % UINT32
  }

  predicate TimedOut(cycles: nat, nbits: nat, maxcycles: nat)
    requires nbits > 0
  {
    cycles / nbits >= maxcycles
  }

  /** A search that uses up its cycles reports limit + 2, in 32 bits; that is taken for a
      timeout exactly when the cycles asked for stay two below 2^32. */
  lemma ExhaustionReported(maxcycles: nat, nbits: nat)
    requires nbits > 0
    ensures TimedOut((CycleLimit(maxcycles, nbits) + 2) % UINT32, nbits, maxcycles) <==> maxcycles * nbits < UINT32 - 2
  {
    LimitIs(maxcycles, nbits);
    var limit, asked := CycleLimit(maxcycles, nbits), maxcycles * nbits;
    hide CycleLimit;
    var cycles := (limit + 2) % UINT32;
    if asked < UINT32 - 2 {
      assert cycles == asked + 2;
    } else {
      assert cycles < asked;
    }
    DivideBound(cycles, nbits, maxcycles);
  }

  lemma LimitIs(maxcycles: nat, nbits: nat)
    ensures CycleLimit(maxcycles, nbits) == maxcycles * nbits % UINT32
  {
  }

  /** A search that finishes in cycle `spent` is reported as done exactly when one more cycle
      would still stay below the number asked for, or would wrap the counter. */
  lemma FinishReported(spent: nat, maxcycles: nat, nbits: nat)
    requires nbits > 0 && 1 <= spent <= CycleLimit(maxcycles, nbits)
    ensures !TimedOut((spent + 1) % UINT32, nbits, maxcycles) <==> spent + 1 < maxcycles * nbits || spent + 1 == UINT32
  {
    LimitIs(maxcycles, nbits);
    var asked := maxcycles * nbits;
    hide CycleLimit;
    assert spent + 1 <= UINT32 && asked > 0;
    DivideBound((spent + 1) % UINT32, nbits, maxcycles);
  }

  /** With 64 bits and 2^26 cycles a bit the limit wraps to nothing, and not searching at all
      is reported as success. */
  lemma WrappedLimitSucceeds()
    ensures CycleLimit(0x400_0000, 64) == 0 && !TimedOut((CycleLimit(0x400_0000, 64) + 2) % UINT32, 64, 0x400_0000)
  {
    ExhaustionReported(0x400_0000, 64);
  }

  lemma DivideBound(a: nat, n: nat, q: nat)
    requires n > 0
    ensures a / n >= q <==> a >= q * n
  {
    var r := a % n;
    assert a == a / n * n + r;
    if a / n >= q {
      assert a / n * n >= q * n;
    } else {
      assert (a / n + 1) * n <= q * n;
    }
  }

  /** A search that finishes in its last two cycles is thrown away: with one cycle a bit that is
      every search that goes straight to its end. */
  lemma StraightFinishLost(nbits: nat)
    requires 0 < nbits < UINT32 - 1
    ensures CycleLimit(1, nbits) == nbits && TimedOut((nbits + 1) % UINT32, nbits, 1)
  {
    LimitIs(1, nbits);
    FinishReported(nbits, 1, nbits);
  }

  /** What became of the search: it went astray or reached full depth in cycle `spent` and not
      before; or neither, and the counter is one past the limit. */
  ghost predicate Spent(b: Block, limit: nat, stray: bool, finished: bool, spent: nat)
    requires ValidBlock(b)
  {
    && stray == After(b, limit).stray
    && finished == (!stray && |After(b, limit).hand| >= b.nbits)
    && (if stray || finished then 1 <= spent <= limit && Ended(b, After(b, spent)) && !Ended(b, After(b, spent - 1))
        else spent == limit + 1)
  }

  /** Decode a block with the stack algorithm, using the caller's node array. `stray` says that a
      node fell outside the bucket array, `finished` whether the search reached full depth,
      `spent` how far its cycle counter came. */
  method Decode(symbols: seq<Byte>, nbits: nat, stack: array<Node>, mettab: MetricTable, maxcycles: nat, data: array<bv8>)
    returns (ok: bool, metric: int, cycles: nat, stray: bool, ghost finished: bool, ghost spent: nat)
    requires NTAIL <= nbits <= 81 && 2 * nbits <= |symbols| && stack.Length >= 2 && data.Length >= 11
    modifies stack, data
    ensures var b, limit := Block(mettab, symbols, nbits, stack.Length), CycleLimit(maxcycles, nbits);
      var q := After(b, limit);
      && Spent(b, limit, stray, finished, spent)
      && (!stray ==> |q.hand| <= nbits && metric == PathMetric(mettab, symbols, q.hand) % UINT32)
      && (finished ==> Message(data[..7], nbits) == q.hand && IsBest(b, q.lost, q.hand))
    ensures stray ==> !ok
    ensures !stray ==> ok == !TimedOut(cycles, nbits, maxcycles) && cycles == (spent + 1) % UINT32
    ensures finished ==> (ok <==> spent + 1 < maxcycles * nbits || spent + 1 == UINT32)
    ensures !stray && !finished ==> (ok <==> maxcycles * nbits >= UINT32 - 2)
    ensures !stray ==> forall i :: 7 <= i < 11 ==> data[i] == 0
  {
    hide Describes, Linked, DaughtersFit, Bucket, Stored, PathMetric, IsPath, LowByte, StateFrom, CycleLimit,
      TimedOut, Message, IsBest, Start, Step;
    var search := new Search(stack, mettab, symbols, nbits);
    ghost var b := search.Task();
    var limit := CycleLimit(maxcycles, nbits);
    var i := 1;
    var done := false;
    stray := false;
    while i <= limit && !done
      invariant 1 <= i <= limit + 1 && fresh(search) && fresh(search.buckets)
      invariant search.stack == stack && search.nbits == nbits && search.Task() == b
      invariant !done ==> search.Valid() && search.Current() == After(b, i - 1)
      invariant done ==> i <= limit && search.Current() == After(b, i) && !Ended(b, After(b, i - 1))
      invariant Describes(mettab, symbols, nbits, search.path, search.encstate, search.gamma, search.depth)
      invariant done == (search.depth == nbits)
      decreases limit + 1 - i, !done
    {
      Depth(mettab, symbols, nbits, search.path, search.encstate, search.gamma, search.depth);
      done, stray := search.Cycle();
      if stray {
        EndStays(b, i, limit);
        ok, metric, cycles, finished, spent := false, 0, 0, false, i;
        return;
      }
      if !done {
        i := i + 1;
      }
    }
    Depth(mettab, symbols, nbits, search.path, search.encstate, search.gamma, search.depth);
    cycles := (i + 1) % UINT32;
    metric := search.gamma % UINT32;
    DescribedPath(mettab, symbols, nbits, search.path, search.encstate, search.gamma, search.depth);
    WriteData(search.encstate, data);
    ok := !TimedOut(cycles, nbits, maxcycles);
    finished, spent := done, i;
    if done {
      EndStays(b, i, limit);
      MessageIsPath(mettab, symbols, nbits, search.path, search.encstate, search.gamma, data[..7]);
      FoundIsBest(b, limit);
      FinishReported(spent, maxcycles, nbits);
    } else {
      ExhaustionReported(maxcycles, nbits);
    }
  }

  /** A block that favours a message whose nodes all have a bucket is decoded to it, in as many
      cycles as it has bits. */
  lemma CleanDecode(b: Block, sent: seq<bool>, limit: nat, stray: bool, finished: bool, spent: nat)
    requires ValidBlock(b) && Clean(b.mettab, b.symbols, b.nbits, sent) && FitsAround(b.mettab, b.symbols, b.nbits, sent)
    requires b.slots >= b.nbits && Spent(b, limit, stray, finished, spent)
    ensures !stray && (b.nbits <= limit ==> finished && spent == b.nbits && After(b, limit).hand == sent)
  {
    hide After, Clean, FitsAround, PathBucket;
    if b.nbits <= limit {
      CleanQueue(b, sent, b.nbits);
      EndStays(b, b.nbits, limit);
      assert sent[..b.nbits] == sent;
      if spent < b.nbits {
        CleanQueue(b, sent, spent);
      } else if spent > b.nbits {
        EndStays(b, b.nbits, spent - 1);
      }
    } else {
      CleanQueue(b, sent, limit);
    }
  }

  /** Seven bytes of encoder state, then four zero bytes. */
  method WriteData(encstate: bv64, data: array<bv8>)
    requires data.Length >= 11
    modifies data
    ensures forall i :: 0 <= i < 7 ==> data[i] == LowByte(StateFrom(encstate, i))
    ensures forall i :: 7 <= i < 11 ==> data[i] == 0
  {
    hide LowByte, StateFrom;
    for k := 0 to 7
      invariant forall j :: 0 <= j < k ==> data[j] == LowByte(StateFrom(encstate, j))
    {
      data[k] := LowByte(StateFrom(encstate, k));
    }
    for k := 7 to 11
      invariant forall j :: 0 <= j < 7 ==> data[j] == LowByte(StateFrom(encstate, j))
      invariant forall j :: 7 <= j < k ==> data[j] == 0
    {
      data[k] := 0;
    }
  }

  lemma DescribedPath(mettab: MetricTable, symbols: seq<Byte>, nbits: nat, path: seq<bool>, encstate: bv64, gamma: int, depth: nat)
    requires 2 * nbits <= |symbols| && Describes(mettab, symbols, nbits, path, encstate, gamma, depth)
    ensures IsPath(nbits, path) && gamma == PathMetric(mettab, symbols, path)
  {
  }
}