/** The Fano search as a walk over the code tree, told in terms of messages and their metrics
    alone, and what it finds: a message whose lowest running metric is nearly the best. */
module FanoWalk {
  import opened Bits
  import opened MessageBits

  /** The constraint length less one: so many zero bits flush the encoder. */
  const TAIL: int := 31

  /** A received block with its metric table, the number of message bits and the threshold step. */
  datatype Block = Block(mettab: MetricTable, symbols: seq<Byte>, nbits: nat, delta: int)

  predicate ValidBlock(b: Block) {
    b.nbits >= TAIL && b.delta > 0 && 2 * b.nbits <= |b.symbols|
  }

  predicate IsTail(nbits: nat, j: nat) {
    j >= 1 && j >= nbits - TAIL
  }

  /** The running metric of the first message bits. */
  ghost function Gamma(b: Block, prefix: seq<bool>): int
    requires ValidBlock(b) && |prefix| <= b.nbits
  {
    Correlation(b.mettab, ChannelBits(prefix), b.symbols)
  }

  /** The branch tried first: the one with the greater metric, the 1-branch when they are equal;
      in the tail the 0-branch. */
  ghost predicate First(b: Block, prefix: seq<bool>)
    requires ValidBlock(b) && |prefix| < b.nbits
  {
    !IsTail(b.nbits, |prefix|) && Gamma(b, prefix + [false]) <= Gamma(b, prefix + [true])
  }

  /** The greatest whole number of steps that is not above the metric. */
  function Whole(gamma: int, delta: int): int
    requires delta > 0
  {
    gamma / delta * delta
  }

  ghost predicate IsMultiple(t: int, delta: int) {
    exists k: int :: t == k * delta
  }

  /** Where the walk stands: the bits under test from the root on, which of them are second tries,
      the threshold, and whether the last node has been passed. */
  datatype Walk = Walk(bits: seq<bool>, second: seq<bool>, t: int, done: bool)

  ghost predicate Shaped(b: Block, w: Walk) {
    ValidBlock(b) && 1 <= |w.bits| == |w.second| <= b.nbits
  }

  /** Go back to the nearest node before the tail whose second branch is untried; at the root, or
      where the node before is below the threshold, lower the threshold instead and start over
      with the first branch. */
  ghost function Back(b: Block, bits: seq<bool>, second: seq<bool>, t: int): (w: Walk)
    requires ValidBlock(b) && 1 <= |bits| == |second| <= b.nbits
    ensures Shaped(b, w) && !w.done
    decreases |bits|
  {
    var np := |bits| - 1;
    if np == 0 || Gamma(b, bits[..np - 1]) < t then
      Walk(bits[..np] + [bits[np] != second[np]], second[..np] + [false], t - b.delta, false)
    else if np - 1 < b.nbits - TAIL && !second[np - 1] then
      Walk(bits[..np - 1] + [!bits[np - 1]], second[..np - 1] + [true], t, false)
    else
      Back(b, bits[..np], second[..np], t)
  }

  /** One cycle: a step forward when the branch under test meets the threshold, which is tightened
      at a node visited for the first time; else backward. */
  ghost function Step(b: Block, w: Walk): (next: Walk)
    requires Shaped(b, w)
    ensures Shaped(b, next)
  {
    if w.done then w
    else if Gamma(b, w.bits) >= w.t then
      var t := if Gamma(b, w.bits[..|w.bits| - 1]) < w.t + b.delta then Whole(Gamma(b, w.bits), b.delta) else w.t;
      if |w.bits| == b.nbits then Walk(w.bits, w.second, t, true)
      else Walk(w.bits + [First(b, w.bits)], w.second + [false], t, false)
    else Back(b, w.bits, w.second, w.t)
  }

  ghost function Start(b: Block): (w: Walk)
    requires ValidBlock(b)
    ensures Shaped(b, w)
  {
    Walk([First(b, [])], [false], 0, false)
  }

  /** The walk after so many cycles. */
  ghost function After(b: Block, n: nat): (w: Walk)
    requires ValidBlock(b)
    ensures Shaped(b, w)
  {
    if n == 0 then Start(b) else Step(b, After(b, n - 1))
  }

  /** The greatest depth at which a cycle started. */
  ghost function Deepest(b: Block, n: nat): (np: nat)
    requires ValidBlock(b)
    ensures np < b.nbits
  {
    if n == 0 then 0
    else
      var np := |After(b, n - 1).bits| - 1;
      if np > Deepest(b, n - 1) then np else Deepest(b, n - 1)
  }

  lemma {:induction false} DoneStays(b: Block, n: nat, m: nat)
    requires ValidBlock(b) && n <= m && After(b, n).done
    ensures After(b, m) == After(b, n)
  {
    if n == m {
    } else {
      DoneStays(b, n, m - 1);
    }
  }

  // ----- what the walk knows about the branches it has left

  /** A message of the tree searched: zeros in the tail. Without data bits the root is only ever
      left by its first branch. */
  ghost predicate InTree(b: Block, msg: seq<bool>)
    requires ValidBlock(b)
  {
    && |msg| == b.nbits && (forall j :: 0 <= j < |msg| && IsTail(b.nbits, j) ==> !msg[j])
    && (b.nbits == TAIL ==> msg[0] == First(b, []))
  }

  /** Every message through the prefix falls below the threshold from there on. */
  ghost predicate Closed(b: Block, prefix: seq<bool>, t: int)
    requires ValidBlock(b) && |prefix| <= b.nbits
  {
    forall msg: seq<bool> :: InTree(b, msg) && prefix <= msg ==> Falls(b, msg, |prefix|, t)
  }

  ghost predicate Falls(b: Block, msg: seq<bool>, from: nat, t: int)
    requires ValidBlock(b) && |msg| <= b.nbits
  {
    exists k :: from <= k <= |msg| && Gamma(b, msg[..k]) < t
  }

  /** The bits before place k. */
  ghost function Pre(w: Walk, k: nat): (prefix: seq<bool>)
    requires k <= |w.bits|
    ensures |prefix| == k
  {
    w.bits[..k]
  }

  /** The node at place j is left by its second branch: the first is closed, and nothing since
      has been as low as the threshold it was closed at. */
  ghost predicate SettledAt(b: Block, w: Walk, j: nat, s: int)
    requires Shaped(b, w) && j < |w.bits|
  {
    && s <= w.t && IsMultiple(s, b.delta) && Closed(b, Pre(w, j) + [!w.bits[j]], s)
    && forall k :: j <= k < |w.bits| ==> Gamma(b, Pre(w, k)) >= s
  }

  ghost predicate Settled(b: Block, w: Walk)
    requires Shaped(b, w)
  {
    forall j :: 0 <= j < |w.bits| && w.second[j] ==> exists s: int :: SettledAt(b, w, j, s)
  }

  /** Nothing on the walk is below the floor, and every message falls below the step above it. */
  ghost predicate FloorAt(b: Block, w: Walk, floor: int)
    requires Shaped(b, w)
  {
    && floor <= w.t && floor <= 0 && IsMultiple(floor, b.delta) && (floor < 0 ==> Closed(b, [], floor + b.delta))
    && (forall k :: 0 <= k < |w.bits| ==> Gamma(b, Pre(w, k)) >= floor)
    && (w.done ==> Gamma(b, w.bits) >= floor)
  }

  /** The bit is a first try, or a second one where the tree has two branches to try. */
  ghost predicate TriedAt(b: Block, prefix: seq<bool>, bit: bool, second: bool)
    requires ValidBlock(b) && |prefix| < b.nbits
  {
    bit == (First(b, prefix) != second) && (second ==> !IsTail(b.nbits, |prefix|) && b.nbits > TAIL)
  }

  /** The bits are such tries, and the node reached meets the threshold. */
  ghost predicate Ordered(b: Block, w: Walk)
    requires Shaped(b, w)
  {
    && (forall j :: 0 <= j < |w.bits| ==> TriedAt(b, Pre(w, j), w.bits[j], w.second[j]))
    && IsMultiple(w.t, b.delta)
    && (if w.done then |w.bits| == b.nbits && Gamma(b, w.bits) >= w.t else Gamma(b, Pre(w, |w.bits| - 1)) >= w.t)
  }

  ghost predicate Sound(b: Block, w: Walk) {
    Shaped(b, w) && Ordered(b, w) && Settled(b, w) && exists floor: int :: FloorAt(b, w, floor)
  }

  // ----- multiples of the step

  lemma Apart(s: int, t: int, delta: int)
    requires delta > 0 && IsMultiple(s, delta) && IsMultiple(t, delta) && s < t
    ensures s <= t - delta
  {
    var k, l :| s == k * delta && t == l * delta;
    if k >= l {
      Scaled(l, k, delta);
    }
    Scaled(k + 1, l, delta);
    assert (k + 1) * delta == s + delta;
  }

  lemma Scaled(k: int, l: int, delta: int)
    requires delta > 0 && k <= l
    ensures k * delta <= l * delta
  {
    assert l * delta == k * delta + (l - k) * delta;
  }

  lemma MultipleStep(t: int, delta: int)
    requires IsMultiple(t, delta)
    ensures IsMultiple(t + delta, delta) && IsMultiple(t - delta, delta)
  {
    var k :| t == k * delta;
    assert t + delta == (k + 1) * delta;
    assert t - delta == (k - 1) * delta;
  }

  lemma WholeIs(gamma: int, delta: int)
    requires delta > 0
    ensures IsMultiple(Whole(gamma, delta), delta) && Whole(gamma, delta) <= gamma < Whole(gamma, delta) + delta
  {
  }

  /** No other multiple lies within one step below the metric. */
  lemma WholeOnly(t: int, gamma: int, delta: int)
    requires delta > 0 && IsMultiple(t, delta) && t <= gamma
    ensures t <= Whole(gamma, delta) && (gamma < t + delta ==> t == Whole(gamma, delta))
  {
    WholeIs(gamma, delta);
    hide Whole, IsMultiple;
    if Whole(gamma, delta) < t {
      Apart(Whole(gamma, delta), t, delta);
    }
    if t < Whole(gamma, delta) {
      Apart(t, Whole(gamma, delta), delta);
    }
  }

  // ----- closing branches

  lemma BelowIsClosed(b: Block, prefix: seq<bool>, t: int)
    requires ValidBlock(b) && |prefix| <= b.nbits && Gamma(b, prefix) < t
    ensures Closed(b, prefix, t)
  {
    hide Gamma, First;
    forall msg: seq<bool> | InTree(b, msg) && prefix <= msg
      ensures Falls(b, msg, |prefix|, t)
    {
      assert msg[..|prefix|] == prefix;
    }
  }

  lemma ClosedRaise(b: Block, prefix: seq<bool>, s: int, t: int)
    requires ValidBlock(b) && |prefix| <= b.nbits && Closed(b, prefix, s) && s <= t
    ensures Closed(b, prefix, t)
  {
    hide Gamma, First;
    forall msg: seq<bool> | InTree(b, msg) && prefix <= msg
      ensures Falls(b, msg, |prefix|, t)
    {
      var k :| |prefix| <= k <= |msg| && Gamma(b, msg[..k]) < s;
    }
  }

  /** The tree has no other branch out of this node. */
  ghost predicate Only(b: Block, prefix: seq<bool>, bit: bool)
    requires ValidBlock(b)
  {
    (IsTail(b.nbits, |prefix|) && !bit) || (b.nbits == TAIL && prefix == [] && bit == First(b, []))
  }

  /** A node is closed when its branches are. */
  lemma CloseNode(b: Block, prefix: seq<bool>, bit: bool, t: int)
    requires ValidBlock(b) && |prefix| < b.nbits && Closed(b, prefix + [bit], t)
    requires Only(b, prefix, bit) || Closed(b, prefix + [!bit], t)
    ensures Closed(b, prefix, t)
  {
    hide Gamma, First;
    var n := |prefix|;
    forall msg: seq<bool> | InTree(b, msg) && prefix <= msg
      ensures Falls(b, msg, n, t)
    {
      assert prefix + [msg[n]] == msg[..n + 1];
      assert prefix + [msg[n]] <= msg;
      assert msg[n] == bit || msg[n] == !bit;
      var k :| n + 1 <= k <= |msg| && Gamma(b, msg[..k]) < t;
    }
  }

  // ----- every cycle keeps what the walk knows

  /** Where a cycle lowers the threshold, every message through the node it stops at falls below the
      old one, and the walk could not have gone further back. */
  ghost predicate DropsFairly(b: Block, t: int, next: Walk)
    requires Shaped(b, next)
  {
    var np := |next.bits| - 1;
    next.t < t ==>
      next.t == t - b.delta && Closed(b, Pre(next, np), t) && (np == 0 || Gamma(b, Pre(next, np - 1)) < t)
  }

  /** The walks agree before place n. */
  ghost predicate Agree(w: Walk, next: Walk, n: nat)
    requires |w.bits| == |w.second| && |next.bits| == |next.second| && n <= |w.bits| && n <= |next.bits|
  {
    && (forall k :: 0 <= k <= n ==> Pre(next, k) == Pre(w, k))
    && (forall j :: 0 <= j < n ==> next.bits[j] == w.bits[j] && next.second[j] == w.second[j])
  }

  lemma AgreeCut(w: Walk, next: Walk, n: nat)
    requires |w.bits| == |w.second| && |next.bits| == |next.second| && n <= |w.bits| && n <= |next.bits|
    requires next.bits[..n] == w.bits[..n] && next.second[..n] == w.second[..n]
    ensures Agree(w, next, n)
  {
    forall k | 0 <= k <= n
      ensures Pre(next, k) == Pre(w, k)
    {
      assert next.bits[..k] == next.bits[..n][..k] && w.bits[..k] == w.bits[..n][..k];
    }
    forall j | 0 <= j < n
      ensures next.bits[j] == w.bits[j] && next.second[j] == w.second[j]
    {
      assert next.bits[j] == next.bits[..n][j] && next.second[j] == next.second[..n][j];
    }
  }

  lemma TriedKept(b: Block, w: Walk, next: Walk, n: nat)
    requires Shaped(b, w) && Shaped(b, next) && n <= |w.bits| && n <= |next.bits| && Ordered(b, w) && Agree(w, next, n)
    ensures forall j :: 0 <= j < n ==> TriedAt(b, Pre(next, j), next.bits[j], next.second[j])
  {
    hide Pre, Gamma, TriedAt;
  }

  /** What is settled at place j stays so while nothing falls below the threshold it is settled at. */
  lemma SettledKept(b: Block, w: Walk, next: Walk, n: nat, j: nat, s: int)
    requires Shaped(b, w) && Shaped(b, next) && j < n <= |w.bits| && n <= |next.bits| && Agree(w, next, n)
    requires SettledAt(b, w, j, s) && s <= next.t
    requires forall k :: n <= k < |next.bits| ==> Gamma(b, Pre(next, k)) >= s
    ensures SettledAt(b, next, j, s)
  {
    hide Gamma, Closed, Pre;
    forall k | j <= k < |next.bits|
      ensures Gamma(b, Pre(next, k)) >= s
    {
      if k < n {
        assert Pre(next, k) == Pre(w, k);
      }
    }
    assert Pre(next, j) == Pre(w, j);
  }

  lemma FloorKept(b: Block, w: Walk, next: Walk, n: nat, floor: int)
    requires Shaped(b, w) && Shaped(b, next) && n <= |w.bits| && n <= |next.bits| && Agree(w, next, n)
    requires FloorAt(b, w, floor) && floor <= next.t && !next.done
    requires forall k :: n <= k < |next.bits| ==> Gamma(b, Pre(next, k)) >= floor
    ensures FloorAt(b, next, floor)
  {
    hide Gamma, Closed, Pre, IsMultiple;
    forall k | 0 <= k < |next.bits|
      ensures Gamma(b, Pre(next, k)) >= floor
    {
      if k < n {
        assert Pre(next, k) == Pre(w, k);
      }
    }
  }

  /** The node the walk has reached: its prefix, its threshold. */
  lemma Reached(b: Block, w: Walk)
    requires Shaped(b, w) && Ordered(b, w) && !w.done
    ensures IsMultiple(w.t, b.delta) && Gamma(b, Pre(w, |w.bits| - 1)) >= w.t
    ensures TriedAt(b, Pre(w, |w.bits| - 1), w.bits[|w.bits| - 1], w.second[|w.bits| - 1])
  {
    hide Pre, Gamma, TriedAt;
  }

  // ----- the threshold drops

  /** The walk at the end of its way back: the threshold drops by one step. */
  ghost predicate Dropped(b: Block, w: Walk, next: Walk)
    requires Shaped(b, w) && Shaped(b, next)
  {
    var np := |w.bits| - 1;
    && |next.bits| == |w.bits| && !next.done && !w.done && Agree(w, next, np) && next.t == w.t - b.delta
    && next.bits[np] == (w.bits[np] != w.second[np]) && !next.second[np]
    && (np == 0 || Gamma(b, Pre(w, np - 1)) < w.t) && Closed(b, Pre(w, np), w.t)
  }

  lemma DropOrdered(b: Block, w: Walk, next: Walk)
    requires Shaped(b, w) && Shaped(b, next) && Dropped(b, w, next) && Ordered(b, w)
    ensures Ordered(b, next)
  {
    hide Gamma, Closed, First, IsMultiple, IsTail, Pre;
    TriedKept(b, w, next, |w.bits| - 1);
    Reached(b, w);
    MultipleStep(w.t, b.delta);
  }

  lemma DropSettled(b: Block, w: Walk, next: Walk)
    requires Shaped(b, w) && Shaped(b, next) && Dropped(b, w, next) && Settled(b, w) && Ordered(b, w)
    ensures Settled(b, next)
  {
    hide Gamma, Closed, IsMultiple, Pre, Ordered, Agree;
    var np := |w.bits| - 1;
    Reached(b, w);
    forall j | 0 <= j < |next.bits| && next.second[j]
      ensures exists s: int :: SettledAt(b, next, j, s)
    {
      DropSettledAt(b, w, next, j);
    }
  }

  lemma DropSettledAt(b: Block, w: Walk, next: Walk, j: nat)
    requires Shaped(b, w) && Shaped(b, next) && Dropped(b, w, next) && Settled(b, w) && IsMultiple(w.t, b.delta)
    requires j < |next.bits| && next.second[j]
    ensures exists s: int :: SettledAt(b, next, j, s)
  {
    hide Gamma, Closed, IsMultiple, Pre;
    var np := |w.bits| - 1;
    assert next.second[j] == w.second[j];
    var s :| SettledAt(b, w, j, s);
    assert Gamma(b, Pre(w, np - 1)) >= s && Gamma(b, Pre(w, np)) >= s;
    Apart(s, w.t, b.delta);
    assert Pre(next, np) == Pre(w, np);
    SettledKept(b, w, next, np, j, s);
  }

  lemma DropFloor(b: Block, w: Walk, next: Walk, floor: int) returns (floor': int)
    requires Shaped(b, w) && Shaped(b, next) && Dropped(b, w, next) && Ordered(b, w) && FloorAt(b, w, floor)
    ensures FloorAt(b, next, floor')
  {
    hide Gamma, Closed, IsMultiple, TriedAt;
    var np := |w.bits| - 1;
    Reached(b, w);
    assert Pre(next, np) == Pre(w, np);
    if np == 0 {
      RootMetric(b);
      MultipleStep(w.t, b.delta);
      floor' := w.t - b.delta;
    } else {
      Apart(floor, w.t, b.delta);
      FloorKept(b, w, next, np, floor);
      floor' := floor;
    }
  }

  lemma RootMetric(b: Block)
    requires ValidBlock(b)
    ensures Gamma(b, []) == 0
  {
  }

  lemma DropSound(b: Block, w: Walk, next: Walk)
    requires Sound(b, w) && Shaped(b, next) && Dropped(b, w, next)
    ensures Sound(b, next) && DropsFairly(b, w.t, next)
  {
    hide Gamma, Closed, Ordered, Settled, FloorAt, Pre;
    DropOrdered(b, w, next);
    DropSettled(b, w, next);
    var floor :| FloorAt(b, w, floor);
    var floor' := DropFloor(b, w, next, floor);
    var np := |w.bits| - 1;
    assert Pre(next, np) == Pre(w, np) && (np > 0 ==> Pre(next, np - 1) == Pre(w, np - 1));
  }

  // ----- one node further back, or on with the second branch there

  ghost predicate CutBack(b: Block, w: Walk, next: Walk)
    requires Shaped(b, w) && Shaped(b, next)
  {
    var np := |w.bits| - 1;
    && |next.bits| == np && !next.done && !w.done && Agree(w, next, np) && next.t == w.t && Gamma(b, Pre(w, np - 1)) >= w.t
  }

  lemma CutSound(b: Block, w: Walk, next: Walk)
    requires Sound(b, w) && Shaped(b, next) && CutBack(b, w, next)
    ensures Sound(b, next)
  {
    hide Gamma, Closed, Pre, IsMultiple, TriedAt;
    var np := |w.bits| - 1;
    Reached(b, w);
    TriedKept(b, w, next, np);
    assert Pre(next, np - 1) == Pre(w, np - 1);
    CutSettled(b, w, next);
    var floor :| FloorAt(b, w, floor);
    FloorKept(b, w, next, np, floor);
  }

  lemma CutSettled(b: Block, w: Walk, next: Walk)
    requires Shaped(b, w) && Settled(b, w) && Shaped(b, next) && CutBack(b, w, next)
    ensures Settled(b, next)
  {
    hide Gamma, Closed, Pre, IsMultiple;
    forall j | 0 <= j < |next.bits| && next.second[j]
      ensures exists s: int :: SettledAt(b, next, j, s)
    {
      assert next.second[j] == w.second[j];
      var s :| SettledAt(b, w, j, s);
      SettledKept(b, w, next, |next.bits|, j, s);
    }
  }

  /** The walk goes on with the second branch of the node it has come back to. */
  ghost predicate TakesSecond(b: Block, w: Walk, next: Walk)
    requires Shaped(b, w) && Shaped(b, next)
  {
    var np := |w.bits| - 1;
    && |next.bits| == |w.bits| && !next.done && !w.done && Agree(w, next, np) && next.t == w.t
    && np < b.nbits - TAIL && !w.second[np] && next.second[np] && next.bits[np] == !w.bits[np]
    && Closed(b, Pre(w, np) + [w.bits[np]], w.t)
  }

  lemma SwitchOrdered(b: Block, w: Walk, next: Walk)
    requires Shaped(b, w) && Shaped(b, next) && TakesSecond(b, w, next) && Ordered(b, w)
    ensures Ordered(b, next)
  {
    hide Gamma, Closed, First, IsMultiple, Pre;
    TriedKept(b, w, next, |w.bits| - 1);
    Reached(b, w);
    assert Pre(next, |w.bits| - 1) == Pre(w, |w.bits| - 1);
  }

  lemma SwitchSettled(b: Block, w: Walk, next: Walk)
    requires Shaped(b, w) && Shaped(b, next) && TakesSecond(b, w, next) && Ordered(b, w) && Settled(b, w)
    ensures Settled(b, next)
  {
    hide Gamma, Closed, Pre, IsMultiple, Ordered, TriedAt;
    var np := |w.bits| - 1;
    Reached(b, w);
    assert Pre(next, np) == Pre(w, np);
    forall j | 0 <= j < |next.bits| && next.second[j]
      ensures exists s: int :: SettledAt(b, next, j, s)
    {
      if j == np {
        assert SettledAt(b, next, j, w.t);
      } else {
        assert next.second[j] == w.second[j];
        var s :| SettledAt(b, w, j, s);
        assert Gamma(b, Pre(w, np)) >= s;
        SettledKept(b, w, next, np, j, s);
      }
    }
  }

  lemma SwitchSound(b: Block, w: Walk, next: Walk)
    requires Sound(b, w) && Shaped(b, next) && TakesSecond(b, w, next)
    ensures Sound(b, next) && DropsFairly(b, w.t, next)
  {
    hide Gamma, Closed, Ordered, Settled, Pre;
    var np := |w.bits| - 1;
    SwitchOrdered(b, w, next);
    SwitchSettled(b, w, next);
    var floor :| FloorAt(b, w, floor);
    assert Pre(next, np) == Pre(w, np);
    FloorKept(b, w, next, np, floor);
  }

  // ----- the whole way back

  /** A node the walk has come back to is closed if its branch under test is and it has no other to try. */
  lemma NodeCloses(b: Block, w: Walk)
    requires Sound(b, w) && !w.done
    requires var np := |w.bits| - 1;
      Closed(b, Pre(w, np) + [w.bits[np]], w.t) && (np >= b.nbits - TAIL || w.second[np])
    ensures Closed(b, Pre(w, |w.bits| - 1), w.t)
  {
    hide Gamma, Closed, First, IsMultiple, FloorAt, Pre, IsTail;
    var np := |w.bits| - 1;
    Reached(b, w);
    if w.second[np] {
      var s :| SettledAt(b, w, np, s);
      ClosedRaise(b, Pre(w, np) + [!w.bits[np]], s, w.t);
    } else {
      TailBit(b, Pre(w, np), w.bits[np]);
    }
    CloseNode(b, Pre(w, np), w.bits[np], w.t);
  }

  lemma TailBit(b: Block, prefix: seq<bool>, bit: bool)
    requires ValidBlock(b) && b.nbits - TAIL <= |prefix| < b.nbits && TriedAt(b, prefix, bit, false)
    ensures Only(b, prefix, bit)
  {
    hide Gamma;
    if |prefix| == 0 {
      assert prefix == [];
    }
  }

  lemma SoundShape(b: Block, w: Walk)
    requires Sound(b, w)
    ensures Shaped(b, w)
  {
  }

  lemma {:induction false} BackSound(b: Block, w: Walk)
    requires Sound(b, w) && !w.done && Closed(b, Pre(w, |w.bits| - 1), w.t)
    ensures Sound(b, Back(b, w.bits, w.second, w.t)) && DropsFairly(b, w.t, Back(b, w.bits, w.second, w.t))
    decreases |w.bits|
  {
    hide Gamma, Closed, Sound, DropsFairly, Agree;
    SoundShape(b, w);
    var np, next := |w.bits| - 1, Back(b, w.bits, w.second, w.t);
    if np == 0 || Gamma(b, w.bits[..np - 1]) < w.t {
      AgreeCut(w, next, np);
      DropSound(b, w, next);
    } else {
      var cut := Walk(w.bits[..np], w.second[..np], w.t, false);
      AgreeCut(w, cut, np);
      CutSound(b, w, cut);
      assert cut.bits[..np - 1] == w.bits[..np - 1] && cut.second[..np - 1] == w.second[..np - 1];
      assert Pre(w, np) == Pre(cut, np - 1) + [cut.bits[np - 1]];
      if np - 1 < b.nbits - TAIL && !w.second[np - 1] {
        AgreeCut(cut, next, np - 1);
        SwitchSound(b, cut, next);
      } else {
        NodeCloses(b, cut);
        BackSound(b, cut);
      }
    }
  }

  // ----- whole cycles

  /** The branch tried first has the better metric. */
  lemma FirstIsBetter(b: Block, prefix: seq<bool>, bit: bool)
    requires ValidBlock(b) && |prefix| < b.nbits && !IsTail(b.nbits, |prefix|) && bit == First(b, prefix)
    ensures Gamma(b, prefix + [!bit]) <= Gamma(b, prefix + [bit])
  {
    hide Gamma;
  }

  lemma LastBit(w: Walk)
    requires |w.bits| > 0
    ensures w.bits == Pre(w, |w.bits| - 1) + [w.bits[|w.bits| - 1]]
  {
  }

  lemma FirstFalls(b: Block, prefix: seq<bool>, bit: bool, t: int)
    requires ValidBlock(b) && |prefix| < b.nbits && !IsTail(b.nbits, |prefix|) && TriedAt(b, prefix, bit, false)
    requires Gamma(b, prefix + [bit]) < t
    ensures Closed(b, prefix, t)
  {
    hide Gamma, Closed, First, IsTail;
    FirstIsBetter(b, prefix, bit);
    BelowIsClosed(b, prefix + [bit], t);
    BelowIsClosed(b, prefix + [!bit], t);
    CloseNode(b, prefix, bit, t);
  }

  lemma Tried(b: Block, w: Walk)
    requires Sound(b, w)
    ensures var np := |w.bits| - 1; TriedAt(b, Pre(w, np), w.bits[np], w.second[np])
  {
    hide Gamma, Closed, First, FloorAt, IsMultiple, Pre, TriedAt, IsTail, Settled;
  }

  /** A node whose branch under test is below the threshold is closed. */
  lemma FallsHere(b: Block, w: Walk)
    requires Sound(b, w) && !w.done && Gamma(b, w.bits) < w.t
    ensures Closed(b, Pre(w, |w.bits| - 1), w.t)
  {
    hide Gamma, Closed, Sound, IsTail, Pre, TriedAt;
    SoundShape(b, w);
    var np := |w.bits| - 1;
    var prefix, bit := Pre(w, np), w.bits[np];
    LastBit(w);
    Tried(b, w);
    if w.second[np] || np >= b.nbits - TAIL {
      BelowIsClosed(b, prefix + [bit], w.t);
      NodeCloses(b, w);
    } else {
      NotTail(b.nbits, np);
      FirstFalls(b, prefix, bit, w.t);
    }
  }

  lemma NotTail(nbits: nat, j: nat)
    requires j < nbits - TAIL
    ensures !IsTail(nbits, j)
  {
  }

  /** A step forward; the threshold may have been raised up to the metric met. */
  ghost predicate Forward(b: Block, w: Walk, next: Walk)
    requires Shaped(b, w) && Shaped(b, next)
  {
    var n := |w.bits|;
    && !w.done && Gamma(b, w.bits) >= w.t && n <= |next.bits| && Agree(w, next, n) && Pre(w, n) == w.bits
    && w.t <= next.t <= Gamma(b, w.bits) && IsMultiple(next.t, b.delta)
    && (if n == b.nbits then next.done && |next.bits| == n
        else !next.done && |next.bits| == n + 1 && next.bits[n] == First(b, Pre(next, n)) && !next.second[n])
  }

  lemma ForwardOrdered(b: Block, w: Walk, next: Walk)
    requires Shaped(b, w) && Shaped(b, next) && Forward(b, w, next) && Ordered(b, w)
    ensures Ordered(b, next)
  {
    hide Gamma, First, IsMultiple, IsTail, Pre;
    var n := |w.bits|;
    TriedKept(b, w, next, n);
    assert Pre(next, n) == w.bits;
    if n == b.nbits {
      ForwardDone(b, w, next);
    }
  }

  /** Past the last node: what is reached is the whole message. */
  lemma ForwardDone(b: Block, w: Walk, next: Walk)
    requires Shaped(b, w) && Shaped(b, next) && Forward(b, w, next) && |w.bits| == b.nbits
    ensures next.bits == w.bits
  {
    hide Gamma, First, IsMultiple;
    assert Pre(next, |w.bits|) == next.bits;
  }

  lemma ForwardSettled(b: Block, w: Walk, next: Walk)
    requires Shaped(b, w) && Shaped(b, next) && Forward(b, w, next) && Settled(b, w)
    ensures Settled(b, next)
  {
    hide Gamma, Closed, Pre, IsMultiple, First;
    var n := |w.bits|;
    forall j | 0 <= j < |next.bits| && next.second[j]
      ensures exists s: int :: SettledAt(b, next, j, s)
    {
      assert next.second[j] == w.second[j];
      var s :| SettledAt(b, w, j, s);
      assert Pre(next, n) == w.bits;
      SettledKept(b, w, next, n, j, s);
    }
  }

  lemma ForwardFloor(b: Block, w: Walk, next: Walk, floor: int)
    requires Shaped(b, w) && Shaped(b, next) && Forward(b, w, next) && FloorAt(b, w, floor)
    ensures FloorAt(b, next, floor)
  {
    hide Gamma, Closed, Pre, IsMultiple, First;
    var n := |w.bits|;
    forall k | 0 <= k < |next.bits|
      ensures Gamma(b, Pre(next, k)) >= floor
    {
      assert Pre(next, n) == w.bits;
      if k < n {
        assert Pre(next, k) == Pre(w, k);
      }
    }
    if n == b.nbits {
      ForwardDone(b, w, next);
    }
  }

  lemma ForwardSound(b: Block, w: Walk, next: Walk)
    requires Sound(b, w) && Shaped(b, next) && Forward(b, w, next)
    ensures Sound(b, next)
  {
    hide Gamma, Closed, Ordered, Settled, FloorAt, Forward;
    ForwardOrdered(b, w, next);
    ForwardSettled(b, w, next);
    var floor :| FloorAt(b, w, floor);
    ForwardFloor(b, w, next, floor);
  }

  /** The tightened threshold is still not above the metric, nor below the old one. */
  lemma StepForward(b: Block, w: Walk)
    requires Shaped(b, w) && !w.done && Gamma(b, w.bits) >= w.t && IsMultiple(w.t, b.delta)
    ensures Forward(b, w, Step(b, w)) && Step(b, w).t >= w.t
  {
    hide Gamma, First, Whole, IsMultiple;
    var next := Step(b, w);
    WholeIs(Gamma(b, w.bits), b.delta);
    WholeOnly(w.t, Gamma(b, w.bits), b.delta);
    assert w.bits[..|w.bits|] == w.bits == next.bits[..|w.bits|] && w.second[..|w.bits|] == w.second == next.second[..|w.bits|];
    AgreeCut(w, next, |w.bits|);
  }

  /** Every cycle keeps all of it, and lowers the threshold only where it must. */
  lemma StepSound(b: Block, w: Walk)
    requires Sound(b, w)
    ensures Sound(b, Step(b, w)) && DropsFairly(b, w.t, Step(b, w))
  {
    hide Gamma, Closed, Ordered, Settled, FloorAt, Back;
    if w.done {
    } else if Gamma(b, w.bits) >= w.t {
      Reached(b, w);
      StepForward(b, w);
      ForwardSound(b, w, Step(b, w));
    } else {
      FallsHere(b, w);
      BackSound(b, w);
    }
  }

  lemma StartSound(b: Block)
    requires ValidBlock(b)
    ensures Sound(b, Start(b))
  {
    hide Gamma, First, Closed, IsMultiple, FloorAt;
    var w := Start(b);
    StartFloor(b);
    assert Pre(w, 0) == [];
    ZeroIsMultiple(b.delta);
    RootMetric(b);
    assert FloorAt(b, w, 0);
  }

  lemma StartFloor(b: Block)
    requires ValidBlock(b)
    ensures FloorAt(b, Start(b), 0)
  {
    hide Gamma, First, Closed, IsMultiple;
    assert Pre(Start(b), 0) == [];
    ZeroIsMultiple(b.delta);
    RootMetric(b);
  }

  lemma ZeroIsMultiple(delta: int)
    ensures IsMultiple(0, delta)
  {
    assert 0 == 0 * delta;
  }

  lemma {:induction false} AfterSound(b: Block, n: nat)
    requires ValidBlock(b)
    ensures Sound(b, After(b, n))
  {
    hide Sound, Step, DropsFairly;
    if n == 0 {
      StartSound(b);
    } else {
      AfterSound(b, n - 1);
      StepSound(b, After(b, n - 1));
    }
  }

  /** Over every search: where cycle n lowers the threshold, every message through the node it stops
      at falls below the threshold from there on, and the node before is already below it. */
  lemma DropIsFair(b: Block, n: nat)
    requires ValidBlock(b)
    ensures DropsFairly(b, After(b, n).t, After(b, n + 1))
  {
    hide Sound, Step, DropsFairly;
    AfterSound(b, n);
    StepSound(b, After(b, n));
  }

  // ----- what is found

  /** The lowest running metric of the first k bits. */
  ghost function Lowest(b: Block, msg: seq<bool>, k: nat): (low: int)
    requires ValidBlock(b) && k <= |msg| <= b.nbits
  {
    if k == 0 then Gamma(b, [])
    else
      var low, here := Lowest(b, msg, k - 1), Gamma(b, msg[..k]);
      if here < low then here else low
  }

  lemma {:induction false} LowestIs(b: Block, msg: seq<bool>, n: nat, k: nat)
    requires ValidBlock(b) && k <= n <= |msg| <= b.nbits
    ensures Lowest(b, msg, n) <= Gamma(b, msg[..k])
  {
    hide Gamma;
    if n == 0 {
      assert msg[..0] == [];
    } else if k < n {
      LowestIs(b, msg, n - 1, k);
    }
  }

  lemma {:induction false} LowestAtLeast(b: Block, msg: seq<bool>, n: nat, floor: int)
    requires ValidBlock(b) && n <= |msg| <= b.nbits && forall k :: 0 <= k <= n ==> Gamma(b, msg[..k]) >= floor
    ensures Lowest(b, msg, n) >= floor
  {
    hide Gamma;
    if n == 0 {
      assert msg[..0] == [];
    } else {
      LowestAtLeast(b, msg, n - 1, floor);
    }
  }

  /** A message whose lowest running metric is within one step of that of any other. */
  ghost predicate IsNearlyBest(b: Block, found: seq<bool>)
    requires ValidBlock(b)
  {
    InTree(b, found)
    && forall msg: seq<bool> :: InTree(b, msg) ==> Lowest(b, msg, b.nbits) < Lowest(b, found, b.nbits) + b.delta
  }

  /** Such is what a finished search has found. */
  lemma NearlyBest(b: Block, n: nat)
    requires ValidBlock(b) && After(b, n).done
    ensures IsNearlyBest(b, After(b, n).bits)
  {
    AfterSound(b, n);
    var w := After(b, n);
    hide After, Gamma, Closed, First, Settled;
    FoundInTree(b, w);
    var floor :| FloorAt(b, w, floor);
    AboveFloor(b, w, floor);
    hide InTree, FloorAt;
    forall msg: seq<bool> | InTree(b, msg)
      ensures Lowest(b, msg, b.nbits) < Lowest(b, w.bits, b.nbits) + b.delta
    {
      FallsSomewhere(b, msg, floor);
    }
  }

  lemma AboveFloor(b: Block, w: Walk, floor: int)
    requires Shaped(b, w) && w.done && |w.bits| == b.nbits && FloorAt(b, w, floor)
    ensures Lowest(b, w.bits, b.nbits) >= floor
  {
    hide Gamma, Closed;
    forall k | 0 <= k <= b.nbits
      ensures Gamma(b, w.bits[..k]) >= floor
    {
      assert k < b.nbits ==> Pre(w, k) == w.bits[..k];
      assert k == b.nbits ==> w.bits[..k] == w.bits;
    }
    LowestAtLeast(b, w.bits, b.nbits, floor);
  }

  lemma FallsSomewhere(b: Block, msg: seq<bool>, floor: int)
    requires ValidBlock(b) && InTree(b, msg) && floor <= 0 && (floor < 0 ==> Closed(b, [], floor + b.delta))
    ensures Lowest(b, msg, b.nbits) < floor + b.delta
  {
    hide Gamma, First;
    if floor == 0 {
      RootMetric(b);
      LowestIs(b, msg, b.nbits, 0);
      assert msg[..0] == [];
    } else {
      assert [] <= msg;
      assert Falls(b, msg, 0, floor + b.delta);
      var k :| 0 <= k <= |msg| && Gamma(b, msg[..k]) < floor + b.delta;
      LowestIs(b, msg, b.nbits, k);
    }
  }

  lemma FoundInTree(b: Block, w: Walk)
    requires Shaped(b, w) && Ordered(b, w) && w.done
    ensures InTree(b, w.bits) && |w.bits| == b.nbits
  {
    hide Gamma;
    forall j | 0 <= j < |w.bits|
      ensures IsTail(b.nbits, j) ==> !w.bits[j]
    {
      assert TriedAt(b, Pre(w, j), w.bits[j], w.second[j]);
    }
    assert TriedAt(b, Pre(w, 0), w.bits[0], w.second[0]) && Pre(w, 0) == [];
  }
}
