/** Phil Karn's Fano sequential decoder. A node array is rewritten in place while the
    current position moves forward and backward over it, as the walk of FanoWalk does over
    the code tree. */
module Fano {
  import opened Bits
  import opened ConvolutionalCode
  import opened FanoWalk
  import opened MessageBits

  datatype Node = Node(
    encstate: bv64,     // encoder state of the branch being tested out of this node
    gamma: int,         // cumulative metric to this node
    metrics: Metrics,   // metrics of the four possible symbol pairs
    tm0: int,           // metric of the better branch
    tm1: int,           // metric of the other branch
    i: nat              // which of the two is being tested
  ) {
    function Tested(): int {
      if i == 0 then tm0 else tm1
    }
  }

  /** The branch under test and its metric agree; tail nodes only ever test the 0-branch. */
  ghost predicate NodeOk(nbits: nat, j: nat, n: Node) {
    && n.i <= 1
    && n.Tested() == n.metrics.At(Encode(n.encstate))
    && (if IsTail(nbits, j) then n.i == 0 && !Low(n.encstate)
        else n.tm0 >= n.tm1 && (if n.i == 0 then n.tm1 else n.tm0) == n.metrics.At(Encode(n.encstate).Complement()))
  }

  ghost predicate Follows(prev: Node, cur: Node) {
    && cur.encstate == Shift(prev.encstate, Low(cur.encstate))
    && cur.gamma == prev.gamma + prev.Tested()
  }

  /** The node with its other branch under test. */
  function Switched(n: Node): Node
  {
    n.(i := if n.i == 0 then 1 else 0, encstate := Flip(n.encstate))
  }

  lemma GammaFree(nbits: nat, j: nat, n: Node, gamma: int)
    requires NodeOk(nbits, j, n)
    ensures NodeOk(nbits, j, n.(gamma := gamma))
  {
    hide Encode, Low;
  }

  lemma SwitchedOk(nbits: nat, j: nat, n: Node)
    requires NodeOk(nbits, j, n) && !IsTail(nbits, j)
    ensures NodeOk(nbits, j, Switched(n))
  {
    hide Encode, Flip, Low, IsTail;
    ComplementaryBranches(n.encstate);
  }

  /** A node on its 0-branch, once its branches are sorted. */
  lemma SortedOk(nbits: nat, j: nat, n: Node)
    requires !Low(n.encstate)
    ensures var m, zero := n.metrics, Encode(n.encstate);
      var m0, m1 := m.At(zero), m.At(zero.Complement());
      && (IsTail(nbits, j) ==> NodeOk(nbits, j, n.(tm0 := m0, i := 0)))
      && (!IsTail(nbits, j) && m0 > m1 ==> NodeOk(nbits, j, n.(tm0 := m0, tm1 := m1, i := 0)))
      && (!IsTail(nbits, j) && m0 <= m1 ==> NodeOk(nbits, j, n.(tm0 := m1, tm1 := m0, encstate := Flip(n.encstate), i := 0)))
  {
    hide Encode, Flip, Low, IsTail;
    ComplementaryBranches(n.encstate);
  }

  lemma SwitchedFollows(state: bv64, n: Node)
    requires n.encstate == Shift(state, Low(n.encstate))
    ensures Switched(n).encstate == Shift(state, Low(Switched(n).encstate))
  {
    hide Flip, Low, Shift;
    FlipOfShift(state, Low(n.encstate));
    FlipOfShift(state, !Low(n.encstate));
  }

  lemma FollowsIntro(prev: Node, cur: Node)
    requires cur.gamma == prev.gamma + prev.Tested()
    requires cur.encstate == if Low(cur.encstate) then Flip(Up(prev.encstate)) else Up(prev.encstate)
    ensures Follows(prev, cur)
  {
    hide Flip, Up, Low;
  }

  function Branches(b: Block): (branch: seq<Metrics>)
    requires ValidBlock(b)
    ensures |branch| == b.nbits
  {
    seq(b.nbits, j requires 0 <= j < b.nbits => BranchMetrics(b.mettab, b.symbols[2 * j], b.symbols[2 * j + 1]))
  }

  /** The nodes up to position np are a run of the encoder, with running metrics. */
  ghost predicate IsRun(b: Block, nodes: seq<Node>, np: nat)
  {
    && ValidBlock(b) && |nodes| == b.nbits + 1 && np <= b.nbits
    && (forall j :: 0 <= j < b.nbits ==> nodes[j].metrics == Branches(b)[j])
    && (forall j :: 0 <= j <= np && j < b.nbits ==> NodeOk(b.nbits, j, nodes[j]))
    && (forall j :: 1 <= j <= np ==> Follows(nodes[j - 1], nodes[j]))
    && nodes[0].gamma == 0 && nodes[0].encstate == Shift(0, Low(nodes[0].encstate))
  }

  /** The branch tried first out of an encoder state. */
  ghost predicate Preferred(b: Block, np: nat, state: bv64, low: bool)
    requires ValidBlock(b) && np < b.nbits
  {
    if IsTail(b.nbits, np) then !low
    else
      var m, zero := Branches(b)[np], Encode(Up(state));
      low == (m.At(zero) <= m.At(zero.Complement()))
  }

  lemma RunMetrics(b: Block, nodes: seq<Node>, np: nat)
    requires IsRun(b, nodes, np)
    ensures ValidBlock(b) && |nodes| == b.nbits + 1 && forall j :: 0 <= j < b.nbits ==> nodes[j].metrics == Branches(b)[j]
  {
    hide NodeOk, Follows, Branches;
  }

  lemma RunGrows(b: Block, before: seq<Node>, after: seq<Node>, np: nat)
    requires IsRun(b, before, np) && np < b.nbits && |after| == |before| && forall j :: 0 <= j <= np ==> after[j] == before[j]
    requires forall j :: 0 <= j < b.nbits ==> after[j].metrics == before[j].metrics
    requires Follows(after[np], after[np + 1]) && (np + 1 < b.nbits ==> NodeOk(b.nbits, np + 1, after[np + 1]))
    ensures IsRun(b, after, np + 1)
  {
    hide NodeOk, Follows, Branches;
  }

  lemma BranchAt(b: Block, j: nat)
    requires ValidBlock(b) && j < b.nbits
    ensures Branches(b)[j] == BranchMetrics(b.mettab, b.symbols[2 * j], b.symbols[2 * j + 1])
  {
  }

  // ----- the nodes as a walk over the code tree

  ghost function PathOf(nodes: seq<Node>): (bits: seq<bool>)
    ensures |bits| == |nodes|
  {
    seq(|nodes|, j requires 0 <= j < |nodes| => Low(nodes[j].encstate))
  }

  ghost function SecondOf(nodes: seq<Node>): (second: seq<bool>)
    ensures |second| == |nodes|
  {
    seq(|nodes|, j requires 0 <= j < |nodes| => nodes[j].i == 1)
  }

  ghost function WalkOf(b: Block, nodes: seq<Node>, np: nat, t: int): (w: Walk)
    requires ValidBlock(b) && |nodes| == b.nbits + 1 && np <= b.nbits
    ensures Shaped(b, w)
  {
    var n := if np < b.nbits then np + 1 else b.nbits;
    Walk(PathOf(nodes)[..n], SecondOf(nodes)[..n], t, np == b.nbits)
  }

  lemma {:induction false} RunStates(b: Block, nodes: seq<Node>, np: nat, k: nat)
    requires IsRun(b, nodes, np) && k <= np
    ensures nodes[k].encstate == State(PathOf(nodes)[..k + 1])
  {
    hide Encode, NodeOk, Low, Flip, Up, Shift, Branches;
    var bits := PathOf(nodes)[..k + 1];
    if k == 0 {
      assert bits[..0] == [];
    } else {
      RunStates(b, nodes, np, k - 1);
      assert bits[..k] == PathOf(nodes)[..k];
      assert Follows(nodes[k - 1], nodes[k]);
    }
  }

  /** One more bit adds the metric of its branch. */
  lemma GammaStep(b: Block, bits: seq<bool>, k: nat)
    requires ValidBlock(b) && k < b.nbits && k < |bits|
    ensures Gamma(b, bits[..k + 1]) == Gamma(b, bits[..k]) + Branches(b)[k].At(Encode(State(bits[..k + 1])))
  {
    hide Encode, State, BranchMetrics;
    assert bits[..k + 1][..k] == bits[..k];
    CorrelationStep(b.mettab, bits[..k + 1], b.symbols);
  }

  /** The metric that a step along the branch under test leads to. */
  lemma TestedMetric(b: Block, nodes: seq<Node>, np: nat, k: nat)
    requires IsRun(b, nodes, np) && k <= np && k < b.nbits && nodes[k].gamma == Gamma(b, PathOf(nodes)[..k])
    ensures nodes[k].gamma + nodes[k].Tested() == Gamma(b, PathOf(nodes)[..k + 1])
  {
    hide Encode, Low, Flip, Up, Shift, State, IsTail, Gamma, Follows;
    RunStates(b, nodes, np, k);
    GammaStep(b, PathOf(nodes), k);
    assert NodeOk(b.nbits, k, nodes[k]);
  }

  /** Along a run the running metric is that of the message bits chosen. */
  lemma {:induction false} RunMetric(b: Block, nodes: seq<Node>, np: nat, k: nat)
    requires IsRun(b, nodes, np) && k <= np
    ensures nodes[k].gamma == Gamma(b, PathOf(nodes)[..k])
  {
    hide Low, Shift, NodeOk, Branches;
    if k == 0 {
    } else {
      RunMetric(b, nodes, np, k - 1);
      TestedMetric(b, nodes, np, k - 1);
      assert Follows(nodes[k - 1], nodes[k]);
    }
  }

  /** What the nodes prefer is what the walk tries first. */
  lemma PreferredIsFirst(b: Block, prefix: seq<bool>, low: bool)
    requires ValidBlock(b) && |prefix| < b.nbits && Preferred(b, |prefix|, State(prefix), low)
    ensures low == First(b, prefix)
  {
    hide Encode, Low, Flip, Up, Gamma, Branches;
    var n, zero := |prefix|, Up(State(prefix));
    Continued(b, prefix, false);
    Continued(b, prefix, true);
    ComplementaryBranches(zero);
    ShiftFacts(State(prefix));
  }

  lemma Continued(b: Block, prefix: seq<bool>, bit: bool)
    requires ValidBlock(b) && |prefix| < b.nbits
    ensures Gamma(b, prefix + [bit]) == Gamma(b, prefix) + Branches(b)[|prefix|].At(Encode(Shift(State(prefix), bit)))
  {
    hide Encode, Shift, Gamma, Branches;
    var bits, n := prefix + [bit], |prefix|;
    assert bits[..n] == prefix && bits[..n + 1] == bits && bits[..|bits| - 1] == prefix;
    GammaStep(b, bits, n);
  }

  /** The nodes agree up to place n, and so do their walks. */
  lemma SameCut(before: seq<Node>, after: seq<Node>, n: nat)
    requires n <= |before| == |after| && forall j :: 0 <= j < n ==> after[j] == before[j]
    ensures PathOf(after)[..n] == PathOf(before)[..n] && SecondOf(after)[..n] == SecondOf(before)[..n]
  {
    hide Low;
  }

  /** A step forward over the nodes is one of the walk. */
  lemma ForwardWalk(b: Block, before: seq<Node>, after: seq<Node>, np: nat, t: int, t': int)
    requires IsRun(b, before, np) && np < b.nbits && |after| == |before| && forall j :: 0 <= j <= np ==> after[j] == before[j]
    requires var ngamma := before[np].gamma + before[np].Tested();
      ngamma >= t && t' == if before[np].gamma < t + b.delta then Whole(ngamma, b.delta) else t
    requires np + 1 < b.nbits ==>
      after[np + 1].i == 0 && Preferred(b, np + 1, before[np].encstate, Low(after[np + 1].encstate))
    ensures WalkOf(b, after, np + 1, t') == Step(b, WalkOf(b, before, np, t))
  {
    hide Low, Preferred, NodeOk, Follows, State, Shift, Gamma, Branches, Whole, First;
    var w := WalkOf(b, before, np, t);
    RunMetric(b, before, np, np);
    TestedMetric(b, before, np, np);
    SameCut(before, after, np + 1);
    assert w.bits[..np] == PathOf(before)[..np];
    if np + 1 < b.nbits {
      RunStates(b, before, np, np);
      PreferredIsFirst(b, w.bits, Low(after[np + 1].encstate));
      Grown(after, np + 1);
    }
  }

  lemma Grown(nodes: seq<Node>, n: nat)
    requires n < |nodes|
    ensures PathOf(nodes)[..n + 1] == PathOf(nodes)[..n] + [Low(nodes[n].encstate)]
    ensures SecondOf(nodes)[..n + 1] == SecondOf(nodes)[..n] + [nodes[n].i == 1]
  {
    hide Low;
  }

  /** One node further back, the walk is the shorter one. */
  ghost predicate ComesFrom(b: Block, nodes: seq<Node>, np: nat, t: int, start: Walk)
    requires ValidBlock(b) && Shaped(b, start) && |nodes| == b.nbits + 1 && np < b.nbits
  {
    var w := WalkOf(b, nodes, np, t);
    Back(b, w.bits, w.second, t) == Back(b, start.bits, start.second, t)
  }

  lemma Shorter(b: Block, nodes: seq<Node>, np: nat)
    requires ValidBlock(b) && |nodes| == b.nbits + 1 && 0 < np < b.nbits
    ensures var w, cut := WalkOf(b, nodes, np, 0), WalkOf(b, nodes, np - 1, 0);
      w.bits[..np] == cut.bits && w.second[..np] == cut.second
      && w.bits[..np - 1] == cut.bits[..np - 1] && w.second[..np - 1] == cut.second[..np - 1]
  {
    hide Low;
  }

  /** Where the way back ends with a lower threshold. */
  lemma DropWalk(b: Block, before: seq<Node>, after: seq<Node>, np: nat, t: int)
    requires IsRun(b, before, np) && np < b.nbits && (np == 0 || before[np - 1].gamma < t)
    requires |after| == |before| && forall j :: 0 <= j < np ==> after[j] == before[j]
    requires after[np] == if before[np].i != 0 then Switched(before[np]) else before[np]
    ensures var w := WalkOf(b, before, np, t);
      WalkOf(b, after, np, t - b.delta) == Back(b, w.bits, w.second, t)
  {
    hide Low, Flip, NodeOk, Follows, State, Shift, Gamma, Branches, IsRun;
    RunMetrics(b, before, np);
    SameCut(before, after, np);
    Grown(after, np);
    Grown(before, np);
    TwoTries(b, before, np, np);
    FlippedLow(before[np]);
    if np > 0 {
      MetricBefore(b, before, np, t);
    }
  }

  lemma MetricBefore(b: Block, nodes: seq<Node>, np: nat, t: int)
    requires IsRun(b, nodes, np) && 0 < np < b.nbits
    ensures Gamma(b, WalkOf(b, nodes, np, t).bits[..np - 1]) == nodes[np - 1].gamma
  {
    hide Low, NodeOk, Follows, Gamma, Branches;
    RunMetric(b, nodes, np, np - 1);
    assert WalkOf(b, nodes, np, t).bits[..np - 1] == PathOf(nodes)[..np - 1];
  }

  lemma TwoTries(b: Block, nodes: seq<Node>, np: nat, j: nat)
    requires IsRun(b, nodes, np) && j <= np && j < b.nbits
    ensures nodes[j].i <= 1
  {
    hide Follows, Encode;
    assert NodeOk(b.nbits, j, nodes[j]);
  }

  lemma FlippedLow(n: Node)
    ensures Low(Switched(n).encstate) == !Low(n.encstate)
  {
  }

  /** Where it ends at a node with an untried branch. */
  lemma SwitchWalk(b: Block, before: seq<Node>, after: seq<Node>, np: nat, t: int)
    requires IsRun(b, before, np) && 0 < np < b.nbits && before[np - 1].gamma >= t
    requires np - 1 < b.nbits - TAIL && before[np - 1].i != 1
    requires |after| == |before| && forall j :: 0 <= j < np - 1 ==> after[j] == before[j]
    requires after[np - 1] == Switched(before[np - 1])
    ensures var w := WalkOf(b, before, np, t);
      WalkOf(b, after, np - 1, t) == Back(b, w.bits, w.second, t)
  {
    hide Low, Flip, NodeOk, Follows, State, Shift, Gamma, Branches;
    var w := WalkOf(b, before, np, t);
    SameCut(before, after, np - 1);
    Grown(after, np - 1);
    TwoTries(b, before, np, np - 1);
    FlippedLow(before[np - 1]);
    RunMetric(b, before, np, np - 1);
    assert w.bits[..np - 1] == PathOf(before)[..np - 1] && w.second[..np - 1] == SecondOf(before)[..np - 1];
    assert w.bits[np - 1] == Low(before[np - 1].encstate);
  }

  /** Where it goes on. */
  lemma FurtherBack(b: Block, nodes: seq<Node>, np: nat, t: int)
    requires IsRun(b, nodes, np) && 0 < np < b.nbits && nodes[np - 1].gamma >= t
    requires !(np - 1 < b.nbits - TAIL && nodes[np - 1].i != 1)
    ensures var w, cut := WalkOf(b, nodes, np, t), WalkOf(b, nodes, np - 1, t);
      Back(b, w.bits, w.second, t) == Back(b, cut.bits, cut.second, t)
  {
    hide Low, NodeOk, Follows, State, Shift, Gamma, Branches;
    RunMetric(b, nodes, np, np - 1);
    Shorter(b, nodes, np);
    assert WalkOf(b, nodes, np, t).bits[..np - 1] == PathOf(nodes)[..np - 1];
  }

  class Search {
    const nbits: nat
    const delta: int
    const nodes: array<Node>
    ghost const block: Block
    var np: nat
    var t: int

    /** The nodes up to the current one are a run of the encoder over the block. */
    ghost predicate Chain()
      reads this`np, nodes
    {
      && ValidBlock(block) && block.nbits == nbits && block.delta == delta
      && nodes.Length == nbits + 1 && IsRun(block, nodes[..], np)
    }

    /** What holds at the top of every cycle. */
    ghost predicate Valid()
      reads this, nodes
    {
      Chain() && nodes[np].gamma >= t && IsMultiple(t, delta)
    }

    /** Where the search stands in the code tree. */
    ghost function Current(): (w: Walk)
      reads this, nodes
      requires Chain()
    {
      WalkOf(block, nodes[..], np, t)
    }

    /** ENCODE the 0-branch of the current node and test the better branch first. */
    method SortBranches()
      requires nodes.Length == nbits + 1 && np < nbits
      requires !Low(nodes[np].encstate)
      modifies nodes
      ensures forall j :: 0 <= j <= nbits && j != np ==> nodes[j] == old(nodes[j])
      ensures nodes[np].metrics == old(nodes[np].metrics) && nodes[np].gamma == old(nodes[np].gamma)
      ensures NodeOk(nbits, np, nodes[np]) && nodes[np].i == 0
      ensures nodes[np].encstate == if Low(nodes[np].encstate) then Flip(old(nodes[np].encstate)) else old(nodes[np].encstate)
      ensures if IsTail(nbits, np) then !Low(nodes[np].encstate) else
        var m := nodes[np].metrics; var zero := Encode(old(nodes[np].encstate));
        Low(nodes[np].encstate) == (m.At(zero) <= m.At(zero.Complement()))
    {
      hide Encode, Flip, Up, Low, NodeOk, IsTail;
      SortedOk(nbits, np, nodes[np]);
      var zero := Encode(nodes[np].encstate);
      ShiftFacts(nodes[np].encstate);
      var m0 := nodes[np].metrics.At(zero);
      if IsTail(nbits, np) {
        nodes[np] := nodes[np].(tm0 := m0);
      } else {
        var m1 := nodes[np].metrics.At(zero.Complement());
        if m0 > m1 {
          nodes[np] := nodes[np].(tm0 := m0, tm1 := m1);
        } else {
          nodes[np] := nodes[np].(tm0 := m1, tm1 := m0, encstate := Flip(nodes[np].encstate));
        }
      }
      nodes[np] := nodes[np].(i := 0);
    }

    /** Raise the threshold as far as the new metric allows. */
    method Tighten(ngamma: int)
      requires delta > 0 && ngamma >= t && IsMultiple(t, delta)
      modifies this`t
      ensures t == Whole(ngamma, delta) && IsMultiple(t, delta) && old(t) <= t <= ngamma
    {
      while ngamma >= t + delta
        invariant old(t) <= t <= ngamma && IsMultiple(t, delta)
        decreases ngamma - t
      {
        MultipleStep(t, delta);
        t := t + delta;
      }
      WholeOnly(t, ngamma, delta);
    }

    method Switch()
      requires Valid() && np < nbits && !IsTail(nbits, np)
      modifies nodes
      ensures Valid() && nodes[..] == old(nodes[..])[np := Switched(old(nodes[np]))]
    {
      hide Encode, Flip, Up, Low, Branches;
      SwitchedOk(nbits, np, nodes[np]);
      SwitchedFollows(if np == 0 then 0 else nodes[np - 1].encstate, nodes[np]);
      nodes[np] := nodes[np].(i := if nodes[np].i == 0 then 1 else 0, encstate := Flip(nodes[np].encstate));
    }

    /** Back up to the nearest node with an untried branch that is still above the
        threshold; failing that, lower the threshold and retry from where the walk stopped. */
    method LookBackward()
      requires Valid() && np < nbits
      modifies this`np, this`t, nodes
      ensures Valid() && Current() == old(Back(block, Current().bits, Current().second, t))
    {
      hide Encode, Flip, Up, Low, Shift, Follows, Branches, Back, NodeOk, WalkOf;
      ghost var before, start := nodes[..], Current();
      while true
        invariant Valid() && np < nbits && t == old(t) && nodes[..] == before
        invariant ComesFrom(block, before, np, t, start)
        decreases np
      {
        if np == 0 || nodes[np - 1].gamma < t {
          MultipleStep(t, delta);
          t := t - delta;
          if nodes[np].i != 0 {
            InData(block, before, np);
            Switch();
          }
          DropWalk(block, before, nodes[..], np, old(t));
          return;
        }
        np := np - 1;
        if np < nbits - TAIL && nodes[np].i != 1 {
          Switch();
          SwitchWalk(block, before, nodes[..], np + 1, t);
          return;
        }
        FurtherBack(block, before, np + 1, t);
      }
    }

    /** Extend the chain by the node the tested branch leads to. */
    method EnterNext(ngamma: int)
      requires Chain() && np < nbits && ngamma == nodes[np].gamma + nodes[np].Tested()
      modifies this`np, nodes
      ensures Chain() && np == old(np) + 1 && nodes[np].gamma == ngamma
      ensures forall j :: 0 <= j <= old(np) ==> nodes[j] == old(nodes[j])
      ensures np < nbits ==> nodes[np].i == 0
      ensures np < nbits ==> Preferred(block, np, nodes[np - 1].encstate, Low(nodes[np].encstate))
    {
      hide Encode, Flip, Up, Low, Shift, NodeOk, Follows, Branches, IsRun;
      ghost var before := nodes[..];
      RunMetrics(block, before, np);
      nodes[np + 1] := nodes[np + 1].(gamma := ngamma, encstate := Up(nodes[np].encstate));
      ShiftFacts(nodes[np].encstate);
      np := np + 1;
      if np < nbits {
        SortBranches();
      }
      FollowsIntro(nodes[np - 1], nodes[np]);
      RunGrows(block, before, nodes[..], np - 1);
    }

    /** Step forward to a node that meets the threshold, tightening it on a first visit. */
    method MoveForward(ngamma: int)
      requires Valid() && np < nbits
      requires ngamma == nodes[np].gamma + nodes[np].Tested() && ngamma >= t
      modifies this`np, this`t, nodes
      ensures Valid() && Current() == old(Step(block, Current()))
    {
      hide Encode, Flip, Up, Low, Shift, NodeOk, Follows, Branches, Whole, WalkOf, Step, Preferred;
      ghost var before := nodes[..];
      if nodes[np].gamma < t + delta {
        Tighten(ngamma);
      }
      EnterNext(ngamma);
      ForwardWalk(block, before, nodes[..], np - 1, old(t), t);
    }

    /** One pass of the decoding loop; true when the last node has been left. */
    method Cycle() returns (done: bool)
      requires Valid() && np < nbits
      modifies this`np, this`t, nodes
      ensures Valid() && done == (np == nbits) && Current() == old(Step(block, Current()))
    {
      hide Encode, Flip, Up, Low, Shift, NodeOk, Follows, Branches, Back;
      var ngamma := nodes[np].gamma + nodes[np].Tested();
      if ngamma >= t {
        MoveForward(ngamma);
        return np == nbits;
      }
      BackwardStep(block, nodes[..], np, t);
      LookBackward();
      return false;
    }

    /** Compute the branch metrics and open the root. */
    constructor (mettab: MetricTable, symbols: seq<Byte>, nbits: nat, delta: int)
      requires nbits >= TAIL && delta > 0 && |symbols| >= 2 * nbits
      ensures Valid() && fresh(nodes) && np == 0
      ensures block == Block(mettab, symbols, nbits, delta) && Current() == Start(block)
    {
      hide Encode, Flip, Up, Low, NodeOk, Branches, BranchMetrics, Start, First, Gamma, WalkOf;
      this.nbits, this.delta := nbits, delta;
      this.block := Block(mettab, symbols, nbits, delta);
      this.np, this.t := 0, 0;
      this.nodes := new Node[nbits + 1];
      new;
      for j := 0 to nbits
        invariant np == 0 && t == 0 && this.nbits == nbits && this.delta == delta
        invariant block == Block(mettab, symbols, nbits, delta) && nodes.Length == nbits + 1 && fresh(nodes)
        invariant forall k :: 0 <= k < j ==> nodes[k].metrics == Branches(block)[k]
      {
        BranchAt(block, j);
        nodes[j] := nodes[j].(metrics := BranchMetrics(mettab, symbols[2 * j], symbols[2 * j + 1]));
      }
      nodes[0] := nodes[0].(encstate := 0);
      ShiftFacts(0);
      SortBranches();
      GammaFree(nbits, 0, nodes[0], 0);
      nodes[0] := nodes[0].(gamma := 0);
      ZeroIsMultiple(delta);
      StartWalk(block, nodes[..]);
    }
  }

  /** A node under its second try is not in the tail. */
  lemma InData(b: Block, nodes: seq<Node>, np: nat)
    requires IsRun(b, nodes, np) && np < b.nbits && nodes[np].i != 0
    ensures !IsTail(b.nbits, np)
  {
    hide Follows, Encode, Branches;
    assert NodeOk(b.nbits, np, nodes[np]);
  }

  /** Below the threshold the walk steps back. */
  lemma BackwardStep(b: Block, nodes: seq<Node>, np: nat, t: int)
    requires IsRun(b, nodes, np) && np < b.nbits && nodes[np].gamma + nodes[np].Tested() < t
    ensures var w := WalkOf(b, nodes, np, t); Step(b, w) == Back(b, w.bits, w.second, t)
  {
    hide Low, NodeOk, Follows, Gamma, Branches, Back;
    RunMetric(b, nodes, np, np);
    TestedMetric(b, nodes, np, np);
  }

  lemma StartWalk(b: Block, nodes: seq<Node>)
    requires IsRun(b, nodes, 0) && nodes[0].i == 0 && Preferred(b, 0, 0, Low(nodes[0].encstate))
    ensures WalkOf(b, nodes, 0, 0) == Start(b)
  {
    hide Low, NodeOk, Follows, Gamma, Branches, Preferred, First;
    EmptyState();
    PreferredIsFirst(b, [], Low(nodes[0].encstate));
    Grown(nodes, 0);
  }

  // ----- the decoder and its partner, the encoder

  const UINT32: int := 0x1_0000_0000

  /** The decoded bytes as a message of nbits bits; what the bytes leave out is zero. */
  function Message(data: seq<bv8>, nbits: nat): (bits: seq<bool>)
    requires |data| == nbits / 8
    ensures |bits| == nbits
  {
    BitsOf(data) + Zeros(nbits % 8)
  }

  ghost predicate ZeroTail(bits: seq<bool>) {
    forall j :: 0 <= j < |bits| && IsTail(|bits|, j) ==> !bits[j]
  }

  predicate Favoured(mettab: MetricTable, sent: bool, received: Byte) {
    var metric := mettab[if sent then 1 else 0][received];
    metric >= 0 && metric > mettab[if sent then 0 else 1][received]
  }

  /** Every received symbol favours the channel bit that was sent, with a metric of at least zero. */
  ghost predicate Favours(mettab: MetricTable, channel: seq<bool>, received: seq<Byte>)
    requires |channel| <= |received|
  {
    forall k :: 0 <= k < |channel| ==> Favoured(mettab, channel[k], received[k])
  }

  lemma FavouredPair(mettab: MetricTable, pair: Pair, a: Byte, b: Byte)
    requires Favoured(mettab, pair.first, a) && Favoured(mettab, pair.second, b)
    ensures var m := BranchMetrics(mettab, a, b);
      m.At(pair) >= 0 && m.At(pair) > m.At(pair.Complement())
  {
  }

  lemma FavouredBranch(mettab: MetricTable, sent: seq<bool>, received: seq<Byte>, j: nat)
    requires j < |sent| && 2 * |sent| <= |received| && Favours(mettab, ChannelBits(sent), received)
    ensures var m := BranchMetrics(mettab, received[2 * j], received[2 * j + 1]);
      var pair := Encode(State(sent[..j + 1]));
      m.At(pair) >= 0 && m.At(pair) > m.At(pair.Complement())
  {
    hide Encode, State, Favoured, BranchMetrics, ChannelBits;
    ChannelPair(sent, j);
    FavouredPair(mettab, Encode(State(sent[..j + 1])), received[2 * j], received[2 * j + 1]);
  }

  lemma EmptyState()
    ensures State([]) == 0
  {
  }

  /** The encoder's next step and the pair of channel bits it gives. */
  lemma NextPair(bits: seq<bool>, j: nat)
    requires j < |bits|
    ensures State(bits[..j + 1]) == Shift(State(bits[..j]), bits[j])
    ensures ChannelBits(bits)[2 * j] == Encode(State(bits[..j + 1])).first
    ensures ChannelBits(bits)[2 * j + 1] == Encode(State(bits[..j + 1])).second
  {
    hide Encode, Shift;
    assert bits[..j + 1][..j] == bits[..j];
    ChannelPair(bits, j);
  }

  /** Convolutional encoding of whole bytes, one channel bit per output symbol. */
  method EncodeBytes(symbols: array<Byte>, data: seq<bv8>)
    requires symbols.Length >= 16 * |data|
    modifies symbols
    ensures forall k :: 0 <= k < 16 * |data| ==>
      symbols[k] == if ChannelBits(BitsOf(data))[k] then 1 else 0
    ensures forall k :: 16 * |data| <= k < symbols.Length ==> symbols[k] == old(symbols[k])
  {
    hide Encode, Shift, BitAt, ChannelBits, BitsOf, State;
    EmptyState();
    var encstate: bv64 := 0;
    ghost var bits := BitsOf(data);
    ghost var channel := ChannelBits(bits);
    assert bits[..0] == [];
    for n := 0 to |data|
      invariant encstate == State(bits[..8 * n])
      invariant forall k :: 0 <= k < 16 * n ==> symbols[k] == if channel[k] then 1 else 0
      invariant forall k :: 16 * |data| <= k < symbols.Length ==> symbols[k] == old(symbols[k])
    {
      for i := 0 to 8
        invariant encstate == State(bits[..8 * n + i])
        invariant forall k :: 0 <= k < 16 * n + 2 * i ==> symbols[k] == if channel[k] then 1 else 0
        invariant forall k :: 16 * |data| <= k < symbols.Length ==> symbols[k] == old(symbols[k])
      {
        ghost var j := 8 * n + i;
        BitOfByte(data, n, i);
        NextPair(bits, j);
        encstate := Shift(encstate, BitAt(data[n], i));
        var sym := Encode(encstate);
        symbols[16 * n + 2 * i] := if sym.first then 1 else 0;
        symbols[16 * n + 2 * i + 1] := if sym.second then 1 else 0;
      }
    }
  }

  /** The message is a tail-terminated input of the encoder, and the metric is the correlation
      of its re-encoded channel bits with what was received (as an unsigned 32-bit word). */
  ghost predicate IsDecoding(mettab: MetricTable, symbols: seq<Byte>, bits: seq<bool>, metric: int)
    requires 2 * |bits| <= |symbols|
  {
    ZeroTail(bits) && metric == Correlation(mettab, ChannelBits(bits), symbols) % UINT32
  }

  /** `sent` is a possible message and the block received favours it. */
  ghost predicate Clean(mettab: MetricTable, symbols: seq<Byte>, nbits: nat, sent: seq<bool>)
    requires |symbols| >= 2 * nbits
  {
    |sent| == nbits && ZeroTail(sent) && Favours(mettab, ChannelBits(sent), symbols)
  }

  /** On the path of a message the block favours no step loses metric, and it is the branch tried first. */
  lemma CleanStep(b: Block, sent: seq<bool>, k: nat)
    requires ValidBlock(b) && Clean(b.mettab, b.symbols, b.nbits, sent) && k < b.nbits
    ensures Gamma(b, sent[..k + 1]) >= Gamma(b, sent[..k]) && First(b, sent[..k]) == sent[k]
  {
    hide Encode, Low, Flip, Up, Gamma, BranchMetrics, Favours, ChannelBits, State, Shift;
    var prefix := sent[..k];
    FavouredBranch(b.mettab, sent, b.symbols, k);
    Continued(b, prefix, sent[k]);
    Continued(b, prefix, !sent[k]);
    assert sent[..k + 1] == prefix + [sent[k]];
    NextPair(sent, k);
    OtherBranch(State(prefix), sent[k]);
  }

  lemma OtherBranch(state: bv64, bit: bool)
    ensures Encode(Shift(state, !bit)) == Encode(Shift(state, bit)).Complement()
  {
    hide Encode, Flip, Up, Low;
    ComplementaryBranches(Up(state));
    ShiftFacts(state);
  }

  /** After n cycles the walk has come n steps along the message. */
  ghost predicate Along(b: Block, sent: seq<bool>, n: nat, w: Walk)
    requires ValidBlock(b) && n <= b.nbits == |sent|
  {
    && w.bits == sent[..if n < b.nbits then n + 1 else n] && w.t <= Gamma(b, sent[..n])
    && IsMultiple(w.t, b.delta) && w.done == (n == b.nbits)
  }

  lemma CleanCycle(b: Block, sent: seq<bool>, n: nat, w: Walk)
    requires ValidBlock(b) && n < b.nbits == |sent| && Shaped(b, w) && Along(b, sent, n, w)
    requires Gamma(b, sent[..n + 1]) >= Gamma(b, sent[..n])
    requires n + 1 < b.nbits ==> First(b, sent[..n + 1]) == sent[n + 1]
    ensures Along(b, sent, n + 1, Step(b, w))
  {
    hide Gamma, First, Whole, IsMultiple;
    assert w.bits[..n] == sent[..n];
    WholeOnly(w.t, Gamma(b, w.bits), b.delta);
    WholeIs(Gamma(b, w.bits), b.delta);
  }

  /** A search over a clean block goes straight to the message. */
  lemma {:induction false} CleanWalk(b: Block, sent: seq<bool>, n: nat)
    requires ValidBlock(b) && Clean(b.mettab, b.symbols, b.nbits, sent) && n <= b.nbits
    ensures Along(b, sent, n, After(b, n))
  {
    hide Gamma, First, Favours, ChannelBits, IsMultiple, ZeroTail, Step;
    if n == 0 {
      CleanStep(b, sent, 0);
      RootMetric(b);
      ZeroIsMultiple(b.delta);
      assert sent[..0] == [];
    } else {
      hide Along;
      CleanWalk(b, sent, n - 1);
      CleanStep(b, sent, n - 1);
      if n < b.nbits {
        CleanStep(b, sent, n);
      }
      CleanCycle(b, sent, n - 1, After(b, n - 1));
    }
  }

  // ----- the decoding loop

  /** The search is done after so many cycles and not before; the counter is one past the limit
      where it is not done within it. */
  ghost predicate Spent(b: Block, limit: nat, finished: bool, spent: nat)
    requires ValidBlock(b)
  {
    && finished == After(b, limit).done
    && (if finished then 1 <= spent <= limit && After(b, spent).done && !After(b, spent - 1).done else spent == limit + 1)
  }

  /** The main loop: i is the cycle that reached the end, or limit + 1 when none did. */
  method RunCycles(search: Search, limit: nat) returns (i: nat, maxnp: nat)
    requires search.Valid() && search.np == 0 && search.Current() == Start(search.block)
    modifies search`np, search`t, search.nodes
    ensures search.Valid() && Spent(search.block, limit, i <= limit, i) && (i <= limit <==> search.np == search.nbits)
    ensures search.Current() == After(search.block, if i <= limit then i else limit)
    ensures maxnp == Deepest(search.block, if i <= limit then i else limit)
  {
    hide NodeOk, Follows, Step, Start, Branches, Encode, Low;
    ghost var b := search.block;
    i := 1;
    maxnp := 0;
    while i <= limit
      invariant search.Valid() && search.np < search.nbits
      invariant 1 <= i <= limit + 1 && search.Current() == After(b, i - 1)
      invariant maxnp == Deepest(b, i - 1)
    {
      AtPlace(b, search.nodes[..], search.np, search.t);
      if search.np > maxnp {
        maxnp := search.np;
      }
      var done := search.Cycle();
      AtPlace(b, search.nodes[..], search.np, search.t);
      if done {
        DoneStays(b, i, limit);
        return;
      }
      i := i + 1;
    }
    AtPlace(b, search.nodes[..], search.np, search.t);
  }

  lemma AtPlace(b: Block, nodes: seq<Node>, np: nat, t: int)
    requires ValidBlock(b) && |nodes| == b.nbits + 1 && np <= b.nbits
    ensures var w := WalkOf(b, nodes, np, t); w.done == (np == b.nbits) && (np < b.nbits ==> |w.bits| == np + 1)
  {
  }

  /** Copy out byte k from the state of node 8k + 7. */
  method CopyBytes(nodes: seq<Node>, data: array<bv8>, nbytes: nat)
    requires data.Length >= nbytes && |nodes| >= 8 * nbytes
    modifies data
    ensures forall k :: 0 <= k < nbytes ==> data[k] == LowByte(nodes[8 * k + 7].encstate)
  {
    for k := 0 to nbytes
      invariant forall j :: 0 <= j < k ==> data[j] == LowByte(nodes[8 * j + 7].encstate)
    {
      data[k] := LowByte(nodes[8 * k + 7].encstate);
    }
  }

  /** A copied byte holds eight bits of the path. */
  lemma CopiedBit(b: Block, nodes: seq<Node>, data: seq<bv8>, j: nat)
    requires IsRun(b, nodes, b.nbits) && |data| == b.nbits / 8 && j < 8 * |data|
    requires forall k :: 0 <= k < |data| ==> data[k] == LowByte(nodes[8 * k + 7].encstate)
    ensures BitsOf(data)[j] == PathOf(nodes)[j]
  {
    hide Encode, Low, Flip, Up, Shift, Follows, BitAt, LowByte, State, NodeOk, BitsOf;
    var k := j / 8;
    RunStates(b, nodes, b.nbits, 8 * k + 7);
    LowByteOfState(PathOf(nodes)[..8 * k + 8], j % 8);
    BitOfByte(data, k, j % 8);
  }

  /** The bytes copied out of a complete run, padded with zeros, are its path. */
  lemma CopiedPath(b: Block, nodes: seq<Node>, data: seq<bv8>)
    requires IsRun(b, nodes, b.nbits) && |data| == b.nbits / 8
    requires forall k :: 0 <= k < |data| ==> data[k] == LowByte(nodes[8 * k + 7].encstate)
    ensures Message(data, b.nbits) == PathOf(nodes)[..b.nbits] && ZeroTail(Message(data, b.nbits))
  {
    hide Encode, Low, Flip, Up, Shift, Follows, BitAt, LowByte, State, Branches, NodeOk, IsRun;
    RunMetrics(b, nodes, b.nbits);
    var path := PathOf(nodes)[..b.nbits];
    forall j | 0 <= j < b.nbits
      ensures Message(data, b.nbits)[j] == path[j] && (IsTail(b.nbits, j) ==> !path[j])
    {
      TailNode(b, nodes, j);
      if j < 8 * |data| {
        CopiedBit(b, nodes, data, j);
      }
    }
  }

  lemma TailNode(b: Block, nodes: seq<Node>, j: nat)
    requires IsRun(b, nodes, b.nbits) && j < b.nbits
    ensures IsTail(b.nbits, j) ==> !Low(nodes[j].encstate)
  {
    hide Encode, Low, Follows, Branches;
    assert NodeOk(b.nbits, j, nodes[j]);
  }

  /** `maxcycles * nbits` as an unsigned 32-bit word. */
  function CycleLimit(maxcycles: nat, nbits: nat): nat {
    maxcycles * nbits % UINT32
  }

  /** A block that arrives as strong as can be favours its message; with one cycle a bit the
      search for it ends in the last cycle, which is not before the limit. */
  lemma SaturatedBlock(mettab: MetricTable, nbits: nat, sent: seq<bool>)
    requires |sent| == nbits && 0 < nbits < UINT32 && ZeroTail(sent)
    requires Favoured(mettab, false, 0) && Favoured(mettab, true, 255)
    ensures Clean(mettab, Saturated(sent), nbits, sent) && CycleLimit(1, nbits) == nbits
  {
    hide Favoured, ChannelBits;
  }

  /** Decode a block. `finished` says whether the search passed the last node, `spent` how far its
      cycle counter came. A search that finishes in its last cycle is reported as timed out. */
  method Decode(symbols: seq<Byte>, nbits: nat, mettab: MetricTable, delta: int, maxcycles: nat, data: array<bv8>)
    returns (ok: bool, metric: int, cycles: nat, maxnp: nat, ghost finished: bool, ghost spent: nat)
    requires nbits >= TAIL && delta > 0 && |symbols| >= 2 * nbits && data.Length >= nbits / 8
    modifies data
    ensures var b, limit := Block(mettab, symbols, nbits, delta), CycleLimit(maxcycles, nbits);
      var walk := After(b, if finished then spent else limit);
      && Spent(b, limit, finished, spent) && maxnp == Deepest(b, if finished then spent else limit)
      && metric == Gamma(b, walk.bits[..|walk.bits| - if finished then 0 else 1]) % UINT32
      && (finished ==> Message(data[..nbits / 8], nbits) == walk.bits)
    ensures cycles == (spent + 1) % UINT32 && (ok <==> finished && spent < CycleLimit(maxcycles, nbits))
    ensures finished ==> IsDecoding(mettab, symbols, Message(data[..nbits / 8], nbits), metric)
    ensures finished ==> IsNearlyBest(Block(mettab, symbols, nbits, delta), Message(data[..nbits / 8], nbits))
  {
    hide Encode, Low, Flip, Up, Shift, NodeOk, Follows, BranchMetrics, LowByte, Message, IsDecoding, CycleLimit, After, Start, Gamma, IsNearlyBest;
    var search := new Search(mettab, symbols, nbits, delta);
    var limit := CycleLimit(maxcycles, nbits);
    var i;
    i, maxnp := RunCycles(search, limit);
    metric := search.nodes[search.np].gamma % UINT32;
    CopyBytes(search.nodes[..], data, nbits / 8);
    cycles := (i + 1) % UINT32;
    ok := i < limit;
    finished, spent := i <= limit, i;
    MetricHere(search.block, search.nodes[..], search.np, search.t);
    if finished {
      Finished(search.block, search.nodes[..], search.t, data[..nbits / 8]);
      NearlyBest(search.block, spent);
    }
  }

  /** The running metric kept is that of the bits before the node. */
  lemma MetricHere(b: Block, nodes: seq<Node>, np: nat, t: int)
    requires IsRun(b, nodes, np)
    ensures var w := WalkOf(b, nodes, np, t); nodes[np].gamma == Gamma(b, w.bits[..|w.bits| - if np == b.nbits then 0 else 1])
  {
    hide Low, NodeOk, Follows, Branches, Gamma;
    RunMetric(b, nodes, np, np);
    var w := WalkOf(b, nodes, np, t);
    assert w.bits[..|w.bits| - if np == b.nbits then 0 else 1] == PathOf(nodes)[..np];
  }

  lemma Finished(b: Block, nodes: seq<Node>, t: int, data: seq<bv8>)
    requires IsRun(b, nodes, b.nbits) && |data| == b.nbits / 8
    requires forall k :: 0 <= k < |data| ==> data[k] == LowByte(nodes[8 * k + 7].encstate)
    ensures Message(data, b.nbits) == WalkOf(b, nodes, b.nbits, t).bits
    ensures IsDecoding(b.mettab, b.symbols, Message(data, b.nbits), nodes[b.nbits].gamma % UINT32)
  {
    hide Low, LowByte, NodeOk, Follows, ChannelBits, Correlation, Branches;
    CopiedPath(b, nodes, data);
    RunMetric(b, nodes, b.nbits, b.nbits);
  }

  /** A clean block is decoded to the message sent, in as many cycles as it has bits. */
  lemma CleanDecode(b: Block, sent: seq<bool>, limit: nat, finished: bool, spent: nat)
    requires ValidBlock(b) && Clean(b.mettab, b.symbols, b.nbits, sent) && b.nbits <= limit && Spent(b, limit, finished, spent)
    ensures finished && spent == b.nbits && After(b, spent).bits == sent
  {
    hide After, Gamma, Favours, ChannelBits, ZeroTail;
    CleanWalk(b, sent, b.nbits);
    DoneStays(b, b.nbits, limit);
    if spent < b.nbits {
      CleanWalk(b, sent, spent);
    }
    if spent > b.nbits {
      DoneStays(b, b.nbits, spent - 1);
    }
    assert sent[..b.nbits] == sent;
  }
}
