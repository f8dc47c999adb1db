/** Ordered-statistics decoding: Gauss-Jordan elimination in place on the generator rows of the
    strongest codeword bits, then re-deriving the message those bits determine. */
module Osd {
  import opened Gf2
  import opened Elimination
  import opened Ldpc
  import Crc14

  ghost function LeftRows(m: array2<bool>, k: nat): (rows: seq<Vec>)
    requires k <= m.Length1
    reads m
    ensures |rows| == m.Length0 && IsMatrix(rows, k)
    ensures forall i, c :: 0 <= i < |rows| && 0 <= c < k ==> rows[i][c] == m[i, c]
  {
    seq(m.Length0, i requires 0 <= i < m.Length0 reads m =>
      seq(k, c requires 0 <= c < k reads m => m[i, c]))
  }

  ghost function RightRows(m: array2<bool>, k: nat): (rows: seq<Vec>)
    requires m.Length1 == 2 * k
    reads m
    ensures |rows| == m.Length0 && IsMatrix(rows, k)
    ensures forall i, c :: 0 <= i < |rows| && 0 <= c < k ==> rows[i][c] == m[i, k + c]
  {
    seq(m.Length0, i requires 0 <= i < m.Length0 reads m =>
      seq(k, c requires 0 <= c < k reads m => m[i, k + c]))
  }

  /** The matrix is [l | e], entry by entry. */
  ghost predicate Holds(m: array2<bool>, l: seq<Vec>, e: seq<Vec>, k: nat)
    reads m
  {
    && m.Length1 == 2 * k && |l| == |e| == m.Length0 && IsMatrix(l, k) && IsMatrix(e, k)
    && forall a, c :: 0 <= a < m.Length0 && 0 <= c < k ==> m[a, c] == l[a][c] && m[a, k + c] == e[a][c]
  }

  lemma HoldsRows(m: array2<bool>, l: seq<Vec>, e: seq<Vec>, k: nat)
    requires Holds(m, l, e, k)
    ensures LeftRows(m, k) == l && RightRows(m, k) == e
  {
    forall a | 0 <= a < m.Length0
      ensures LeftRows(m, k)[a] == l[a] && RightRows(m, k)[a] == e[a]
    {
    }
  }

  /** Exchange two rows element by element. */
  method SwapRows(m: array2<bool>, i: nat, j: nat, ghost k: nat)
    requires i < m.Length0 && j < m.Length0 && m.Length1 == 2 * k
    modifies m
    ensures LeftRows(m, k) == Swap(old(LeftRows(m, k)), i, j)
    ensures RightRows(m, k) == Swap(old(RightRows(m, k)), i, j)
  {
    ghost var l, e := LeftRows(m, k), RightRows(m, k);
    ghost var l', e' := Swap(l, i, j), Swap(e, i, j);
    for col := 0 to m.Length1
      invariant forall a, c :: 0 <= a < m.Length0 && 0 <= c < k ==> m[a, c] == if c < col then l'[a][c] else l[a][c]
      invariant forall a, c :: 0 <= a < m.Length0 && 0 <= c < k ==> m[a, k + c] == if k + c < col then e'[a][c] else e[a][c]
    {
      var temp := m[i, col];
      m[i, col] := m[j, col];
      m[j, col] := temp;
    }
    HoldsRows(m, l', e', k);
  }

  /** Add row src onto row dst. */
  method XorRow(m: array2<bool>, dst: nat, src: nat, ghost k: nat)
    requires dst < m.Length0 && src < m.Length0 && dst != src && m.Length1 == 2 * k
    modifies m
    ensures var l, e := old(LeftRows(m, k)), old(RightRows(m, k));
      LeftRows(m, k) == l[dst := Add(l[dst], l[src])] && RightRows(m, k) == e[dst := Add(e[dst], e[src])]
  {
    ghost var l, e := LeftRows(m, k), RightRows(m, k);
    ghost var l', e' := l[dst := Add(l[dst], l[src])], e[dst := Add(e[dst], e[src])];
    for col := 0 to m.Length1
      invariant forall a, c :: 0 <= a < m.Length0 && 0 <= c < k ==> m[a, c] == if c < col then l'[a][c] else l[a][c]
      invariant forall a, c :: 0 <= a < m.Length0 && 0 <= c < k ==> m[a, k + c] == if k + c < col then e'[a][c] else e[a][c]
    {
      m[dst, col] := m[dst, col] != m[src, col];
    }
    HoldsRows(m, l', e', k);
  }

  /** Flip the right half's element of the pivot. */
  method Mark(m: array2<bool>, row: nat, k: nat)
    requires row < k <= m.Length0 && m.Length1 == 2 * k
    modifies m
    ensures LeftRows(m, k) == old(LeftRows(m, k))
    ensures RightRows(m, k) == old(RightRows(m, k))[row := Add(old(RightRows(m, k))[row], Unit(k, row))]
  {
    ghost var l, e := LeftRows(m, k), RightRows(m, k);
    m[row, k + row] := !m[row, k + row];
    HoldsRows(m, l, e[row := Add(e[row], Unit(k, row))], k);
  }

  /** Record pivot `row` in the right half and clear its column in every other row. */
  method Eliminate(m: array2<bool>, row: nat, k: nat)
    requires row < k <= m.Length0 && m.Length1 == 2 * k && m[row, row]
    modifies m
    ensures Pivoted(old(LeftRows(m, k)), old(RightRows(m, k)), LeftRows(m, k), RightRows(m, k), k, row)
  {
    ghost var l, e := LeftRows(m, k), RightRows(m, k);
    ghost var mark := Add(e[row], Unit(k, row));
    Mark(m, row, k);
    ghost var cl, ce := l, e[row := mark];
    hide LeftRows, RightRows, Add, Unit;
    for row1 := 0 to m.Length0
      invariant LeftRows(m, k) == cl && RightRows(m, k) == ce && |cl| == |ce| == m.Length0
      invariant forall i :: 0 <= i < m.Length0 ==>
        if i < row1 && i != row && l[i][row]
        then cl[i] == Add(l[i], l[row]) && ce[i] == Add(e[i], mark)
        else cl[i] == l[i] && ce[i] == if i == row then mark else e[i]
    {
      ClearRow(m, row1, row, k);
      if row1 != row && cl[row1][row] {
        cl, ce := cl[row1 := Add(cl[row1], cl[row])], ce[row1 := Add(ce[row1], ce[row])];
      }
    }
  }

  /** Clear column `row` of one row with the pivot row. */
  method ClearRow(m: array2<bool>, row1: nat, row: nat, k: nat)
    requires row < k <= m.Length0 && row1 < m.Length0 && m.Length1 == 2 * k
    modifies m
    ensures var l, e := old(LeftRows(m, k)), old(RightRows(m, k));
      if row1 != row && l[row1][row]
      then LeftRows(m, k) == l[row1 := Add(l[row1], l[row])] && RightRows(m, k) == e[row1 := Add(e[row1], e[row])]
      else LeftRows(m, k) == l && RightRows(m, k) == e
  {
    if row1 == row {
      return;
    }
    assert m[row1, row] == LeftRows(m, k)[row1][row];
    if !m[row1, row] {
      return;
    }
    XorRow(m, row1, row, k);
  }

  // ----- the generator rows and their order

  /** Every codeword position occurs: n entries that cover n positions. */
  ghost predicate IsOrdering(which: seq<nat>, n: nat) {
    |which| == n && (forall i :: 0 <= i < n ==> which[i] < n) && (forall j :: 0 <= j < n ==> j in which)
  }

  ghost function Ordered(parity: seq<Vec>, k: nat, which: seq<nat>): (g: seq<Vec>)
    requires IsMatrix(parity, k) && IsOrdering(which, k + |parity|)
    ensures |g| == |which| && IsMatrix(g, k)
    ensures forall i :: 0 <= i < |g| ==> g[i] == GeneratorRow(parity, k, which[i])
  {
    seq(|which|, i requires 0 <= i < |which| => GeneratorRow(parity, k, which[i]))
  }

  lemma OrderedSystematic(parity: seq<Vec>, k: nat, which: seq<nat>)
    requires IsMatrix(parity, k) && IsOrdering(which, k + |parity|)
    ensures Systematic(Ordered(parity, k, which), k)
  {
    var g := Ordered(parity, k, which);
    forall j | 0 <= j < k
      ensures Unit(k, j) in g
    {
      assert j in which;
      var i :| 0 <= i < |which| && which[i] == j;
      assert g[i] == Unit(k, j);
    }
  }

  lemma SwapOrdering(parity: seq<Vec>, k: nat, which: seq<nat>, i: nat, j: nat)
    requires IsMatrix(parity, k) && IsOrdering(which, k + |parity|) && i < |which| && j < |which|
    ensures IsOrdering(Swap(which, i, j), k + |parity|)
    ensures Ordered(parity, k, Swap(which, i, j)) == Swap(Ordered(parity, k, which), i, j)
  {
    var w := Swap(which, i, j);
    forall v | 0 <= v < |which|
      ensures v in w
    {
      assert v in which;
      var a :| 0 <= a < |which| && which[a] == v;
      assert w[if a == i then j else if a == j then i else a] == v;
    }
  }

  /** The order after the first r pivots: pivot r is the first row from place r on that, with
      those selected before it, determines one more unknown; it changes places with row r. */
  ghost function Selection(parity: seq<Vec>, k: nat, order: seq<nat>, r: nat): (which: seq<nat>)
    requires IsMatrix(parity, k) && IsOrdering(order, k + |parity|) && r <= k
    ensures IsOrdering(which, k + |parity|)
  {
    if r == 0 then order
    else
      var before := Selection(parity, k, order, r - 1);
      var p := PivotFrom(Ordered(parity, k, before), k, r - 1, r - 1);
      SwapOrdering(parity, k, before, r - 1, p);
      Swap(before, r - 1, p)
  }

  /** The positions at the first k places of an order. */
  ghost function Positions(which: seq<nat>, k: nat): set<nat>
    requires k <= |which|
  {
    set i | 0 <= i < k :: which[i]
  }

  /** The generator rows of the first k positions are independent. */
  ghost predicate FirstIndependent(parity: seq<Vec>, k: nat, order: seq<nat>)
    requires IsMatrix(parity, k) && IsOrdering(order, k + |parity|)
  {
    Independent(Ordered(parity, k, order), k)
  }

  lemma SamePositions(parity: seq<Vec>, k: nat, order: seq<nat>, which: seq<nat>)
    requires IsMatrix(parity, k) && IsOrdering(order, k + |parity|) && IsOrdering(which, k + |parity|)
    requires FirstIndependent(parity, k, which) && Positions(which, k) == Positions(order, k)
    ensures FirstIndependent(parity, k, order)
  {
    hide Independent;
    var g, h := Ordered(parity, k, which), Ordered(parity, k, order);
    forall i | 0 <= i < k
      ensures g[i] in h[..k]
    {
      assert which[i] in Positions(order, k);
      var j :| 0 <= j < k && order[j] == which[i];
      assert h[..k][j] == g[i];
    }
    IndependentAmong(g, h, k);
  }

  lemma SwapPositions(which: seq<nat>, k: nat, i: nat, j: nat)
    requires i < k && j < k <= |which|
    ensures Positions(Swap(which, i, j), k) == Positions(which, k)
  {
    var w := Swap(which, i, j);
    forall n | 0 <= n < k
      ensures which[n] in Positions(w, k)
    {
      assert w[if n == i then j else if n == j then i else n] == which[n];
    }
  }

  /** The elimination state behind the selection, and what becomes of independent first rows. */
  /** The exchange of one step stays within the first k positions when their rows are independent. */
  lemma PositionsStep(parity: seq<Vec>, k: nat, order: seq<nat>, before: seq<nat>, l: seq<Vec>, e: seq<Vec>, r: nat)
    requires IsMatrix(parity, k) && IsOrdering(order, k + |parity|) && IsOrdering(before, k + |parity|) && r < k
    requires Reduced(Ordered(parity, k, before), l, e, k, r)
    requires FirstIndependent(parity, k, order) && Positions(before, k) == Positions(order, k)
    ensures Positions(Swap(before, r, PivotFrom(Ordered(parity, k, before), k, r, r)), k) == Positions(order, k)
  {
    hide Reduced, Independent, Extends, PivotFrom, Positions, Ordered;
    SamePositions(parity, k, before, order);
    PivotWithin(Ordered(parity, k, before), l, e, k, r);
    SwapPositions(before, k, r, PivotFrom(Ordered(parity, k, before), k, r, r));
  }

  lemma {:induction false} SelectionReduced(parity: seq<Vec>, k: nat, order: seq<nat>, r: nat) returns (l: seq<Vec>, e: seq<Vec>)
    requires IsMatrix(parity, k) && IsOrdering(order, k + |parity|) && r <= k
    ensures Reduced(Ordered(parity, k, Selection(parity, k, order, r)), l, e, k, r)
    ensures FirstIndependent(parity, k, order) ==>
      Positions(Selection(parity, k, order, r), k) == Positions(order, k)
  {
    hide Reduced, Independent, Extends, PivotFrom, Positions, Ordered, FirstIndependent, Swap;
    if r == 0 {
      l, e := Ordered(parity, k, order), seq(k + |parity|, _ => Zero(k));
      OrderedSystematic(parity, k, order);
      StartsReduced(l, e, k);
    } else {
      var l0, e0 := SelectionReduced(parity, k, order, r - 1);
      var before := Selection(parity, k, order, r - 1);
      l, e := SelectionStepReduced(parity, k, before, l0, e0, r - 1);
      if FirstIndependent(parity, k, order) {
        PositionsStep(parity, k, order, before, l0, e0, r - 1);
      }
    }
  }

  lemma SelectionStepReduced(parity: seq<Vec>, k: nat, before: seq<nat>, l: seq<Vec>, e: seq<Vec>, r: nat)
    returns (l': seq<Vec>, e': seq<Vec>)
    requires IsMatrix(parity, k) && IsOrdering(before, k + |parity|) && r < k
    requires Reduced(Ordered(parity, k, before), l, e, k, r)
    ensures var which := Swap(before, r, PivotFrom(Ordered(parity, k, before), k, r, r));
      IsOrdering(which, k + |parity|) && Reduced(Ordered(parity, k, which), l', e', k, r + 1)
  {
    var g := Ordered(parity, k, before);
    var p := PivotFrom(g, k, r, r);
    PivotFound(g, l, e, k, r);
    SwapKeepsReduced(g, l, e, k, r, r, p);
    SwapOrdering(parity, k, before, r, p);
    var ls, es := Swap(l, r, p), Swap(e, r, p);
    ClearedIsPivoted(ls, es, k, r);
    l', e' := Cleared(ls, k, r), Marked(ls, es, k, r);
    PivotKeepsReduced(Swap(g, r, p), ls, es, l', e', k, r);
  }

  /** The elimination ends with the first k positions of the order exactly when their rows are
      independent. */
  lemma FirstUsedIff(parity: seq<Vec>, k: nat, order: seq<nat>)
    requires IsMatrix(parity, k) && IsOrdering(order, k + |parity|)
    ensures Positions(Selection(parity, k, order, k), k) == Positions(order, k) <==> FirstIndependent(parity, k, order)
  {
    hide Reduced, Independent, Extends, PivotFrom, Positions, Inverts;
    var l, e := SelectionReduced(parity, k, order, k);
    var which := Selection(parity, k, order, k);
    SelectedIndependent(Ordered(parity, k, which), l, e, k);
    if Positions(which, k) == Positions(order, k) {
      SamePositions(parity, k, order, which);
    }
  }

  lemma DotTwo(a: Vec, v: Vec)
    requires |a| == |v| == 2
    ensures Dot(a, v) == ((a[0] && v[0]) != (a[1] && v[1]))
  {
    DotPair(a, v, 0, 1);
  }

  /** Of the rows 01 and 10 the second determines the first unknown alone. */
  lemma FirstPivotIs(g: seq<Vec>, j: nat)
    requires IsMatrix(g, 2) && j < |g|
    ensures g[j] == [false, true] ==> !Extends(g, 2, 0, j)
    ensures g[j] == [true, false] ==> Extends(g, 2, 0, j)
  {
    hide Dot;
    if g[j] == [false, true] {
      var v := [true, false];
      DotTwo(g[j], v);
      assert Kills(g[..0], 2, v) && v[0] && !Zero(2)[0];
    }
    if g[j] == [true, false] {
      forall v: Vec | |v| == 2 && (forall c :: 0 < c < 2 ==> !v[c]) && Kills(g[..0], 2, v) && !Dot(g[j], v)
        ensures v == Zero(2)
      {
        DotTwo(g[j], v);
        assert !v[1];
      }
    }
  }

  lemma SecondPivotIs(g: seq<Vec>, j: nat)
    requires IsMatrix(g, 2) && 1 <= j < |g| && g[0] == [true, false] && g[j] == [false, true]
    ensures Extends(g, 2, 1, j)
  {
    hide Dot;
    forall v: Vec | |v| == 2 && Kills(g[..1], 2, v) && !Dot(g[j], v)
      ensures v == Zero(2)
    {
      assert g[..1][0] == g[0];
      DotTwo(g[0], v);
      DotTwo(g[j], v);
    }
  }

  /** An order whose first position is not used: its row is independent, but leaves the first
      unknown open, and the place it is moved to comes after a row just like it. */
  lemma StrongestLost()
    ensures var parity, order := [[false, true]], [1, 2, 0];
      && IsMatrix(parity, 2) && IsOrdering(order, 3)
      && Selection(parity, 2, order, 2) == [0, 2, 1] && 1 !in Positions(Selection(parity, 2, order, 2), 2)
  {
    var parity: seq<Vec> := [[false, true]];
    var order: seq<nat>, next: seq<nat> := [1, 2, 0], [0, 2, 1];
    assert order[0] == 1 && order[1] == 2 && order[2] == 0 && next[0] == 0 && next[1] == 2 && next[2] == 1;
    assert IsOrdering(order, 3) && IsOrdering(next, 3);
    var g, h := Ordered(parity, 2, order), Ordered(parity, 2, next);
    assert Unit(2, 0) == [true, false] && Unit(2, 1) == [false, true];
    assert g[0] == g[1] == h[1] == [false, true] && g[2] == h[0] == [true, false];
    hide Extends, PivotFrom, Ordered, IsOrdering;
    FirstPivotIs(g, 0);
    FirstPivotIs(g, 1);
    FirstPivotIs(g, 2);
    PivotFromIs(g, 2, 0, 0, 2);
    assert Swap(order, 0, 2) == next;
    SecondPivotIs(h, 1);
    PivotFromIs(h, 2, 1, 1, 1);
    assert Swap(next, 1, 1) == next;
    SelectionStart(parity, 2, order);
    SelectionStep(parity, 2, order, 0);
    SelectionStep(parity, 2, order, 1);
  }

  /** Invert the selected rows in place. The matrix starts as the generator rows in the order
      `which`, with an empty right half; rows are swapped together with their entries of `which`. */
  method GaussJordan(m: array2<bool>, which: array<nat>, k: nat, ghost parity: seq<Vec>)
    returns (ok: bool)
    requires IsMatrix(parity, k) && which.Length == m.Length0 == k + |parity| && m.Length1 == 2 * k
    requires IsOrdering(which[..], k + |parity|)
    requires Holds(m, Ordered(parity, k, which[..]), seq(m.Length0, _ => Zero(k)), k)
    modifies m, which
    ensures ok && which[..] == Selection(parity, k, old(which[..]), k)
    ensures Positions(which[..], k) == Positions(old(which[..]), k) <==> FirstIndependent(parity, k, old(which[..]))
    ensures Inverts(Ordered(parity, k, which[..]), RightRows(m, k)[..k], k)
    ensures forall i, c :: 0 <= i < m.Length0 && 0 <= c < k ==> m[i, c] == (i == c)
  {
    hide Reduced, Extends, Selection, Positions, FirstIndependent;
    ghost var order := which[..];
    FirstUsedIff(parity, k, order);
    ghost var start := Ordered(parity, k, which[..]);
    HoldsRows(m, start, seq(m.Length0, _ => Zero(k)), k);
    OrderedSystematic(parity, k, which[..]);
    StartsReduced(start, RightRows(m, k), k);
    SelectionStart(parity, k, order);
    for row := 0 to k
      invariant which[..] == Selection(parity, k, order, row)
      invariant Reduced(Ordered(parity, k, which[..]), LeftRows(m, k), RightRows(m, k), k, row)
    {
      var pivoted := PivotStep(m, which, row, k, parity);
      SelectionStep(parity, k, order, row);
      if !pivoted {
        return false;
      }
    }
    EndsInverted(Ordered(parity, k, which[..]), LeftRows(m, k), RightRows(m, k), k);
    UnitLeft(Ordered(parity, k, which[..]), LeftRows(m, k), RightRows(m, k), k);
    return true;
  }

  lemma SelectionStart(parity: seq<Vec>, k: nat, order: seq<nat>)
    requires IsMatrix(parity, k) && IsOrdering(order, k + |parity|)
    ensures Selection(parity, k, order, 0) == order
  {
  }

  lemma SelectionStep(parity: seq<Vec>, k: nat, order: seq<nat>, r: nat)
    requires IsMatrix(parity, k) && IsOrdering(order, k + |parity|) && r < k
    ensures var before := Selection(parity, k, order, r);
      Selection(parity, k, order, r + 1) == Swap(before, r, PivotFrom(Ordered(parity, k, before), k, r, r))
  {
    hide Extends, PivotFrom;
  }

  /** One pass of the elimination loop; false when column `row` has no pivot. */
  method PivotStep(m: array2<bool>, which: array<nat>, row: nat, k: nat, ghost parity: seq<Vec>)
    returns (pivoted: bool)
    requires IsMatrix(parity, k) && which.Length == m.Length0 == k + |parity| && m.Length1 == 2 * k && row < k
    requires IsOrdering(which[..], k + |parity|)
    requires Reduced(Ordered(parity, k, which[..]), LeftRows(m, k), RightRows(m, k), k, row)
    modifies m, which
    ensures pivoted && IsOrdering(which[..], k + |parity|)
    ensures var before := old(which[..]); which[..] == Swap(before, row, PivotFrom(Ordered(parity, k, before), k, row, row))
    ensures Reduced(Ordered(parity, k, which[..]), LeftRows(m, k), RightRows(m, k), k, row + 1)
  {
    hide Reduced, Pivoted, IsOrdering, Extends, PivotFrom;
    if !m[row, row] {
      FindPivot(m, which, row, k, parity);
    } else {
      PivotExtends(Ordered(parity, k, which[..]), LeftRows(m, k), RightRows(m, k), k, row, row);
      PivotFromIs(Ordered(parity, k, which[..]), k, row, row, row);
    }
    if !m[row, row] {
      return false;
    }
    ghost var g, l, e := Ordered(parity, k, which[..]), LeftRows(m, k), RightRows(m, k);
    Eliminate(m, row, k);
    PivotKeepsReduced(g, l, e, LeftRows(m, k), RightRows(m, k), k, row);
    return true;
  }

  /** Exchange two rows and their entries of `which`. */
  method Exchange(m: array2<bool>, which: array<nat>, i: nat, j: nat, ghost k: nat)
    requires i < m.Length0 == which.Length && i < j < m.Length0 && i < k && m.Length1 == 2 * k
    modifies m, which
    ensures LeftRows(m, k) == Swap(old(LeftRows(m, k)), i, j) && RightRows(m, k) == Swap(old(RightRows(m, k)), i, j)
    ensures which[..] == Swap(old(which[..]), i, j)
    ensures m[i, i] == old(m[j, i])
  {
    SwapRows(m, i, j, k);
    var tmp := which[i];
    which[i] := which[j];
    which[j] := tmp;
    assert m[i, i] == LeftRows(m, k)[i][i];
  }

  /** Bring the first later row with a one in column `row` up to place `row`. */
  method FindPivot(m: array2<bool>, which: array<nat>, row: nat, k: nat, ghost parity: seq<Vec>)
    requires IsMatrix(parity, k) && which.Length == m.Length0 == k + |parity| && m.Length1 == 2 * k && row < k
    requires IsOrdering(which[..], k + |parity|) && !m[row, row]
    requires Reduced(Ordered(parity, k, which[..]), LeftRows(m, k), RightRows(m, k), k, row)
    modifies m, which
    ensures IsOrdering(which[..], k + |parity|)
    ensures Reduced(Ordered(parity, k, which[..]), LeftRows(m, k), RightRows(m, k), k, row)
    ensures var before := old(which[..]); which[..] == Swap(before, row, PivotFrom(Ordered(parity, k, before), k, row, row))
    ensures m[row, row]
  {
    hide Reduced, Extends, PivotFrom;
    ghost var before := which[..];
    ghost var g, l, e := Ordered(parity, k, before), LeftRows(m, k), RightRows(m, k);
    PivotExists(g, l, e, k, row);
    ghost var p :| row <= p < m.Length0 && l[p][row];
    PivotExtends(g, l, e, k, row, row);
    for row1 := row + 1 to m.Length0
      invariant row1 <= p && which[..] == before && LeftRows(m, k) == l && RightRows(m, k) == e
      invariant forall i :: row <= i < row1 ==> !Extends(g, k, row, i)
    {
      PivotExtends(g, l, e, k, row, row1);
      assert m[row1, row] == l[row1][row];
      if m[row1, row] {
        PivotFromIs(g, k, row, row, row1);
        SwapOrdering(parity, k, before, row, row1);
        SwapKeepsReduced(g, l, e, k, row, row, row1);
        Exchange(m, which, row, row1, k);
        return;
      }
    }
  }

  lemma UnitLeft(g: seq<Vec>, l: seq<Vec>, e: seq<Vec>, k: nat)
    requires Reduced(g, l, e, k, k)
    ensures forall i, c :: 0 <= i < |l| && 0 <= c < k ==> l[i][c] == (i == c)
  {
  }

  // ----- re-deriving messages from the strongest bits

  /** Matrix times vector, one bit at a time. */
  method MatMul(a: array2<bool>, b: seq<bool>) returns (c: seq<bool>)
    requires a.Length0 == a.Length1 == |b|
    ensures c == Apply(LeftRows(a, |b|), b)
  {
    hide Dot;
    ghost var rows := LeftRows(a, |b|);
    c := [];
    for i := 0 to a.Length0
      invariant |c| == i && forall n :: 0 <= n < i ==> c[n] == Dot(rows[n], b)
    {
      var sum := RowProduct(a, i, b);
      c := c + [sum];
    }
  }

  method RowProduct(a: array2<bool>, i: nat, b: seq<bool>) returns (sum: bool)
    requires a.Length1 == |b| && i < a.Length0
    ensures sum == Dot(LeftRows(a, |b|)[i], b)
  {
    ghost var row := LeftRows(a, |b|)[i];
    sum := false;
    for j := 0 to |b|
      invariant sum == Dot(row[..j], b[..j])
    {
      assert row[..j + 1][..j] == row[..j] && b[..j + 1][..j] == b[..j];
      sum := sum != (a[i, j] && b[j]);
    }
    assert row[..|b|] == row && b[..|b|] == b;
  }

  /** How well a codeword fits: a one-bit expects a negative value, a zero-bit a positive one. */
  ghost function Fit(code: seq<bool>, llr: seq<real>): real
    requires |code| <= |llr|
  {
    if code == [] then 0.0
    else
      var n := |code| - 1;
      Fit(code[..n], llr) + if code[n] then -llr[n] else llr[n]
  }

  function Size(x: real): real {
    if x < 0.0 then -x else x
  }

  /** The weight of all positions together. */
  ghost function Weight(llr: seq<real>): (w: real)
    ensures w >= 0.0
  {
    if llr == [] then 0.0 else Weight(llr[..|llr| - 1]) + Size(llr[|llr| - 1])
  }

  /** The weight of the positions at which the codeword differs from the hard decisions. */
  ghost function Missed(code: seq<bool>, llr: seq<real>): (w: real)
    requires |code| == |llr|
    ensures w >= 0.0
  {
    if code == [] then 0.0
    else
      var n := |code| - 1;
      Missed(code[..n], llr[..n]) + if code[n] == (llr[n] > 0.0) then 0.0 else Size(llr[n])
  }

  ghost predicate Agrees(code: seq<bool>, llr: seq<real>)
    requires |code| == |llr|
  {
    forall i :: 0 <= i < |llr| && llr[i] != 0.0 ==> code[i] == (llr[i] > 0.0)
  }

  lemma {:induction false} FitPrefix(code: seq<bool>, llr: seq<real>, n: nat)
    requires |code| <= n <= |llr|
    ensures Fit(code, llr[..n]) == Fit(code, llr)
    decreases code
  {
    if code == [] {
    } else {
      FitPrefix(code[..|code| - 1], llr, n);
    }
  }

  /** The score is the weight missed, counted twice, less the whole weight: lower is better. */
  lemma {:induction false} FitIs(code: seq<bool>, llr: seq<real>)
    requires |code| == |llr|
    ensures Fit(code, llr) == 2.0 * Missed(code, llr) - Weight(llr)
    decreases code
  {
    if code == [] {
    } else {
      var n := |code| - 1;
      FitPrefix(code[..n], llr, n);
      FitIs(code[..n], llr[..n]);
    }
  }

  lemma {:induction false} MissedNone(code: seq<bool>, llr: seq<real>)
    requires |code| == |llr|
    ensures Missed(code, llr) == 0.0 <==> Agrees(code, llr)
    decreases code
  {
    if code == [] {
    } else {
      var n := |code| - 1;
      MissedNone(code[..n], llr[..n]);
      assert Agrees(code, llr) <==> Agrees(code[..n], llr[..n]) && (llr[n] != 0.0 ==> code[n] == (llr[n] > 0.0));
    }
  }

  /** The score is least exactly for words that agree with the hard decisions wherever there is one. */
  lemma LeastFit(code: seq<bool>, llr: seq<real>)
    requires |code| == |llr|
    ensures (forall other: seq<bool> :: |other| == |llr| ==> Fit(code, llr) <= Fit(other, llr)) <==> Agrees(code, llr)
  {
    hide Agrees;
    FitIs(code, llr);
    MissedNone(code, llr);
    if Agrees(code, llr) {
      forall other: seq<bool> | |other| == |llr|
        ensures Fit(code, llr) <= Fit(other, llr)
      {
        FitIs(other, llr);
      }
    } else {
      var hard := seq(|llr|, i requires 0 <= i < |llr| => llr[i] > 0.0);
      HardAgrees(hard, llr);
      FitIs(hard, llr);
      MissedNone(hard, llr);
    }
  }

  lemma HardAgrees(hard: seq<bool>, llr: seq<real>)
    requires |hard| == |llr| && forall i :: 0 <= i < |llr| ==> hard[i] == (llr[i] > 0.0)
    ensures Agrees(hard, llr)
  {
  }

  /** `osd_score`. */
  method Score(parity: seq<Vec>, xplain: seq<bool>, llr: seq<real>) returns (score: real)
    requires IsMatrix(parity, |xplain|) && |llr| == |xplain| + |parity|
    ensures score == Fit(Codeword(parity, |xplain|, xplain), llr)
  {
    hide Dot;
    var xcode := new bool[|llr|];
    EncodeBits(parity, xplain, xcode);
    score := 0.0;
    for i := 0 to |llr|
      invariant score == Fit(xcode[..i], llr)
    {
      assert xcode[..i + 1][..i] == xcode[..i];
      if xcode[i] {
        score := score - llr[i];
      } else {
        score := score + llr[i];
      }
    }
    assert xcode[..|llr|] == xcode[..];
  }

  /** `osd_check`: not all zeros, and the CRC holds. */
  method Plausible(plain: seq<bool>) returns (ok: bool)
    requires |plain| == Crc14.WORD_BITS
    ensures ok == (plain != Zero(Crc14.WORD_BITS) && Crc14.Accepted(plain))
  {
    for i := 0 to |plain|
      invariant forall j :: 0 <= j < i ==> !plain[j]
    {
      if plain[i] {
        assert plain != Zero(Crc14.WORD_BITS);
        ok := Crc14.CheckBits(plain);
        return;
      }
    }
    return false;
  }

  const OSD_THRESH := -100.0

  /** What the decoder demands of a message before it will return it. */
  ghost predicate Passes(parity: seq<Vec>, llr: seq<real>, x: Vec)
    requires |x| == Crc14.WORD_BITS && IsMatrix(parity, |x|) && |llr| == |x| + |parity|
  {
    && Fit(Codeword(parity, |x|, x), llr) < OSD_THRESH
    && x != Zero(Crc14.WORD_BITS) && Crc14.Accepted(x)
  }

  /** The message's codeword has the received hard bits at the selected positions, except
      that the bit at position `flip` (if any) is inverted. */
  ghost predicate Carries(parity: seq<Vec>, llr: seq<real>, which: seq<nat>, flip: int, x: Vec)
    requires IsMatrix(parity, |x|) && IsOrdering(which, |x| + |parity|) && |llr| == |x| + |parity|
  {
    forall i :: 0 <= i < |x| ==> Codeword(parity, |x|, x)[which[i]] == ((llr[which[i]] > 0.0) != (i == flip))
  }

  function HardBits(llr: seq<real>, which: seq<nat>, k: nat, flip: int): (y: Vec)
    requires k <= |which| && forall i :: 0 <= i < |which| ==> which[i] < |llr|
    ensures |y| == k
  {
    seq(k, i requires 0 <= i < k => (llr[which[i]] > 0.0) != (i == flip))
  }

  lemma SolveByInverse(g: seq<Vec>, inverse: seq<Vec>, k: nat, x: Vec, y: Vec)
    requires k <= |g| && IsMatrix(g, k) && |inverse| == k && IsMatrix(inverse, k) && Inverts(g, inverse, k)
    requires |x| == |y| == k
    ensures Apply(g[..k], x) == y <==> x == Apply(inverse, y)
  {
    hide Dot;
    assert Apply(inverse, Apply(g[..k], x)) == x;
    assert Apply(g[..k], Apply(inverse, y)) == y;
  }

  lemma CarriesMeansProduct(parity: seq<Vec>, llr: seq<real>, which: seq<nat>, flip: int, k: nat, x: Vec)
    requires IsMatrix(parity, k) && IsOrdering(which, k + |parity|) && |llr| == k + |parity| && |x| == k
    ensures Carries(parity, llr, which, flip, x) <==> Apply(Ordered(parity, k, which)[..k], x) == HardBits(llr, which, k, flip)
  {
    hide Dot;
    var g, y := Ordered(parity, k, which), HardBits(llr, which, k, flip);
    forall i | 0 <= i < k
      ensures Codeword(parity, k, x)[which[i]] == Apply(g[..k], x)[i]
      ensures y[i] == ((llr[which[i]] > 0.0) != (i == flip))
    {
    }
    if Carries(parity, llr, which, flip, x) {
      assert Apply(g[..k], x) == y;
    }
  }

  /** Multiplying the flipped hard bits by the inverse gives the one message that carries them. */
  lemma CarrierUnique(parity: seq<Vec>, llr: seq<real>, which: seq<nat>, flip: int, inverse: seq<Vec>, k: nat, x: Vec)
    requires IsMatrix(parity, k) && IsOrdering(which, k + |parity|) && |llr| == k + |parity| && |x| == k
    requires |inverse| == k && IsMatrix(inverse, k) && Inverts(Ordered(parity, k, which), inverse, k)
    ensures Carries(parity, llr, which, flip, x) <==> x == Apply(inverse, HardBits(llr, which, k, flip))
  {
    hide Dot, Inverts, Carries;
    CarriesMeansProduct(parity, llr, which, flip, k, x);
    SolveByInverse(Ordered(parity, k, which), inverse, k, x, HardBits(llr, which, k, flip));
  }

  /** The generator rows in the given order, with an empty right half. */
  method BuildMatrix(parity: seq<Vec>, k: nat, which: seq<nat>) returns (b: array2<bool>)
    requires IsMatrix(parity, k) && IsOrdering(which, k + |parity|)
    ensures fresh(b) && b.Length0 == |which| && b.Length1 == 2 * k && Holds(b, Ordered(parity, k, which), seq(|which|, _ => Zero(k)), k)
  {
    b := new bool[|which|, 2 * k]((i, j) => false);
    ghost var g := Ordered(parity, k, which);
    for i := 0 to |which|
      invariant forall a, c :: 0 <= a < |which| && 0 <= c < k ==> b[a, c] == (a < i && g[a][c])
      invariant forall a, c :: 0 <= a < |which| && k <= c < 2 * k ==> !b[a, c]
    {
      FillRow(b, i, GeneratorRow(parity, k, which[i]));
    }
  }

  method FillRow(b: array2<bool>, i: nat, row: Vec)
    requires i < b.Length0 && |row| <= b.Length1
    modifies b
    ensures forall a, c :: 0 <= a < b.Length0 && 0 <= c < b.Length1 ==>
      b[a, c] == if a == i && c < |row| then row[c] else old(b[a, c])
  {
    for j := 0 to |row|
      invariant forall a, c :: 0 <= a < b.Length0 && 0 <= c < b.Length1 ==>
        b[a, c] == if a == i && c < j then row[c] else old(b[a, c])
    {
      b[i, j] := row[j];
    }
  }

  method CopyInverse(b: array2<bool>, k: nat) returns (inverse: array2<bool>)
    requires k <= b.Length0 && b.Length1 == 2 * k
    ensures fresh(inverse) && inverse.Length0 == inverse.Length1 == k
    ensures LeftRows(inverse, k) == RightRows(b, k)[..k]
  {
    inverse := new bool[k, k]((i, j) => false);
    ghost var e := RightRows(b, k);
    for i := 0 to k
      invariant forall a, c :: 0 <= a < i && 0 <= c < k ==> inverse[a, c] == e[a][c]
    {
      for j := 0 to k
        invariant forall a, c :: 0 <= a < i && 0 <= c < k ==> inverse[a, c] == e[a][c]
        invariant forall c :: 0 <= c < j ==> inverse[i, c] == e[i][c]
      {
        inverse[i, j] := b[i, k + j];
      }
    }
    forall a | 0 <= a < k
      ensures LeftRows(inverse, k)[a] == e[..k][a]
    {
    }
  }

  /** Try one set of hard bits: the message they determine, and whether it may be returned. */
  method TryBits(parity: seq<Vec>, llr: seq<real>, inverse: array2<bool>, y1: seq<bool>, ghost which: seq<nat>, ghost flip: int)
    returns (xplain: seq<bool>, score: real, passes: bool)
    requires |y1| == Crc14.WORD_BITS == inverse.Length0 == inverse.Length1
    requires IsMatrix(parity, |y1|) && |llr| == |y1| + |parity| && IsOrdering(which, |llr|)
    requires Inverts(Ordered(parity, |y1|, which), LeftRows(inverse, |y1|), |y1|)
    requires y1 == HardBits(llr, which, |y1|, flip)
    ensures |xplain| == |y1| && Carries(parity, llr, which, flip, xplain)
    ensures forall x: Vec :: |x| == |y1| && Carries(parity, llr, which, flip, x) ==> x == xplain
    ensures score == Fit(Codeword(parity, |y1|, xplain), llr) && passes == Passes(parity, llr, xplain)
  {
    hide Carries, Inverts, Dot;
    xplain := MatMul(inverse, y1);
    score := Score(parity, xplain, llr);
    var ch := Plausible(xplain);
    passes := score < OSD_THRESH && ch;
    forall x: Vec | |x| == |y1|
      ensures Carries(parity, llr, which, flip, x) <==> x == xplain
    {
      CarrierUnique(parity, llr, which, flip, LeftRows(inverse, |y1|), |y1|, x);
    }
  }

  /** Every passing candidate with one of the last n selected bits flipped was found, and none
      fits better than `bound`. */
  ghost predicate Searched(parity: seq<Vec>, llr: seq<real>, which: seq<nat>, n: nat, found: bool, bound: real)
    requires IsMatrix(parity, Crc14.WORD_BITS) && |llr| == Crc14.WORD_BITS + |parity| && IsOrdering(which, |llr|)
  {
    forall flip: int, x: Vec ::
      (|x| == Crc14.WORD_BITS && Crc14.WORD_BITS - n <= flip < Crc14.WORD_BITS
       && Carries(parity, llr, which, flip, x) && Passes(parity, llr, x))
      ==> found && Fit(Codeword(parity, |x|, x), llr) >= bound
  }

  /** One more flip: the message that carries it competes with the best so far. */
  lemma SearchedStep(parity: seq<Vec>, llr: seq<real>, which: seq<nat>, n: nat, found: bool, bound: real, x: Vec, found': bool, bound': real)
    requires IsMatrix(parity, Crc14.WORD_BITS) && |llr| == Crc14.WORD_BITS + |parity| && IsOrdering(which, |llr|)
    requires |x| == Crc14.WORD_BITS && Searched(parity, llr, which, n, found, bound) && n < Crc14.WORD_BITS
    requires forall v: Vec :: |v| == Crc14.WORD_BITS && Carries(parity, llr, which, Crc14.WORD_BITS - 1 - n, v) ==> v == x
    requires found ==> found' && bound' <= bound
    requires Passes(parity, llr, x) ==> found' && bound' <= Fit(Codeword(parity, |x|, x), llr)
    ensures Searched(parity, llr, which, n + 1, found', bound')
  {
    hide Carries, Passes, Fit, Dot;
  }

  lemma SearchedNone(parity: seq<Vec>, llr: seq<real>, which: seq<nat>)
    requires IsMatrix(parity, Crc14.WORD_BITS) && |llr| == Crc14.WORD_BITS + |parity| && IsOrdering(which, |llr|)
    ensures Searched(parity, llr, which, 0, false, 0.0)
  {
  }

  /** Every passing flip tried among the first n scores more than the bound. */
  ghost predicate AllAbove(parity: seq<Vec>, llr: seq<real>, which: seq<nat>, n: nat, bound: real)
    requires IsMatrix(parity, Crc14.WORD_BITS) && |llr| == Crc14.WORD_BITS + |parity| && IsOrdering(which, |llr|)
  {
    forall flip: int, x: Vec ::
      (|x| == Crc14.WORD_BITS && Crc14.WORD_BITS - n <= flip < Crc14.WORD_BITS
       && Carries(parity, llr, which, flip, x) && Passes(parity, llr, x))
      ==> Fit(Codeword(parity, |x|, x), llr) > bound
  }

  /** A score below the best so far is below all of them. */
  lemma BelowBest(parity: seq<Vec>, llr: seq<real>, which: seq<nat>, n: nat, found: bool, bound: real, score: real)
    requires IsMatrix(parity, Crc14.WORD_BITS) && |llr| == Crc14.WORD_BITS + |parity| && IsOrdering(which, |llr|)
    requires Searched(parity, llr, which, n, found, bound) && (found ==> score < bound)
    ensures AllAbove(parity, llr, which, n, score)
  {
    hide Carries, Passes, Fit, Dot;
  }

  /** Of the last `depth` flips no passing one scores less than this message's, nor as little before it. */
  ghost predicate BestFlip(parity: seq<Vec>, llr: seq<real>, which: seq<nat>, depth: nat, outDepth: nat, out: Vec)
    requires IsMatrix(parity, Crc14.WORD_BITS) && |llr| == Crc14.WORD_BITS + |parity| && IsOrdering(which, |llr|)
    requires |out| == Crc14.WORD_BITS
  {
    var score := Fit(Codeword(parity, Crc14.WORD_BITS, out), llr);
    Searched(parity, llr, which, depth, true, score) && AllAbove(parity, llr, which, outDepth, score)
  }

  const NO_FLIP := -1

  /** Eliminate, keep the inverse, and read the hard bits in the final row order. */
  method Prepare(parity: seq<Vec>, llr: seq<real>, order: seq<nat>)
    returns (inverted: bool, inverse: array2<bool>, y1: array<bool>, ghost which: seq<nat>)
    requires IsMatrix(parity, Crc14.WORD_BITS) && |llr| == Crc14.WORD_BITS + |parity| && IsOrdering(order, |llr|)
    ensures inverted && fresh(inverse) && fresh(y1) && inverse.Length0 == inverse.Length1 == Crc14.WORD_BITS
    ensures which == Selection(parity, Crc14.WORD_BITS, order, Crc14.WORD_BITS)
    ensures Inverts(Ordered(parity, Crc14.WORD_BITS, which), LeftRows(inverse, Crc14.WORD_BITS), Crc14.WORD_BITS)
    ensures y1[..] == HardBits(llr, which, Crc14.WORD_BITS, NO_FLIP)
  {
    hide Inverts, Dot, Holds, Selection;
    var k := Crc14.WORD_BITS;
    var w := new nat[|llr|](i requires 0 <= i < |llr| => order[i]);
    assert w[..] == order;
    var b := BuildMatrix(parity, k, w[..]);
    inverted := GaussJordan(b, w, k, parity);
    inverse := CopyInverse(b, k);
    which := w[..];
    y1 := new bool[k](i => false);
    ghost var y := HardBits(llr, which, k, NO_FLIP);
    for i := 0 to k
      invariant w[..] == which && forall a :: 0 <= a < i ==> y1[a] == y[a]
      invariant Inverts(Ordered(parity, k, which), LeftRows(inverse, k), k)
    {
      var j := w[i];
      y1[i] := llr[j] > 0.0;
    }
  }

  /** Flip one bit, try the result, and flip it back. */
  method TryFlip(parity: seq<Vec>, llr: seq<real>, inverse: array2<bool>, y1: array<bool>, ghost which: seq<nat>, i: nat)
    returns (xplain: seq<bool>, score: real, passes: bool)
    requires IsMatrix(parity, Crc14.WORD_BITS) && |llr| == Crc14.WORD_BITS + |parity|
    requires IsOrdering(which, |llr|) && i < Crc14.WORD_BITS == inverse.Length0 == inverse.Length1
    requires Inverts(Ordered(parity, Crc14.WORD_BITS, which), LeftRows(inverse, Crc14.WORD_BITS), Crc14.WORD_BITS)
    requires y1[..] == HardBits(llr, which, Crc14.WORD_BITS, NO_FLIP)
    modifies y1
    ensures y1[..] == HardBits(llr, which, Crc14.WORD_BITS, NO_FLIP)
    ensures |xplain| == Crc14.WORD_BITS && Carries(parity, llr, which, i, xplain)
    ensures forall x: Vec :: |x| == Crc14.WORD_BITS && Carries(parity, llr, which, i, x) ==> x == xplain
    ensures score == Fit(Codeword(parity, Crc14.WORD_BITS, xplain), llr) && passes == Passes(parity, llr, xplain)
  {
    hide Inverts, Carries, Passes, Fit, Dot, Ordered, Codeword;
    y1[i] := !y1[i];
    assert y1[..] == HardBits(llr, which, Crc14.WORD_BITS, i);
    xplain, score, passes := TryBits(parity, llr, inverse, y1[..], which, i);
    y1[i] := !y1[i];
    assert y1[..] == HardBits(llr, which, Crc14.WORD_BITS, NO_FLIP);
  }

  /** Flip the last selected bits one at a time and keep the best passing message. */
  method SearchFlips(parity: seq<Vec>, llr: seq<real>, depth: nat, inverse: array2<bool>, y1: array<bool>, ghost which: seq<nat>)
    returns (ok: bool, out: seq<bool>, outDepth: int)
    requires IsMatrix(parity, Crc14.WORD_BITS) && |llr| == Crc14.WORD_BITS + |parity|
    requires IsOrdering(which, |llr|) && depth <= Crc14.WORD_BITS == inverse.Length0 == inverse.Length1
    requires Inverts(Ordered(parity, Crc14.WORD_BITS, which), LeftRows(inverse, Crc14.WORD_BITS), Crc14.WORD_BITS)
    requires y1[..] == HardBits(llr, which, Crc14.WORD_BITS, NO_FLIP)
    modifies y1
    ensures ok ==> |out| == Crc14.WORD_BITS && 0 <= outDepth < depth
    ensures ok ==> Carries(parity, llr, which, Crc14.WORD_BITS - 1 - outDepth, out) && Passes(parity, llr, out)
    ensures ok ==> BestFlip(parity, llr, which, depth, outDepth, out)
    ensures !ok ==> Searched(parity, llr, which, depth, false, 0.0)
  {
    hide Inverts, Carries, Passes, Fit, Dot, Searched, AllAbove, HardBits, Ordered, Codeword;
    var k := Crc14.WORD_BITS;
    var bestScore := 0.0;
    ok, out, outDepth := false, [], -1;
    SearchedNone(parity, llr, which);
    for ii := 0 to depth
      invariant y1[..] == HardBits(llr, which, k, NO_FLIP)
      invariant Searched(parity, llr, which, ii, ok, bestScore)
      invariant ok ==> |out| == k && 0 <= outDepth < ii && Carries(parity, llr, which, k - 1 - outDepth, out)
      invariant ok ==> Passes(parity, llr, out) && bestScore == Fit(Codeword(parity, k, out), llr)
      invariant ok ==> AllAbove(parity, llr, which, outDepth, bestScore)
      invariant !ok ==> bestScore == 0.0
    {
      var xplain, score, passes := TryFlip(parity, llr, inverse, y1, which, k - 1 - ii);
      ghost var found, bound := ok, bestScore;
      if passes && (!ok || score < bestScore) {
        BelowBest(parity, llr, which, ii, ok, bestScore, score);
        ok, out, bestScore, outDepth := true, xplain, score, ii;
      }
      SearchedStep(parity, llr, which, ii, found, bound, xplain, ok, bestScore);
    }
  }

  /** What the decoder may return when its elimination ended with the rows in order `which`:
      the unflipped message when that passes, else the best passing single flip and the first of
      several, else nothing. */
  ghost predicate IsResult(parity: seq<Vec>, llr: seq<real>, depth: nat, which: seq<nat>, flip: int,
                           ok: bool, out: seq<bool>, outDepth: int)
    requires IsMatrix(parity, Crc14.WORD_BITS) && |llr| == Crc14.WORD_BITS + |parity| && depth <= Crc14.WORD_BITS
  {
    && IsOrdering(which, |llr|)
    && (ok ==> |out| == Crc14.WORD_BITS && Carries(parity, llr, which, flip, out) && Passes(parity, llr, out))
    && (ok && flip == NO_FLIP ==> outDepth == 0)
    && (ok && flip != NO_FLIP ==> 0 <= outDepth < depth && flip == Crc14.WORD_BITS - 1 - outDepth)
    && (ok && flip != NO_FLIP ==> BestFlip(parity, llr, which, depth, outDepth, out))
    && (!ok ==> Searched(parity, llr, which, depth, false, 0.0))
    && (forall x: Vec :: |x| == Crc14.WORD_BITS && Carries(parity, llr, which, NO_FLIP, x) && Passes(parity, llr, x) ==>
          ok && flip == NO_FLIP && out == x)
  }

  /** The decoder reads the hard decisions at the first 91 positions of the order. */
  ghost predicate UsesFirst(parity: seq<Vec>, order: seq<nat>)
    requires IsMatrix(parity, Crc14.WORD_BITS) && IsOrdering(order, Crc14.WORD_BITS + |parity|)
  {
    Positions(Selection(parity, Crc14.WORD_BITS, order, Crc14.WORD_BITS), Crc14.WORD_BITS) == Positions(order, Crc14.WORD_BITS)
  }

  /** Order-0 and order-1 reprocessing. `order` is what sorting by reliability returned. */
  method OsdDecode(parity: seq<Vec>, llr: seq<real>, depth: nat, order: seq<nat>)
    returns (ok: bool, out: seq<bool>, outDepth: int)
    requires IsMatrix(parity, Crc14.WORD_BITS) && |llr| == Crc14.WORD_BITS + |parity|
    requires IsOrdering(order, |llr|) && depth <= Crc14.WORD_BITS
    ensures ok ==> |out| == Crc14.WORD_BITS && Passes(parity, llr, out)
    ensures exists flip: int ::
      IsResult(parity, llr, depth, Selection(parity, Crc14.WORD_BITS, order, Crc14.WORD_BITS), flip, ok, out, outDepth)
    ensures UsesFirst(parity, order) <==> FirstIndependent(parity, Crc14.WORD_BITS, order)
    ensures FirstIndependent(parity, Crc14.WORD_BITS, order) ==> FirstAccepted(parity, llr, order, ok, out)
  {
    hide Inverts, Carries, Passes, Fit, Dot, Searched, BestFlip, Selection, Positions, FirstIndependent, FirstAccepted;
    FirstUsedIff(parity, Crc14.WORD_BITS, order);
    ghost var which, flip;
    ok, out, outDepth, which, flip := Reprocess(parity, llr, depth, order);
    if FirstIndependent(parity, Crc14.WORD_BITS, order) {
      AcceptsFirst(parity, llr, depth, order, which, flip, ok, out, outDepth);
    }
  }

  /** A passing message that carries the hard decisions at the first 91 positions is returned. */
  ghost predicate FirstAccepted(parity: seq<Vec>, llr: seq<real>, order: seq<nat>, ok: bool, out: seq<bool>)
    requires IsMatrix(parity, Crc14.WORD_BITS) && |llr| == Crc14.WORD_BITS + |parity| && IsOrdering(order, |llr|)
  {
    forall x: Vec :: |x| == Crc14.WORD_BITS && Carries(parity, llr, order, NO_FLIP, x) && Passes(parity, llr, x) ==> ok && out == x
  }

  lemma AcceptsFirst(parity: seq<Vec>, llr: seq<real>, depth: nat, order: seq<nat>, which: seq<nat>, flip: int,
                     ok: bool, out: seq<bool>, outDepth: int)
    requires IsMatrix(parity, Crc14.WORD_BITS) && |llr| == Crc14.WORD_BITS + |parity| && depth <= Crc14.WORD_BITS
    requires IsOrdering(order, |llr|) && IsResult(parity, llr, depth, which, flip, ok, out, outDepth)
    requires Positions(which, Crc14.WORD_BITS) == Positions(order, Crc14.WORD_BITS)
    ensures FirstAccepted(parity, llr, order, ok, out)
  {
    hide Passes, Fit, Dot, Searched, BestFlip, Codeword, Positions;
    forall x: Vec | |x| == Crc14.WORD_BITS && Carries(parity, llr, order, NO_FLIP, x) && Passes(parity, llr, x)
      ensures ok && out == x
    {
      SameCarriers(parity, llr, order, which, x);
    }
  }

  /** Without a flip it does not matter in which order the selected positions stand. */
  lemma SameCarriers(parity: seq<Vec>, llr: seq<real>, order: seq<nat>, which: seq<nat>, x: Vec)
    requires IsMatrix(parity, |x|) && |llr| == |x| + |parity| && IsOrdering(order, |llr|) && IsOrdering(which, |llr|)
    requires Positions(which, |x|) == Positions(order, |x|) && Carries(parity, llr, order, NO_FLIP, x)
    ensures Carries(parity, llr, which, NO_FLIP, x)
  {
    hide Codeword;
    forall i | 0 <= i < |x|
      ensures Codeword(parity, |x|, x)[which[i]] == (llr[which[i]] > 0.0)
    {
      assert which[i] in Positions(order, |x|);
      var j :| 0 <= j < |x| && order[j] == which[i];
    }
  }

  /** The decoder with its final row order and the flip it used. */
  method Reprocess(parity: seq<Vec>, llr: seq<real>, depth: nat, order: seq<nat>)
    returns (ok: bool, out: seq<bool>, outDepth: int, ghost which: seq<nat>, ghost flip: int)
    requires IsMatrix(parity, Crc14.WORD_BITS) && |llr| == Crc14.WORD_BITS + |parity|
    requires IsOrdering(order, |llr|) && depth <= Crc14.WORD_BITS
    ensures which == Selection(parity, Crc14.WORD_BITS, order, Crc14.WORD_BITS)
    ensures IsResult(parity, llr, depth, which, flip, ok, out, outDepth)
  {
    hide Inverts, Carries, Passes, Fit, Dot, Searched, BestFlip, Selection, HardBits, Ordered, Codeword, LeftRows, IsOrdering;
    var inverted, inverse, y1;
    inverted, inverse, y1, which := Prepare(parity, llr, order);
    flip := NO_FLIP;
    if !inverted {
      return false, [], 0, which, flip;
    }
    var score, passes;
    out, score, passes := TryBits(parity, llr, inverse, y1[..], which, NO_FLIP);
    if passes {
      return true, out, 0, which, flip;
    }
    ok, out, outDepth := SearchFlips(parity, llr, depth, inverse, y1, which);
    flip := if ok then Crc14.WORD_BITS - 1 - outDepth else NO_FLIP;
  }
}
