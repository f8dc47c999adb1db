/** What Gauss-Jordan elimination keeps, step by step, for a tall binary matrix [l | e]
    whose right half e starts empty and receives the identity one pivot at a time. */
module Elimination {
  import opened Gf2

  /** Columns 0..r-1 of the left half are unit columns. */
  ghost predicate UnitColumns(l: seq<Vec>, k: nat, r: nat)
    requires IsMatrix(l, k) && r <= k
  {
    forall i, c :: 0 <= i < |l| && 0 <= c < r ==> l[i][c] == (i == c)
  }

  /** Columns r..k-1 of the right half are still empty. */
  ghost predicate EmptyColumns(e: seq<Vec>, k: nat, r: nat)
    requires IsMatrix(e, k) && r <= k
  {
    forall i, c :: 0 <= i < |e| && r <= c < k ==> !e[i][c]
  }

  ghost predicate Kills(rows: seq<Vec>, k: nat, v: Vec)
    requires IsMatrix(rows, k) && |v| == k
  {
    forall i :: 0 <= i < |rows| ==> !Dot(rows[i], v)
  }

  /** No nonzero vector is annihilated by the left half. */
  ghost predicate LeftFaithful(l: seq<Vec>, k: nat)
    requires IsMatrix(l, k)
  {
    forall v: Vec :: |v| == k && Kills(l, k, v) ==> v == Zero(k)
  }

  /** The r finished rows of the right half annihilate only vectors that vanish below r. */
  ghost predicate RightFaithful(e: seq<Vec>, k: nat, r: nat)
    requires IsMatrix(e, k) && r <= k <= |e|
  {
    forall z: Vec :: |z| == k && Kills(e[..r], k, z) ==> forall c :: 0 <= c < r ==> !z[c]
  }

  /** Row i applied to x is its own original row (while unfinished) plus the recorded combination
      of the first k original rows, whose products with x are y. */
  ghost predicate RowRecorded(own: bool, l: Vec, e: Vec, x: Vec, y: Vec)
    requires |l| == |e| == |x| == |y|
  {
    Dot(l, x) == (own != Dot(e, y))
  }

  ghost predicate Recorded(g: seq<Vec>, l: seq<Vec>, e: seq<Vec>, k: nat, r: nat, x: Vec)
    requires IsMatrix(g, k) && IsMatrix(l, k) && IsMatrix(e, k) && |l| == |e| == |g| && k <= |g| && |x| == k
  {
    var y := Apply(g[..k], x);
    forall i :: 0 <= i < |l| ==> RowRecorded(i >= r && Dot(g[i], x), l[i], e[i], x, y)
  }

  ghost predicate Shaped(g: seq<Vec>, l: seq<Vec>, e: seq<Vec>, k: nat, r: nat) {
    r <= k <= |g| && |l| == |e| == |g| && IsMatrix(g, k) && IsMatrix(l, k) && IsMatrix(e, k)
  }

  /** The state before pivot r: g holds the original rows in their current order. */
  ghost predicate Reduced(g: seq<Vec>, l: seq<Vec>, e: seq<Vec>, k: nat, r: nat)
  {
    && Shaped(g, l, e, k, r)
    && UnitColumns(l, k, r) && EmptyColumns(e, k, r)
    && LeftFaithful(l, k) && RightFaithful(e, k, r)
    && forall x: Vec :: |x| == k ==> Recorded(g, l, e, k, r, x)
  }

  // ----- a pivot always exists

  /** Without a pivot in column r this vector would be annihilated. */
  ghost function NullVector(l: seq<Vec>, k: nat, r: nat): (v: Vec)
    requires IsMatrix(l, k) && r < k <= |l|
    ensures |v| == k && v[r] && forall c :: 0 <= c < k ==> v[c] == (c == r || (c < r && l[c][r]))
  {
    seq(k, c requires 0 <= c < k => c == r || (c < r && l[c][r]))
  }

  lemma NullVectorKilled(l: seq<Vec>, k: nat, r: nat)
    requires IsMatrix(l, k) && r < k <= |l| && UnitColumns(l, k, r)
    requires forall i :: r <= i < |l| ==> !l[i][r]
    ensures Kills(l, k, NullVector(l, k, r))
  {
    hide Dot;
    var v := NullVector(l, k, r);
    forall i | 0 <= i < |l|
      ensures !Dot(l[i], v)
    {
      if i < r {
        DotPair(l[i], v, i, r);
      } else {
        DotNothing(l[i], v);
      }
    }
  }

  lemma PivotExists(g: seq<Vec>, l: seq<Vec>, e: seq<Vec>, k: nat, r: nat)
    requires Reduced(g, l, e, k, r) && r < k
    ensures exists i :: r <= i < |l| && l[i][r]
  {
    hide Kills, Recorded, RightFaithful, EmptyColumns;
    if forall i :: r <= i < |l| ==> !l[i][r] {
      NullVectorKilled(l, k, r);
    }
  }

  // ----- which row the pivot search finds

  /** Together with the first r rows, row j determines the first r + 1 unknowns when the others vanish. */
  ghost predicate Extends(g: seq<Vec>, k: nat, r: nat, j: nat)
    requires IsMatrix(g, k) && r < k && r <= j < |g|
  {
    forall v: Vec :: |v| == k && (forall c :: r < c < k ==> !v[c]) && Kills(g[..r], k, v) && !Dot(g[j], v) ==> v == Zero(k)
  }

  /** The first row from place j on that extends the first r rows; r itself when none does. */
  ghost function PivotFrom(g: seq<Vec>, k: nat, r: nat, j: nat): (p: nat)
    requires IsMatrix(g, k) && r < k && r <= j <= |g| && r < |g|
    ensures r <= p < |g|
    decreases |g| - j
  {
    if j == |g| then r else if Extends(g, k, r, j) then j else PivotFrom(g, k, r, j + 1)
  }

  lemma {:induction false} PivotFromIs(g: seq<Vec>, k: nat, r: nat, j: nat, p: nat)
    requires IsMatrix(g, k) && r < k && r <= j <= p < |g| && Extends(g, k, r, p)
    requires forall i :: j <= i < p ==> !Extends(g, k, r, i)
    ensures PivotFrom(g, k, r, j) == p
    decreases p - j
  {
    hide Extends;
    if j < p {
      PivotFromIs(g, k, r, j + 1, p);
    }
  }

  /** A vector that the first r original rows annihilate is seen by the reduced rows unchanged. */
  lemma SeenUnchanged(g: seq<Vec>, l: seq<Vec>, e: seq<Vec>, k: nat, r: nat, j: nat, v: Vec)
    requires Reduced(g, l, e, k, r) && j < |g| && |v| == k && Kills(g[..r], k, v)
    ensures Dot(l[j], v) == (j >= r && Dot(g[j], v))
  {
    hide Dot, LeftFaithful, RightFaithful;
    var y := Apply(g[..k], v);
    assert Recorded(g, l, e, k, r, v);
    assert RowRecorded(j >= r && Dot(g[j], v), l[j], e[j], v, y);
    forall c | 0 <= c < r
      ensures !y[c]
    {
      assert g[..r][c] == g[c];
    }
    DotNothing(e[j], y);
  }

  /** Conversely, what the first r reduced rows annihilate the original ones do. */
  lemma KilledByOriginals(g: seq<Vec>, l: seq<Vec>, e: seq<Vec>, k: nat, r: nat, v: Vec)
    requires Reduced(g, l, e, k, r) && |v| == k && Kills(l[..r], k, v)
    ensures Kills(g[..r], k, v)
  {
    hide Dot, LeftFaithful;
    var y := Apply(g[..k], v);
    assert Recorded(g, l, e, k, r, v);
    forall i | 0 <= i < r
      ensures !Dot(e[..r][i], y)
    {
      assert RowRecorded(false, l[i], e[i], v, y);
      assert l[..r][i] == l[i];
    }
    assert Kills(e[..r], k, y);
    forall i | 0 <= i < r
      ensures !Dot(g[..r][i], v)
    {
      assert !y[i];
    }
  }

  /** The element the search looks at is one exactly when the row extends those selected. */
  lemma PivotExtends(g: seq<Vec>, l: seq<Vec>, e: seq<Vec>, k: nat, r: nat, j: nat)
    requires Reduced(g, l, e, k, r) && r < k && r <= j < |g|
    ensures l[j][r] <==> Extends(g, k, r, j)
  {
    hide Dot, LeftFaithful, RightFaithful, Recorded, Kills;
    if l[j][r] {
      forall v: Vec | |v| == k && (forall c :: r < c < k ==> !v[c]) && Kills(g[..r], k, v) && !Dot(g[j], v)
        ensures v == Zero(k)
      {
        OnlyZero(g, l, e, k, r, j, v);
      }
    } else {
      NotExtended(g, l, e, k, r, j);
    }
  }

  lemma OnlyZero(g: seq<Vec>, l: seq<Vec>, e: seq<Vec>, k: nat, r: nat, j: nat, v: Vec)
    requires Reduced(g, l, e, k, r) && r < k && r <= j < |g| && l[j][r]
    requires |v| == k && (forall c :: r < c < k ==> !v[c]) && Kills(g[..r], k, v) && !Dot(g[j], v)
    ensures v == Zero(k)
  {
    hide Dot, LeftFaithful, RightFaithful, Recorded, Kills;
    SeenUnchanged(g, l, e, k, r, j, v);
    DotSingle(l[j], v, r);
    forall i | 0 <= i < r
      ensures !v[i]
    {
      SeenUnchanged(g, l, e, k, r, i, v);
      DotSingle(l[i], v, i);
    }
  }

  lemma NotExtended(g: seq<Vec>, l: seq<Vec>, e: seq<Vec>, k: nat, r: nat, j: nat)
    requires Reduced(g, l, e, k, r) && r < k && r <= j < |g| && !l[j][r]
    ensures !Extends(g, k, r, j)
  {
    hide Dot, LeftFaithful, RightFaithful, Recorded;
    var v := NullVector(l, k, r);
    forall i | 0 <= i < r
      ensures !Dot(l[..r][i], v)
    {
      DotPair(l[i], v, i, r);
    }
    KilledByOriginals(g, l, e, k, r, v);
    DotNothing(l[j], v);
    SeenUnchanged(g, l, e, k, r, j, v);
    assert v[r] && !Zero(k)[r];
  }

  // ----- exchanging rows i and j, neither yet finished

  function Swap<T>(s: seq<T>, i: nat, j: nat): (t: seq<T>)
    requires i < |s| && j < |s|
    ensures |t| == |s| && t[i] == s[j] && t[j] == s[i]
    ensures forall k :: 0 <= k < |s| && k != i && k != j ==> t[k] == s[k]
  {
    s[i := s[j]][j := s[i]]
  }

  lemma SwapLeft(l: seq<Vec>, k: nat, i: nat, j: nat)
    requires IsMatrix(l, k) && i < |l| && j < |l| && LeftFaithful(l, k)
    ensures LeftFaithful(Swap(l, i, j), k)
  {
    hide Dot;
    var l' := Swap(l, i, j);
    forall v: Vec | |v| == k && Kills(l', k, v)
      ensures v == Zero(k)
    {
      forall a | 0 <= a < |l|
        ensures !Dot(l[a], v)
      {
        assert l[a] == l'[if a == i then j else if a == j then i else a];
      }
      assert Kills(l, k, v);
    }
  }

  lemma SwapRecorded(g: seq<Vec>, l: seq<Vec>, e: seq<Vec>, k: nat, r: nat, i: nat, j: nat, x: Vec)
    requires Shaped(g, l, e, k, r) && EmptyColumns(e, k, r) && r <= i < |l| && r <= j < |l|
    requires |x| == k && Recorded(g, l, e, k, r, x)
    ensures Recorded(Swap(g, i, j), Swap(l, i, j), Swap(e, i, j), k, r, x)
  {
    hide Dot;
    var g', l', e' := Swap(g, i, j), Swap(l, i, j), Swap(e, i, j);
    var y, y' := Apply(g[..k], x), Apply(g'[..k], x);
    forall a | 0 <= a < |l|
      ensures RowRecorded(a >= r && Dot(g'[a], x), l'[a], e'[a], x, y')
    {
      var b := if a == i then j else if a == j then i else a;
      assert l'[a] == l[b] && g'[a] == g[b] && e'[a] == e[b];
      assert RowRecorded(b >= r && Dot(g[b], x), l[b], e[b], x, y);
      DotAgree(e[b], y, y');
    }
  }

  lemma SwapKeepsReduced(g: seq<Vec>, l: seq<Vec>, e: seq<Vec>, k: nat, r: nat, i: nat, j: nat)
    requires Reduced(g, l, e, k, r) && r <= i < |l| && r <= j < |l|
    ensures Reduced(Swap(g, i, j), Swap(l, i, j), Swap(e, i, j), k, r)
  {
    hide Dot, LeftFaithful, RightFaithful, Recorded;
    SwapLeft(l, k, i, j);
    assert Swap(e, i, j)[..r] == e[..r];
    SwapRight(e, Swap(e, i, j), k, r);
    forall x: Vec | |x| == k
      ensures Recorded(Swap(g, i, j), Swap(l, i, j), Swap(e, i, j), k, r, x)
    {
      SwapRecorded(g, l, e, k, r, i, j, x);
    }
  }

  lemma SwapRight(e: seq<Vec>, e': seq<Vec>, k: nat, r: nat)
    requires IsMatrix(e, k) && IsMatrix(e', k) && r <= k <= |e| == |e'| && e[..r] == e'[..r]
    requires RightFaithful(e, k, r)
    ensures RightFaithful(e', k, r)
  {
  }

  // ----- using pivot r: mark it in the right half, then clear its column everywhere else

  ghost predicate Pivoted(l: seq<Vec>, e: seq<Vec>, l': seq<Vec>, e': seq<Vec>, k: nat, r: nat)
    requires IsMatrix(l, k) && IsMatrix(e, k) && |l| == |e| && r < k <= |l|
  {
    && |l'| == |e'| == |l|
    && var mark := Add(e[r], Unit(k, r));
      forall i :: 0 <= i < |l| ==>
        if i != r && l[i][r] then l'[i] == Add(l[i], l[r]) && e'[i] == Add(e[i], mark)
        else l'[i] == l[i] && e'[i] == if i == r then mark else e[i]
  }

  lemma PivotLeft(l: seq<Vec>, e: seq<Vec>, l': seq<Vec>, e': seq<Vec>, k: nat, r: nat)
    requires IsMatrix(l, k) && IsMatrix(e, k) && |l| == |e| && r < k <= |l|
    requires Pivoted(l, e, l', e', k, r) && IsMatrix(l', k) && LeftFaithful(l, k)
    ensures LeftFaithful(l', k)
  {
    hide Dot;
    forall v: Vec | |v| == k && Kills(l', k, v)
      ensures v == Zero(k)
    {
      assert !Dot(l'[r], v);
      forall i | 0 <= i < |l|
        ensures !Dot(l[i], v)
      {
        DotAdd(l[i], l[r], v);
        assert !Dot(l'[i], v);
      }
      assert Kills(l, k, v);
    }
  }

  lemma PivotRight(l: seq<Vec>, e: seq<Vec>, l': seq<Vec>, e': seq<Vec>, k: nat, r: nat)
    requires IsMatrix(l, k) && IsMatrix(e, k) && |l| == |e| && r < k <= |l|
    requires Pivoted(l, e, l', e', k, r) && IsMatrix(e', k)
    requires EmptyColumns(e, k, r) && RightFaithful(e, k, r)
    ensures RightFaithful(e', k, r + 1)
  {
    hide Dot;
    var mark := Add(e[r], Unit(k, r));
    forall z: Vec | |z| == k && Kills(e'[..r + 1], k, z)
      ensures forall c :: 0 <= c < r + 1 ==> !z[c]
    {
      assert e'[..r + 1][r] == mark;
      forall i | 0 <= i < r
        ensures !Dot(e[..r][i], z)
      {
        assert !Dot(e'[..r + 1][i], z);
        DotAdd(e[i], mark, z);
      }
      assert Kills(e[..r], k, z);
      assert mark[r];
      DotSingle(mark, z, r);
    }
  }

  lemma PivotRecorded(g: seq<Vec>, l: seq<Vec>, e: seq<Vec>, l': seq<Vec>, e': seq<Vec>, k: nat, r: nat, x: Vec)
    requires Shaped(g, l, e, k, r) && r < k && Pivoted(l, e, l', e', k, r) && IsMatrix(l', k) && IsMatrix(e', k)
    requires |x| == k && Recorded(g, l, e, k, r, x)
    ensures Recorded(g, l', e', k, r + 1, x)
  {
    hide Dot;
    var y := Apply(g[..k], x);
    var mark := Add(e[r], Unit(k, r));
    assert Dot(l[r], x) == Dot(mark, y) by {
      assert RowRecorded(true && Dot(g[r], x), l[r], e[r], x, y);
      DotAdd(e[r], Unit(k, r), y);
      DotUnit(k, r, y);
      assert y[r] == Dot(g[r], x);
    }
    forall i | 0 <= i < |l|
      ensures RowRecorded(i >= r + 1 && Dot(g[i], x), l'[i], e'[i], x, y)
    {
      assert RowRecorded(i >= r && Dot(g[i], x), l[i], e[i], x, y);
      DotAdd(l[i], l[r], x);
      DotAdd(e[i], mark, y);
    }
  }

  lemma PivotKeepsReduced(g: seq<Vec>, l: seq<Vec>, e: seq<Vec>, l': seq<Vec>, e': seq<Vec>, k: nat, r: nat)
    requires Reduced(g, l, e, k, r) && r < k && l[r][r] && Pivoted(l, e, l', e', k, r)
    ensures Reduced(g, l', e', k, r + 1)
  {
    hide Dot, LeftFaithful, RightFaithful, Recorded;
    PivotLeft(l, e, l', e', k, r);
    PivotRight(l, e, l', e', k, r);
    forall x: Vec | |x| == k
      ensures Recorded(g, l', e', k, r + 1, x)
    {
      PivotRecorded(g, l, e, l', e', k, r, x);
    }
  }

  /** The same step on whole matrices. */
  ghost function Cleared(l: seq<Vec>, k: nat, r: nat): (l': seq<Vec>)
    requires IsMatrix(l, k) && r < k <= |l|
    ensures |l'| == |l| && IsMatrix(l', k)
  {
    seq(|l|, i requires 0 <= i < |l| => if i != r && l[i][r] then Add(l[i], l[r]) else l[i])
  }

  ghost function Marked(l: seq<Vec>, e: seq<Vec>, k: nat, r: nat): (e': seq<Vec>)
    requires IsMatrix(l, k) && IsMatrix(e, k) && |l| == |e| && r < k <= |l|
    ensures |e'| == |e| && IsMatrix(e', k)
  {
    var mark := Add(e[r], Unit(k, r));
    seq(|e|, i requires 0 <= i < |e| => if i == r then mark else if l[i][r] then Add(e[i], mark) else e[i])
  }

  lemma ClearedIsPivoted(l: seq<Vec>, e: seq<Vec>, k: nat, r: nat)
    requires IsMatrix(l, k) && IsMatrix(e, k) && |l| == |e| && r < k <= |l|
    ensures Pivoted(l, e, Cleared(l, k, r), Marked(l, e, k, r), k, r)
  {
    hide Add, Unit;
  }

  // ----- when the first k rows are the ones selected

  /** Only the zero vector is annihilated by the first k rows. */
  ghost predicate Independent(g: seq<Vec>, k: nat)
    requires IsMatrix(g, k) && k <= |g|
  {
    forall v: Vec :: |v| == k && Kills(g[..k], k, v) ==> v == Zero(k)
  }

  lemma {:induction false} PivotFromAtMost(g: seq<Vec>, k: nat, r: nat, j: nat, i: nat)
    requires IsMatrix(g, k) && r < k && r <= j <= i < |g| && Extends(g, k, r, i)
    ensures PivotFrom(g, k, r, j) <= i && Extends(g, k, r, PivotFrom(g, k, r, j))
    decreases i - j
  {
    hide Extends;
    if Extends(g, k, r, j) {
    } else {
      PivotFromAtMost(g, k, r, j + 1, i);
    }
  }

  /** The search ends at a row with a one in column r. */
  lemma PivotFound(g: seq<Vec>, l: seq<Vec>, e: seq<Vec>, k: nat, r: nat)
    requires Reduced(g, l, e, k, r) && r < k
    ensures Extends(g, k, r, PivotFrom(g, k, r, r)) && l[PivotFrom(g, k, r, r)][r]
  {
    PivotExists(g, l, e, k, r);
    var i :| r <= i < |l| && l[i][r];
    hide Reduced, Extends, PivotFrom;
    PivotExtends(g, l, e, k, r, i);
    PivotFromAtMost(g, k, r, r, i);
    PivotExtends(g, l, e, k, r, PivotFrom(g, k, r, r));
  }

  /** While the first k rows are independent the search ends among them. */
  lemma PivotWithin(g: seq<Vec>, l: seq<Vec>, e: seq<Vec>, k: nat, r: nat)
    requires Reduced(g, l, e, k, r) && r < k && Independent(g, k)
    ensures PivotFrom(g, k, r, r) < k
  {
    hide Dot, LeftFaithful, RightFaithful, Recorded, Extends, PivotFrom;
    if forall i :: r <= i < k ==> !l[i][r] {
      NotIndependent(g, l, e, k, r);
    }
    var i :| r <= i < k && l[i][r];
    PivotExtends(g, l, e, k, r, i);
    PivotFromAtMost(g, k, r, r, i);
  }

  lemma NotIndependent(g: seq<Vec>, l: seq<Vec>, e: seq<Vec>, k: nat, r: nat)
    requires Reduced(g, l, e, k, r) && r < k && forall i :: r <= i < k ==> !l[i][r]
    ensures !Independent(g, k)
  {
    hide Dot, LeftFaithful, RightFaithful, Recorded;
    var v := NullVector(l, k, r);
    forall i | 0 <= i < r
      ensures !Dot(l[..r][i], v)
    {
      DotPair(l[i], v, i, r);
    }
    KilledByOriginals(g, l, e, k, r, v);
    forall i | 0 <= i < k
      ensures !Dot(g[..k][i], v)
    {
      if i < r {
        assert g[..r][i] == g[i];
      } else {
        DotNothing(l[i], v);
        SeenUnchanged(g, l, e, k, r, i, v);
      }
    }
    assert v[r] && !Zero(k)[r];
  }

  /** Rows that include all rows of an independent matrix are independent. */
  lemma IndependentAmong(g: seq<Vec>, h: seq<Vec>, k: nat)
    requires IsMatrix(g, k) && IsMatrix(h, k) && k <= |g| && k <= |h| && Independent(g, k)
    requires forall i :: 0 <= i < k ==> g[i] in h[..k]
    ensures Independent(h, k)
  {
    hide Dot;
    forall v: Vec | |v| == k && Kills(h[..k], k, v)
      ensures v == Zero(k)
    {
      forall i | 0 <= i < k
        ensures !Dot(g[..k][i], v)
      {
        var j :| 0 <= j < k && h[..k][j] == g[i];
      }
      assert Kills(g[..k], k, v);
    }
  }

  // ----- before the first pivot and after the last

  /** Every unit vector is among the rows. */
  ghost predicate Systematic(g: seq<Vec>, k: nat) {
    IsMatrix(g, k) && forall j :: 0 <= j < k ==> Unit(k, j) in g
  }

  lemma StartsReduced(g: seq<Vec>, e: seq<Vec>, k: nat)
    requires Systematic(g, k) && k <= |g| == |e| && forall i :: 0 <= i < |e| ==> e[i] == Zero(k)
    ensures Reduced(g, g, e, k, 0)
  {
    hide Dot;
    forall v: Vec | |v| == k && Kills(g, k, v)
      ensures v == Zero(k)
    {
      forall j | 0 <= j < k
        ensures !v[j]
      {
        var i :| 0 <= i < |g| && g[i] == Unit(k, j);
        DotUnit(k, j, v);
      }
    }
    forall x: Vec | |x| == k
      ensures Recorded(g, g, e, k, 0, x)
    {
      var y := Apply(g[..k], x);
      forall i | 0 <= i < |g|
        ensures RowRecorded(i >= 0 && Dot(g[i], x), g[i], e[i], x, y)
      {
        DotNothing(e[i], y);
      }
    }
  }

  /** The first k rows of the right half are the two-sided inverse of the first k original rows. */
  ghost predicate Inverts(g: seq<Vec>, inverse: seq<Vec>, k: nat)
    requires k <= |g| && IsMatrix(g, k) && |inverse| == k && IsMatrix(inverse, k)
  {
    && (forall x: Vec :: |x| == k ==> Apply(inverse, Apply(g[..k], x)) == x)
    && (forall y: Vec :: |y| == k ==> Apply(g[..k], Apply(inverse, y)) == y)
  }

  lemma LeftInverse(g: seq<Vec>, l: seq<Vec>, e: seq<Vec>, k: nat, x: Vec)
    requires Reduced(g, l, e, k, k) && |x| == k
    ensures Apply(e[..k], Apply(g[..k], x)) == x
  {
    hide Dot, LeftFaithful, RightFaithful;
    var y := Apply(g[..k], x);
    assert Recorded(g, l, e, k, k, x);
    forall i | 0 <= i < k
      ensures Dot(e[i], y) == x[i]
    {
      assert RowRecorded(false, l[i], e[i], x, y);
      DotSingle(l[i], x, i);
    }
  }

  lemma RightInverse(g: seq<Vec>, l: seq<Vec>, e: seq<Vec>, k: nat, y: Vec)
    requires Reduced(g, l, e, k, k) && |y| == k
    ensures Apply(g[..k], Apply(e[..k], y)) == y
  {
    hide Dot, LeftFaithful, Recorded;
    var x := Apply(e[..k], y);
    var back := Apply(g[..k], x);
    LeftInverse(g, l, e, k, x);
    var z := Add(back, y);
    forall i | 0 <= i < k
      ensures !Dot(e[..k][i], z)
    {
      DotAddRight(e[i], back, y);
      assert Apply(e[..k], back)[i] == x[i] == Dot(e[..k][i], y);
    }
    assert Kills(e[..k], k, z);
    assert forall c :: 0 <= c < k ==> !z[c];
    assert forall c :: 0 <= c < k ==> z[c] == (back[c] != y[c]);
  }

  lemma EndsInverted(g: seq<Vec>, l: seq<Vec>, e: seq<Vec>, k: nat)
    requires Reduced(g, l, e, k, k)
    ensures Inverts(g, e[..k], k)
  {
    hide LeftFaithful, RightFaithful, Recorded, UnitColumns, EmptyColumns, Dot;
    forall x: Vec | |x| == k
      ensures Apply(e[..k], Apply(g[..k], x)) == x
    {
      LeftInverse(g, l, e, k, x);
    }
    forall y: Vec | |y| == k
      ensures Apply(g[..k], Apply(e[..k], y)) == y
    {
      RightInverse(g, l, e, k, y);
    }
  }

  lemma KilledProduct(rows: seq<Vec>, k: nat, v: Vec)
    requires IsMatrix(rows, k) && |v| == k && Kills(rows, k, v)
    ensures Apply(rows, v) == Zero(|rows|)
  {
    hide Dot;
  }

  lemma ZeroKilled(rows: seq<Vec>, k: nat)
    requires IsMatrix(rows, k)
    ensures Kills(rows, k, Zero(k))
  {
    forall i | 0 <= i < |rows|
      ensures !Dot(rows[i], Zero(k))
    {
      DotNothing(rows[i], Zero(k));
    }
  }

  lemma KilledIsZero(g: seq<Vec>, inverse: seq<Vec>, k: nat, v: Vec)
    requires k <= |g| && IsMatrix(g, k) && |inverse| == k && IsMatrix(inverse, k) && Inverts(g, inverse, k)
    requires |v| == k && Kills(g[..k], k, v)
    ensures v == Zero(k)
  {
    KilledProduct(g[..k], k, v);
    ZeroKilled(g[..k], k);
    KilledProduct(g[..k], k, Zero(k));
    hide Kills, Apply, Zero, Dot;
    assert Apply(inverse, Apply(g[..k], v)) == v;
    assert Apply(inverse, Apply(g[..k], Zero(k))) == Zero(k);
  }

  lemma ReducedShape(g: seq<Vec>, l: seq<Vec>, e: seq<Vec>, k: nat, r: nat)
    requires Reduced(g, l, e, k, r)
    ensures Shaped(g, l, e, k, r)
  {
    hide LeftFaithful, RightFaithful, Recorded;
  }

  /** So the rows the elimination ends with are independent. */
  lemma SelectedIndependent(g: seq<Vec>, l: seq<Vec>, e: seq<Vec>, k: nat)
    requires Reduced(g, l, e, k, k)
    ensures Independent(g, k)
  {
    hide Reduced, Inverts, Dot, Kills;
    ReducedShape(g, l, e, k, k);
    EndsInverted(g, l, e, k);
    var inverse := e[..k];
    forall v: Vec | |v| == k && Kills(g[..k], k, v)
      ensures v == Zero(k)
    {
      KilledIsZero(g, inverse, k, v);
    }
  }
}
