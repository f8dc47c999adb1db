/** Vectors and linear maps over the two-element field. */
module Gf2 {

  type Vec = seq<bool>

  ghost function Dot(a: Vec, x: Vec): bool
    requires |a| == |x|
  {
    if a == [] then false
    else
      var n := |a| - 1;
      Dot(a[..n], x[..n]) != (a[n] && x[n])
  }

  function Add(a: Vec, b: Vec): (c: Vec)
    requires |a| == |b|
    ensures |c| == |a| && forall i :: 0 <= i < |c| ==> c[i] == (a[i] != b[i])
  {
    seq(|a|, i requires 0 <= i < |a| => a[i] != b[i])
  }

  function Unit(n: nat, i: nat): (e: Vec)
    ensures |e| == n && forall j :: 0 <= j < n ==> e[j] == (j == i)
  {
    seq(n, j => j == i)
  }

  function Zero(n: nat): (z: Vec)
    ensures |z| == n && forall j :: 0 <= j < n ==> !z[j]
  {
    seq(n, _ => false)
  }

  lemma {:induction false} DotAdd(a: Vec, b: Vec, x: Vec)
    requires |a| == |b| == |x|
    ensures Dot(Add(a, b), x) == (Dot(a, x) != Dot(b, x))
  {
    if a == [] {
    } else {
      var n := |a| - 1;
      DotAdd(a[..n], b[..n], x[..n]);
      assert Add(a, b)[..n] == Add(a[..n], b[..n]);
    }
  }

  lemma {:induction false} DotAddRight(a: Vec, x: Vec, y: Vec)
    requires |a| == |x| == |y|
    ensures Dot(a, Add(x, y)) == (Dot(a, x) != Dot(a, y))
  {
    if a == [] {
    } else {
      var n := |a| - 1;
      DotAddRight(a[..n], x[..n], y[..n]);
      assert Add(x, y)[..n] == Add(x[..n], y[..n]);
    }
  }

  /** Only the places where a is set matter. */
  lemma {:induction false} DotAgree(a: Vec, x: Vec, y: Vec)
    requires |a| == |x| == |y|
    requires forall i :: 0 <= i < |a| && a[i] ==> x[i] == y[i]
    ensures Dot(a, x) == Dot(a, y)
  {
    if a == [] {
    } else {
      var n := |a| - 1;
      DotAgree(a[..n], x[..n], y[..n]);
    }
  }

  lemma {:induction false} DotNothing(a: Vec, x: Vec)
    requires |a| == |x| && forall i :: 0 <= i < |a| ==> !(a[i] && x[i])
    ensures !Dot(a, x)
  {
    if a == [] {
    } else {
      var n := |a| - 1;
      DotNothing(a[..n], x[..n]);
    }
  }

  /** A product with a single place in common. */
  lemma {:induction false} DotSingle(a: Vec, x: Vec, k: nat)
    requires |a| == |x| && k < |a| && forall i :: 0 <= i < |a| && i != k ==> !(a[i] && x[i])
    ensures Dot(a, x) == (a[k] && x[k])
  {
    var n := |a| - 1;
    if k == n {
      DotNothing(a[..n], x[..n]);
    } else {
      DotSingle(a[..n], x[..n], k);
    }
  }

  /** A product with two places in common. */
  lemma {:induction false} DotPair(a: Vec, x: Vec, k: nat, l: nat)
    requires |a| == |x| && k < l < |a| && forall i :: 0 <= i < |a| && i != k && i != l ==> !(a[i] && x[i])
    ensures Dot(a, x) == ((a[k] && x[k]) != (a[l] && x[l]))
  {
    var n := |a| - 1;
    if l == n {
      DotSingle(a[..n], x[..n], k);
    } else {
      DotPair(a[..n], x[..n], k, l);
    }
  }

  lemma NonzeroHasOne(v: Vec)
    ensures v != Zero(|v|) <==> exists i :: 0 <= i < |v| && v[i]
  {
    if forall i :: 0 <= i < |v| ==> !v[i] {
      assert v == Zero(|v|);
    }
  }

  lemma DotUnit(n: nat, i: nat, x: Vec)
    requires |x| == n && i < n
    ensures Dot(Unit(n, i), x) == x[i]
  {
    DotSingle(Unit(n, i), x, i);
  }

  // ----- matrices as sequences of rows

  ghost predicate IsMatrix(rows: seq<Vec>, width: nat) {
    forall i :: 0 <= i < |rows| ==> |rows[i]| == width
  }

  /** rows * x. */
  ghost function Apply(rows: seq<Vec>, x: Vec): (y: Vec)
    requires IsMatrix(rows, |x|)
    ensures |y| == |rows| && forall i :: 0 <= i < |y| ==> y[i] == Dot(rows[i], x)
  {
    seq(|rows|, i requires 0 <= i < |rows| => Dot(rows[i], x))
  }
}
