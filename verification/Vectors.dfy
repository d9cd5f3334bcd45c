/** Vectors and matrices over the field. */
module Vectors {
  import opened Field
  import opened FieldLaws

  type Vector = seq<gf>

  /** A matrix is the sequence of its rows. */
  type Matrix = seq<Vector>

  ghost function Dot(a: Vector, x: Vector): gf
    requires |a| == |x|
    decreases |a|
  {
    if a == [] then 0
    else
      var n := |a| - 1;
      Add(Dot(a[..n], x[..n]), Mul(a[n], x[n]))
  }

  function Scale(c: gf, a: Vector): (r: Vector)
    ensures |r| == |a| && forall i :: 0 <= i < |a| ==> r[i] == Mul(c, a[i])
  {
    seq(|a|, i requires 0 <= i < |a| => Mul(c, a[i]))
  }

  function Plus(a: Vector, b: Vector): (r: Vector)
    requires |a| == |b|
    ensures |r| == |a| && forall i :: 0 <= i < |a| ==> r[i] == Add(a[i], b[i])
  {
    seq(|a|, i requires 0 <= i < |a| => Add(a[i], b[i]))
  }

  function Zeros(n: nat): (r: Vector)
    ensures |r| == n && forall i :: 0 <= i < n ==> r[i] == 0
  {
    seq(n, _ => 0)
  }

  lemma AllZero(x: Vector)
    requires forall i :: 0 <= i < |x| ==> x[i] == 0
    ensures x == Zeros(|x|)
  {
  }

  function Unit(n: nat, c: nat): (r: Vector)
    requires c < n
    ensures |r| == n && forall i :: 0 <= i < n ==> r[i] == if i == c then 1 else 0
  {
    seq(n, i => if i == c then 1 else 0)
  }

  function Swap<T>(a: seq<T>, i: nat, j: nat): (r: seq<T>)
    requires i < |a| && j < |a|
    ensures |r| == |a| && r[i] == a[j] && r[j] == a[i]
    ensures forall n: nat :: n < |a| && n != i && n != j ==> r[n] == a[n]
  {
    a[i := a[j]][j := a[i]]
  }

  // ---- Dot is linear

  lemma DotStep(a: Vector, x: Vector)
    requires |a| == |x| > 0
    ensures var n := |a| - 1; Dot(a, x) == Add(Dot(a[..n], x[..n]), Mul(a[n], x[n]))
  {
  }

  lemma DotNil()
    ensures Dot([], []) == 0
  {
  }

  lemma {:induction false} DotComm(a: Vector, x: Vector)
    requires |a| == |x|
    ensures Dot(a, x) == Dot(x, a)
    decreases |a|
  {
    hide *;
    if a == [] {
      DotNil();
    } else {
      var n := |a| - 1;
      DotStep(a, x);
      DotStep(x, a);
      DotComm(a[..n], x[..n]);
      MulComm(a[n], x[n]);
    }
  }

  lemma {:induction false} DotPlus(a: Vector, x: Vector, y: Vector)
    requires |a| == |x| == |y|
    ensures Dot(a, Plus(x, y)) == Add(Dot(a, x), Dot(a, y))
    decreases |a|
  {
    hide *;
    if a == [] {
      assert Plus(x, y) == [];
      DotNil();
      AddFacts(0, 0);
    } else {
      var n := |a| - 1;
      DotStep(a, Plus(x, y));
      DotStep(a, x);
      DotStep(a, y);
      assert Plus(x, y)[..n] == Plus(x[..n], y[..n]);
      DotPlus(a[..n], x[..n], y[..n]);
      MulAddRight(a[n], x[n], y[n]);
      AddSwap(Dot(a[..n], x[..n]), Dot(a[..n], y[..n]), Mul(a[n], x[n]), Mul(a[n], y[n]));
    }
  }

  lemma {:induction false} DotScale(a: Vector, c: gf, x: Vector)
    requires |a| == |x|
    ensures Dot(a, Scale(c, x)) == Mul(c, Dot(a, x))
    decreases |a|
  {
    hide *;
    if a == [] {
      assert Scale(c, x) == [];
      DotNil();
      MulZero(c);
    } else {
      var n := |a| - 1;
      DotStep(a, Scale(c, x));
      DotStep(a, x);
      assert Scale(c, x)[..n] == Scale(c, x[..n]);
      DotScale(a[..n], c, x[..n]);
      MulAddRight(c, Dot(a[..n], x[..n]), Mul(a[n], x[n]));
      MulSwap(a[n], c, x[n]);
    }
  }

  lemma MulSwap(a: gf, b: gf, c: gf)
    ensures Mul(a, Mul(b, c)) == Mul(b, Mul(a, c))
  {
    hide *;
    MulAssoc(a, b, c);
    MulAssoc(b, a, c);
    MulComm(a, b);
  }

  lemma DotPlusLeft(a: Vector, b: Vector, x: Vector)
    requires |a| == |x| == |b|
    ensures Dot(Plus(a, b), x) == Add(Dot(a, x), Dot(b, x))
  {
    hide *;
    DotComm(Plus(a, b), x);
    DotComm(a, x);
    DotComm(b, x);
    DotPlus(x, a, b);
  }

  lemma DotScaleLeft(c: gf, a: Vector, x: Vector)
    requires |a| == |x|
    ensures Dot(Scale(c, a), x) == Mul(c, Dot(a, x))
  {
    hide *;
    DotComm(Scale(c, a), x);
    DotComm(a, x);
    DotScale(x, c, a);
  }

  /** The place at c contributes its product, and nothing else about that place matters. */
  lemma {:induction false} DotPut(a: Vector, x: Vector, c: nat, w: gf, z: gf)
    requires |a| == |x| && c < |a|
    ensures Dot(a[c := w], x[c := z]) == Add(Dot(a[c := 0], x), Mul(w, z))
    decreases |a|
  {
    hide *;
    var n := |a| - 1;
    DotStep(a[c := w], x[c := z]);
    DotStep(a[c := 0], x);
    if c == n {
      assert a[c := w][..n] == a[..n] == a[c := 0][..n];
      assert x[c := z][..n] == x[..n];
      MulZero(x[n]);
      AddFacts(Dot(a[..n], x[..n]), 0);
    } else {
      assert a[c := w][..n] == a[..n][c := w];
      assert a[c := 0][..n] == a[..n][c := 0];
      assert x[c := z][..n] == x[..n][c := z];
      DotPut(a[..n], x[..n], c, w, z);
      AddRotate(Dot(a[..n][c := 0], x[..n]), Mul(w, z), Mul(a[n], x[n]));
    }
  }

  lemma AddRotate(a: gf, b: gf, c: gf)
    ensures Add(Add(a, b), c) == Add(Add(a, c), b)
  {
  }

  lemma DotPut1(a: Vector, x: Vector, c: nat)
    requires |a| == |x| && c < |a|
    ensures Dot(a, x) == Add(Dot(a[c := 0], x), Mul(a[c], x[c]))
  {
    hide *;
    assert a[c := a[c]] == a && x[c := x[c]] == x;
    DotPut(a, x, c, a[c], x[c]);
  }

  lemma {:induction false} DotZeros(x: Vector)
    ensures Dot(Zeros(|x|), x) == 0 && Dot(x, Zeros(|x|)) == 0
    decreases |x|
  {
    hide *;
    if x == [] {
      DotNil();
    } else {
      var n := |x| - 1;
      DotStep(Zeros(|x|), x);
      assert Zeros(|x|)[..n] == Zeros(|x[..n]|);
      DotZeros(x[..n]);
      MulZero(x[n]);
      AddFacts(0, 0);
    }
    DotComm(x, Zeros(|x|));
  }

  lemma DotUnit(x: Vector, c: nat)
    requires c < |x|
    ensures Dot(Unit(|x|, c), x) == x[c] && Dot(x, Unit(|x|, c)) == x[c]
  {
    hide *;
    var e := Unit(|x|, c);
    DotPut1(e, x, c);
    assert e[c := 0] == Zeros(|x|);
    DotZeros(x);
    MulOne(x[c]);
    AddFacts(x[c], 0);
    DotComm(e, x);
  }

  lemma DotSwap(a: Vector, x: Vector, i: nat, j: nat)
    requires |a| == |x| && i < |a| && j < |a|
    ensures Dot(Swap(a, i, j), Swap(x, i, j)) == Dot(a, x)
  {
    hide Dot, Mul, Add;
    if i == j {
      assert Swap(a, i, j) == a && Swap(x, i, j) == x;
    } else {
      var a', x' := a[i := a[j]], x[i := x[j]];
      DotPut(a', x', j, a[i], x[i]);
      DotPut(a'[j := 0], x, i, a[j], x[j]);
      assert a'[j := 0] == a[j := 0][i := a[j]];
      assert a'[j := 0][i := 0] == a[j := 0][i := 0];
      assert a'[j := 0][i := a[j]] == a'[j := 0];
      DotPut1(a, x, j);
      DotPut1(a[j := 0], x, i);
      assert a[j := 0][i] == a[i];
      AddRotate(Dot(a[j := 0][i := 0], x), Mul(a[i], x[i]), Mul(a[j], x[j]));
    }
  }

  // ---- Matrices

  ghost predicate Square(m: Matrix, k: nat) {
    |m| == k && forall r :: 0 <= r < k ==> |m[r]| == k
  }

  /** m maps x to y. */
  ghost predicate Solves(m: Matrix, x: Vector, y: Vector)
    requires |m| == |y| && forall r :: 0 <= r < |m| ==> |m[r]| == |x|
  {
    forall r :: 0 <= r < |m| ==> Dot(m[r], x) == y[r]
  }

  function Column(m: Matrix, c: nat): (x: Vector)
    requires forall r :: 0 <= r < |m| ==> c < |m[r]|
    ensures |x| == |m| && forall r :: 0 <= r < |m| ==> x[r] == m[r][c]
  {
    seq(|m|, r requires 0 <= r < |m| => m[r][c])
  }

  /** The products of b and m are the identity, on both sides. */
  ghost predicate IsInverse(b: Matrix, m: Matrix, k: nat)
    requires Square(b, k) && Square(m, k)
  {
    && (forall i, j :: 0 <= i < k && 0 <= j < k ==> Dot(b[i], Column(m, j)) == if i == j then 1 else 0)
    && (forall i, j :: 0 <= i < k && 0 <= j < k ==> Dot(m[i], Column(b, j)) == if i == j then 1 else 0)
  }

  ghost predicate Invertible(m: Matrix, k: nat)
    requires Square(m, k)
  {
    exists b: Matrix :: Square(b, k) && IsInverse(b, m, k)
  }

  /** m maps some nonzero vector to zero. */
  ghost predicate Singular(m: Matrix, k: nat)
    requires Square(m, k)
  {
    exists x: Vector :: |x| == k && x != Zeros(k) && Solves(m, x, Zeros(k))
  }

  lemma UnitColumn(m: Matrix, k: nat, c: nat)
    requires Square(m, k) && c < k
    ensures Solves(m, Unit(k, c), Column(m, c))
  {
    hide Dot, Mul, Add;
    forall r | 0 <= r < k ensures Dot(m[r], Unit(k, c)) == Column(m, c)[r] {
      DotUnit(m[r], c);
    }
  }

  /** Applying m after a combination of vectors is combining what m makes of them. */
  lemma {:induction false} DotDot(a: Vector, m: Matrix, x: Vector, k: nat)
    requires |a| == |m| && |x| == k && forall r :: 0 <= r < |m| ==> |m[r]| == k
    ensures Dot(a, Apply(m, x)) == Dot(Combine(a, m, k), x)
    decreases |a|
  {
    hide *;
    if a == [] {
      CombineNil(k);
      assert Apply(m, x) == [];
      DotNil();
      DotZeros(x);
    } else {
      var n := |a| - 1;
      DotStep(a, Apply(m, x));
      assert Apply(m, x)[..n] == Apply(m[..n], x);
      DotDot(a[..n], m[..n], x, k);
      CombineStep(a, m, k);
      DotPlusLeft(Combine(a[..n], m[..n], k), Scale(a[n], m[n]), x);
      DotScaleLeft(a[n], m[n], x);
    }
  }

  ghost function Apply(m: Matrix, x: Vector): (y: Vector)
    requires forall r :: 0 <= r < |m| ==> |m[r]| == |x|
    ensures |y| == |m| && forall r :: 0 <= r < |m| ==> y[r] == Dot(m[r], x)
  {
    seq(|m|, r requires 0 <= r < |m| => Dot(m[r], x))
  }

  /** The sum of the rows of m, weighted by a. */
  ghost function Combine(a: Vector, m: Matrix, k: nat): (s: Vector)
    requires |a| == |m| && forall r :: 0 <= r < |m| ==> |m[r]| == k
    ensures |s| == k
    decreases |a|
  {
    if a == [] then Zeros(k)
    else
      var n := |a| - 1;
      Plus(Combine(a[..n], m[..n], k), Scale(a[n], m[n]))
  }

  lemma CombineNil(k: nat)
    ensures Combine([], [], k) == Zeros(k)
  {
  }

  lemma CombineStep(a: Vector, m: Matrix, k: nat)
    requires |a| == |m| > 0 && forall r :: 0 <= r < |m| ==> |m[r]| == k
    ensures var n := |a| - 1; Combine(a, m, k) == Plus(Combine(a[..n], m[..n], k), Scale(a[n], m[n]))
  {
  }

  lemma {:induction false} CombineColumns(a: Vector, m: Matrix, k: nat, c: nat)
    requires |a| == |m| && c < k && forall r :: 0 <= r < |m| ==> |m[r]| == k
    ensures Combine(a, m, k)[c] == Dot(a, Column(m, c))
    decreases |a|
  {
    hide *;
    if a == [] {
      CombineNil(k);
      assert Column(m, c) == [];
      DotNil();
    } else {
      var n := |a| - 1;
      CombineStep(a, m, k);
      CombineColumns(a[..n], m[..n], k, c);
      DotStep(a, Column(m, c));
      assert Column(m, c)[..n] == Column(m[..n], c);
    }
  }

  /** No matrix is both. */
  lemma SingularNotInvertible(m: Matrix, k: nat)
    requires Square(m, k)
    ensures !(Singular(m, k) && Invertible(m, k))
  {
    hide Dot, Combine, Column, Mul, Add;
    if Singular(m, k) && Invertible(m, k) {
      var x: Vector :| |x| == k && x != Zeros(k) && Solves(m, x, Zeros(k));
      var b: Matrix :| Square(b, k) && IsInverse(b, m, k);
      forall i | 0 <= i < k ensures x[i] == 0 {
        DotDot(b[i], m, x, k);
        assert Apply(m, x) == Zeros(k);
        DotZeros(b[i]);
        assert Combine(b[i], m, k) == Unit(k, i) by {
          forall j | 0 <= j < k ensures Combine(b[i], m, k)[j] == Unit(k, i)[j] {
            CombineColumns(b[i], m, k, j);
          }
        }
        DotUnit(x, i);
      }
      AllZero(x);
    }
  }
}
