/** Gauss-Jordan inversion in place, with full pivoting, as invert_mat of rs.c does it. */
module Inversion {
  import opened Field
  import opened FieldLaws
  import opened Vectors

  // ---- Exchanging one argument of a linear system with one of its results

  /** a in the places of pivots, b elsewhere. */
  ghost function Mix(pivots: set<nat>, a: Vector, b: Vector): (m: Vector)
    requires |a| == |b|
    ensures |m| == |a| && forall i: nat :: i < |a| ==> m[i] == if i in pivots then a[i] else b[i]
  {
    seq(|a|, i requires 0 <= i < |a| => if i in pivots then a[i] else b[i])
  }

  /** Mid-way, m maps x to y exactly if b maps the results at the pivots and the other arguments to
      the arguments at the pivots and the other results. */
  ghost predicate Tableau(m: Matrix, b: Matrix, pivots: set<nat>, k: nat)
    requires Square(m, k) && Square(b, k)
  {
    forall x: Vector, y: Vector | |x| == k && |y| == k ::
      Solves(m, x, y) <==> Solves(b, Mix(pivots, y, x), Mix(pivots, x, y))
  }

  /** The pivot row with its pivot replaced by 1, divided by the pivot. */
  ghost function PivotRow(row: Vector, c: nat): (r: Vector)
    requires c < |row|
    ensures |r| == |row|
  {
    Scale(Inverse(row[c]), row[c := 1])
  }

  ghost function Eliminated(row: Vector, c: nat, pivotRow: Vector): (r: Vector)
    requires c < |row| == |pivotRow|
    ensures |r| == |row|
  {
    Plus(row[c := 0], Scale(row[c], pivotRow))
  }

  ghost function Exchanged(b: Matrix, c: nat, k: nat): (b': Matrix)
    requires Square(b, k) && c < k
    ensures Square(b', k)
  {
    var p := PivotRow(b[c], c);
    seq(k, r requires 0 <= r < k => if r == c then p else Eliminated(b[r], c, p))
  }

  lemma PivotRowSolves(row: Vector, c: nat, u: Vector, v: gf)
    requires c < |row| == |u| && row[c] != 0
    ensures Dot(row, u) == v <==> Dot(PivotRow(row, c), u[c := v]) == u[c]
  {
    hide *;
    var p := row[c];
    var rest := Dot(row[c := 0], u);
    DotPut1(row, u, c);
    PivotRowIs(row, c);
    DotScaleLeft(Inverse(p), row[c := 1], u[c := v]);
    DotPut(row, u, c, 1, v);
    MulOne(v);
    Divide(p, rest, u[c], v);
  }

  lemma PivotRowIs(row: Vector, c: nat)
    requires c < |row|
    ensures PivotRow(row, c) == Scale(Inverse(row[c]), row[c := 1])
  {
  }

  lemma Divide(p: gf, rest: gf, u: gf, v: gf)
    requires p != 0
    ensures Add(rest, Mul(p, u)) == v <==> Mul(Inverse(p), Add(rest, v)) == u
  {
    hide *;
    var i := Inverse(p);
    var s := Add(rest, v);
    Move(rest, Mul(p, u), v);
    assert Add(rest, Mul(p, u)) == v <==> Mul(p, u) == s;
    MulAssoc(p, i, s);
    MulAssoc(i, p, u);
    MulOne(s);
    MulOne(u);
  }

  lemma Move(a: gf, b: gf, c: gf)
    ensures Add(a, b) == c <==> b == Add(a, c)
  {
    hide *;
    AddFacts(a, b);
    AddFacts(a, c);
    AddAssoc(a, a, b);
    AddAssoc(a, a, c);
    AddFacts(b, 0);
    AddFacts(c, 0);
  }

  lemma EliminatedSolves(row: Vector, c: nat, p: Vector, u: Vector, w: gf)
    requires c < |row| == |u| == |p| && Dot(p, u[c := w]) == u[c]
    ensures Dot(Eliminated(row, c, p), u[c := w]) == Dot(row, u)
  {
    hide *;
    var u' := u[c := w];
    EliminatedIs(row, c, p);
    DotPlusLeft(row[c := 0], Scale(row[c], p), u');
    DotScaleLeft(row[c], p, u');
    DotPut1(row, u, c);
    DotPut(row, u, c, 0, w);
    MulZero(w);
    AddFacts(Dot(row[c := 0], u), 0);
  }

  lemma EliminatedIs(row: Vector, c: nat, p: Vector)
    requires c < |row| == |p|
    ensures Eliminated(row, c, p) == Plus(row[c := 0], Scale(row[c], p))
  {
  }

  /** One elimination step exchanges u[c] and v[c]. */
  lemma ExchangeSolves(b: Matrix, c: nat, k: nat, u: Vector, v: Vector)
    requires Square(b, k) && c < k && |u| == k && |v| == k && b[c][c] != 0
    ensures Solves(b, u, v) <==> Solves(Exchanged(b, c, k), u[c := v[c]], v[c := u[c]])
  {
    hide Dot, PivotRow, Eliminated, Mul, Add;
    var b', u', v' := Exchanged(b, c, k), u[c := v[c]], v[c := u[c]];
    PivotRowSolves(b[c], c, u, v[c]);
    if Dot(b'[c], u') == u[c] {
      forall r | 0 <= r < k && r != c ensures Dot(b'[r], u') == Dot(b[r], u) {
        EliminatedSolves(b[r], c, b'[c], u, v[c]);
      }
      if Solves(b', u', v') {
        forall r | 0 <= r < k ensures Dot(b[r], u) == v[r] {
          assert Dot(b'[r], u') == v'[r];
        }
      }
    } else {
      assert v'[c] == u[c];
      assert Dot(b[c], u) != v[c];
    }
  }

  lemma MixExchange(pivots: set<nat>, c: nat, x: Vector, y: Vector)
    requires c !in pivots && c < |x| == |y|
    ensures Mix(pivots + {c}, y, x) == Mix(pivots, y, x)[c := Mix(pivots, x, y)[c]]
  {
  }

  lemma ExchangeTableau(m: Matrix, b: Matrix, pivots: set<nat>, c: nat, k: nat)
    requires Square(m, k) && Square(b, k) && Tableau(m, b, pivots, k)
    requires c < k && c !in pivots && b[c][c] != 0
    ensures Tableau(m, Exchanged(b, c, k), pivots + {c}, k)
  {
    hide Solves, Exchanged;
    var b' := Exchanged(b, c, k);
    forall x: Vector, y: Vector | |x| == k && |y| == k
      ensures Solves(m, x, y) <==> Solves(b', Mix(pivots + {c}, y, x), Mix(pivots + {c}, x, y))
    {
      MixExchange(pivots, c, x, y);
      MixExchange(pivots, c, y, x);
      ExchangeSolves(b, c, k, Mix(pivots, y, x), Mix(pivots, x, y));
    }
  }

  lemma SwapTableau(m: Matrix, b: Matrix, pivots: set<nat>, i: nat, j: nat, k: nat)
    requires Square(m, k) && Square(b, k) && Tableau(m, b, pivots, k)
    requires i < k && j < k && i !in pivots && j !in pivots
    ensures Square(Swap(m, i, j), k) && Square(Swap(b, i, j), k)
    ensures Tableau(Swap(m, i, j), Swap(b, i, j), pivots, k)
  {
    hide Solves, Swap, Mix;
    var m', b' := Swap(m, i, j), Swap(b, i, j);
    forall x: Vector, y: Vector | |x| == k && |y| == k
      ensures Solves(m', x, y) <==> Solves(b', Mix(pivots, y, x), Mix(pivots, x, y))
    {
      var z := Swap(y, i, j);
      SwapMix(pivots, x, y, i, j);
      SwapRowsSolves(m, x, z, i, j, k);
      SwapRowsSolves(b, Mix(pivots, z, x), Mix(pivots, x, z), i, j, k);
    }
  }

  lemma SwapMix(pivots: set<nat>, x: Vector, y: Vector, i: nat, j: nat)
    requires |x| == |y| && i < |x| && j < |x| && i !in pivots && j !in pivots
    ensures var z := Swap(y, i, j);
            && Swap(z, i, j) == y
            && Mix(pivots, z, x) == Mix(pivots, y, x)
            && Mix(pivots, x, y) == Swap(Mix(pivots, x, z), i, j)
  {
  }

  lemma SwapRowsSolves(m: Matrix, x: Vector, y: Vector, i: nat, j: nat, k: nat)
    requires Square(m, k) && |x| == k && |y| == k && i < k && j < k
    ensures Square(Swap(m, i, j), k)
    ensures Solves(m, x, y) <==> Solves(Swap(m, i, j), x, Swap(y, i, j))
  {
    hide Dot;
    var m', y' := Swap(m, i, j), Swap(y, i, j);
    if Solves(m', x, y') {
      forall r | 0 <= r < k ensures Dot(m[r], x) == y[r] {
        var s := if r == i then j else if r == j then i else r;
        assert Dot(m'[s], x) == y'[s];
      }
    }
  }

  lemma StartTableau(m: Matrix, k: nat)
    requires Square(m, k)
    ensures Tableau(m, m, {}, k)
  {
    hide Solves;
    forall x: Vector, y: Vector | |x| == k && |y| == k
      ensures Solves(m, x, y) <==> Solves(m, Mix({}, y, x), Mix({}, x, y))
    {
      assert Mix({}, y, x) == x && Mix({}, x, y) == y;
    }
  }

  /** b solves for x what m maps x to. */
  ghost predicate Undoes(b: Matrix, m: Matrix, k: nat)
    requires Square(b, k) && Square(m, k)
  {
    forall x: Vector, y: Vector | |x| == k && |y| == k :: Solves(m, x, y) <==> Solves(b, y, x)
  }

  lemma FullTableau(m: Matrix, b: Matrix, pivots: set<nat>, k: nat)
    requires Square(m, k) && Square(b, k) && Tableau(m, b, pivots, k)
    requires forall i: nat | i < k :: i in pivots
    ensures Undoes(b, m, k)
  {
    hide Solves;
    forall x: Vector, y: Vector | |x| == k && |y| == k
      ensures Solves(m, x, y) <==> Solves(b, y, x)
    {
      assert Mix(pivots, y, x) == y && Mix(pivots, x, y) == x;
    }
  }

  lemma UndoesInverse(b: Matrix, m: Matrix, k: nat)
    requires Square(b, k) && Square(m, k) && Undoes(b, m, k)
    ensures IsInverse(b, m, k) && Invertible(m, k) && !Singular(m, k)
  {
    hide Dot;
    forall j: nat | j < k
      ensures Solves(b, Column(m, j), Unit(k, j)) && Solves(m, Column(b, j), Unit(k, j))
    {
      UnitColumn(m, k, j);
      UnitColumn(b, k, j);
    }
    SingularNotInvertible(m, k);
  }

  /** No pivot left: every row without a pivot has only zeros outside the pivots. */
  lemma NoPivotSingular(m: Matrix, b: Matrix, pivots: set<nat>, c: nat, k: nat)
    requires Square(m, k) && Square(b, k) && Tableau(m, b, pivots, k)
    requires c < k && c !in pivots
    requires forall r: nat | r < k && r !in pivots :: b[r][c] == 0
    ensures Singular(m, k)
  {
    hide Solves;
    var u, v := Unit(k, c), Column(b, c);
    UnitColumn(b, k, c);
    var x, y := Mix(pivots, v, u), Mix(pivots, u, v);
    assert Mix(pivots, y, x) == u && Mix(pivots, x, y) == v;
    assert y == Zeros(k);
    assert x[c] == 1;
  }

  lemma SwapSingular(m: Matrix, i: nat, j: nat, k: nat)
    requires Square(m, k) && i < k && j < k && Square(Swap(m, i, j), k) && Singular(Swap(m, i, j), k)
    ensures Singular(m, k)
  {
    hide Solves;
    var x: Vector :| |x| == k && x != Zeros(k) && Solves(Swap(m, i, j), x, Zeros(k));
    assert Swap(Zeros(k), i, j) == Zeros(k);
    SwapRowsSolves(m, x, Zeros(k), i, j, k);
  }

  function SwapColumns(b: Matrix, i: nat, j: nat, k: nat): (b': Matrix)
    requires Square(b, k) && i < k && j < k
    ensures Square(b', k)
  {
    seq(k, r requires 0 <= r < k => Swap(b[r], i, j))
  }

  /** Undoing a row exchange of m is exchanging columns of what undoes it. */
  lemma SwapUndoes(b: Matrix, m: Matrix, i: nat, j: nat, k: nat)
    requires Square(b, k) && Square(m, k) && i < k && j < k
    requires Square(Swap(m, i, j), k) && Undoes(b, Swap(m, i, j), k)
    ensures Undoes(SwapColumns(b, i, j, k), m, k)
  {
    hide Dot;
    var b' := SwapColumns(b, i, j, k);
    forall x: Vector, y: Vector | |x| == k && |y| == k
      ensures Solves(m, x, y) <==> Solves(b', y, x)
    {
      SwapRowsSolves(m, x, y, i, j, k);
      var z := Swap(y, i, j);
      assert Swap(z, i, j) == y;
      assert Solves(b, z, x) <==> Solves(b', y, x) by {
        forall r | 0 <= r < k ensures Dot(b[r], z) == Dot(b'[r], y) {
          DotSwap(b[r], z, i, j);
        }
      }
    }
  }
}
