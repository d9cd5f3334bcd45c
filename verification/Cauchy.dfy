/** Cauchy matrices: entries 1 / (x + y) for points x of the columns and y of the rows. A nonzero
    combination of n columns cannot vanish in n rows. */
module Cauchy {
  import opened Field
  import opened FieldLaws
  import opened Vectors

  ghost function Fractions(xs: Vector, y: gf): (r: Vector)
    ensures |r| == |xs| && forall i :: 0 <= i < |xs| ==> r[i] == Inverse(Add(xs[i], y))
  {
    seq(|xs|, i requires 0 <= i < |xs| => Inverse(Add(xs[i], y)))
  }

  /** The places where x is not zero. */
  ghost function Support(x: Vector): (s: set<nat>) {
    set i: nat | i < |x| && x[i] != 0
  }

  ghost predicate DistinctPoints(xs: Vector) {
    forall i, j :: 0 <= i < j < |xs| ==> xs[i] != xs[j]
  }

  ghost predicate Apart(xs: Vector, ys: Vector) {
    forall i, j :: 0 <= i < |xs| && 0 <= j < |ys| ==> xs[i] != ys[j]
  }

  /** cs with each coefficient multiplied by the distance of its point from z. */
  ghost function Spread(xs: Vector, cs: Vector, z: gf): (r: Vector)
    requires |xs| == |cs|
    ensures |r| == |xs| && forall i :: 0 <= i < |xs| ==> r[i] == Mul(cs[i], Add(z, xs[i]))
  {
    seq(|xs|, i requires 0 <= i < |xs| => Mul(cs[i], Add(z, xs[i])))
  }

  /** cs with each coefficient divided by the distance of its point from y. */
  ghost function Shrink(xs: Vector, cs: Vector, y: gf): (r: Vector)
    requires |xs| == |cs|
    ensures |r| == |xs| && forall i :: 0 <= i < |xs| ==> r[i] == Mul(cs[i], Inverse(Add(xs[i], y)))
  {
    seq(|xs|, i requires 0 <= i < |xs| => Mul(cs[i], Inverse(Add(xs[i], y))))
  }

  ghost function Ones(n: nat): (r: Vector)
    ensures |r| == n && forall i :: 0 <= i < n ==> r[i] == 1
  {
    seq(n, _ => 1)
  }

  lemma AddZero(a: gf, b: gf)
    ensures Add(a, b) == 0 <==> a == b
    ensures Add(a, b) == Add(b, a)
  {
  }

  /** (z + y) / (x + y) = 1 + (z + x) / (x + y) */
  lemma SpreadTerm(c: gf, x: gf, y: gf, z: gf)
    requires x != y
    ensures Mul(Add(z, y), Mul(c, Inverse(Add(x, y)))) == Add(Mul(c, 1), Mul(Mul(c, Add(z, x)), Inverse(Add(x, y))))
  {
    hide *;
    AddZero(x, y);
    var q := Inverse(Add(x, y));
    SplitDistance(z, x, y);
    MulSwap(Add(z, y), c, q);
    MulAddLeft(Add(z, x), Add(x, y), q);
    MulAddRight(c, Mul(Add(z, x), q), 1);
    MulAssoc(c, Add(z, x), q);
    AddFacts(Mul(Mul(c, Add(z, x)), q), Mul(c, 1));
  }

  lemma SplitDistance(z: gf, x: gf, y: gf)
    ensures Add(z, y) == Add(Add(z, x), Add(x, y))
  {
  }

  lemma {:induction false} SpreadSum(xs: Vector, cs: Vector, y: gf, z: gf)
    requires |xs| == |cs| && y !in xs
    ensures Mul(Add(z, y), Dot(cs, Fractions(xs, y)))
         == Add(Dot(cs, Ones(|cs|)), Dot(Spread(xs, cs, z), Fractions(xs, y)))
    decreases |xs|
  {
    hide *;
    if xs == [] {
      assert Fractions(xs, y) == [] && Spread(xs, cs, z) == [] && Ones(0) == [] && cs == [];
      DotNil();
      MulZero(Add(z, y));
      AddFacts(0, 0);
    } else {
      var n := |xs| - 1;
      var fs, ss, ones := Fractions(xs, y), Spread(xs, cs, z), Ones(n + 1);
      assert fs[..n] == Fractions(xs[..n], y) && ss[..n] == Spread(xs[..n], cs[..n], z) && ones[..n] == Ones(n);
      SpreadSum(xs[..n], cs[..n], y, z);
      DotStep(cs, fs);
      DotStep(ss, fs);
      DotStep(cs, ones);
      MulAddRight(Add(z, y), Dot(cs[..n], fs[..n]), Mul(cs[n], fs[n]));
      SpreadTerm(cs[n], xs[n], y, z);
      AddSwap(Dot(cs[..n], ones[..n]), Dot(ss[..n], fs[..n]), Mul(cs[n], ones[n]), Mul(ss[n], fs[n]));
    }
  }

  /** 1 / (x + y) + 1 / (x + w) = (y + w) / (x + y) (x + w) */
  lemma ShrinkTerm(c: gf, x: gf, y: gf, w: gf)
    requires x != y && x != w
    ensures Add(Mul(c, Inverse(Add(x, y))), Mul(c, Inverse(Add(x, w))))
         == Mul(Add(y, w), Mul(Mul(c, Inverse(Add(x, w))), Inverse(Add(x, y))))
  {
    hide *;
    AddZero(x, y);
    AddZero(x, w);
    var a, b := Add(x, y), Add(x, w);
    var ia, ib := Inverse(a), Inverse(b);
    SplitDistance2(x, y, w);
    MulAssoc(c, ib, ia);
    MulSwap(Add(y, w), c, Mul(ib, ia));
    MulAddLeft(a, b, Mul(ib, ia));
    MulSwap(a, ib, ia);
    MulOne(ib);
    MulAssoc(b, ib, ia);
    MulOne(ia);
    MulAddRight(c, ib, ia);
    AddFacts(Mul(c, ib), Mul(c, ia));
  }

  lemma SplitDistance2(x: gf, y: gf, w: gf)
    ensures Add(y, w) == Add(Add(x, y), Add(x, w))
  {
  }

  lemma {:induction false} ShrinkSum(xs: Vector, cs: Vector, y: gf, w: gf)
    requires |xs| == |cs| && y !in xs && w !in xs
    ensures Add(Dot(cs, Fractions(xs, y)), Dot(cs, Fractions(xs, w)))
         == Mul(Add(y, w), Dot(Shrink(xs, cs, w), Fractions(xs, y)))
    decreases |xs|
  {
    hide *;
    if xs == [] {
      assert Fractions(xs, y) == [] && Fractions(xs, w) == [] && Shrink(xs, cs, w) == [] && cs == [];
      DotNil();
      MulZero(Add(y, w));
      AddFacts(0, 0);
    } else {
      var n := |xs| - 1;
      var fs, gs, ss := Fractions(xs, y), Fractions(xs, w), Shrink(xs, cs, w);
      assert fs[..n] == Fractions(xs[..n], y) && gs[..n] == Fractions(xs[..n], w) && ss[..n] == Shrink(xs[..n], cs[..n], w);
      ShrinkSum(xs[..n], cs[..n], y, w);
      DotStep(cs, fs);
      DotStep(cs, gs);
      DotStep(ss, fs);
      MulAddRight(Add(y, w), Dot(ss[..n], fs[..n]), Mul(ss[n], fs[n]));
      ShrinkTerm(cs[n], xs[n], y, w);
      AddSwap(Dot(cs[..n], fs[..n]), Dot(cs[..n], gs[..n]), Mul(cs[n], fs[n]), Mul(cs[n], gs[n]));
    }
  }

  /** Eliminating the last column: if the combination vanishes at y and at w, then so does at y a
      combination of the other columns that is zero only where cs is. */
  lemma Eliminate(xs: Vector, cs: Vector, y: gf, w: gf)
    requires |xs| == |cs| > 0 && y !in xs && w !in xs && y != w
    requires Dot(cs, Fractions(xs, y)) == 0 && Dot(cs, Fractions(xs, w)) == 0
    ensures var n := |xs| - 1;
            Dot(Reduced(xs, cs, w)[..n], Fractions(xs[..n], y)) == 0
  {
    hide *;
    var n := |xs| - 1;
    var z := xs[n];
    var ss, fs, gs := Spread(xs, cs, z), Fractions(xs, y), Fractions(xs, w);
    SpreadSum(xs, cs, y, z);
    SpreadSum(xs, cs, w, z);
    MulZero(Add(z, y));
    MulZero(Add(z, w));
    AddZero(Dot(cs, Ones(|cs|)), Dot(ss, fs));
    AddZero(Dot(cs, Ones(|cs|)), Dot(ss, gs));
    ShrinkSum(xs, ss, y, w);
    AddZero(Dot(ss, fs), Dot(ss, gs));
    AddZero(y, w);
    var rs := Shrink(xs, ss, w);
    ReducedIs(xs, cs, w);
    if Dot(rs, fs) != 0 { MulNonzero(Add(y, w), Dot(rs, fs)); }
    assert rs[n] == 0 by {
      AddZero(z, z);
      MulZero(cs[n]);
      MulZero(gs[n]);
    }
    DotStep(rs, fs);
    MulZero(fs[n]);
    AddFacts(Dot(rs[..n], fs[..n]), 0);
    assert fs[..n] == Fractions(xs[..n], y);
  }

  ghost function Reduced(xs: Vector, cs: Vector, w: gf): (r: Vector)
    requires |xs| == |cs| > 0
    ensures |r| == |xs|
  {
    Shrink(xs, Spread(xs, cs, xs[|xs| - 1]), w)
  }

  lemma ReducedIs(xs: Vector, cs: Vector, w: gf)
    requires |xs| == |cs| > 0
    ensures Reduced(xs, cs, w) == Shrink(xs, Spread(xs, cs, xs[|xs| - 1]), w)
  {
  }

  lemma ReducedZero(xs: Vector, cs: Vector, w: gf, i: nat)
    requires |xs| == |cs| && i < |xs| - 1 && DistinctPoints(xs) && w !in xs
    ensures Reduced(xs, cs, w)[i] == 0 <==> cs[i] == 0
  {
    hide Add, Mul, Inverse;
    var z := xs[|xs| - 1];
    ReducedIs(xs, cs, w);
    var d, e := Add(z, xs[i]), Inverse(Add(xs[i], w));
    AddZero(z, xs[i]);
    AddZero(xs[i], w);
    if cs[i] == 0 {
      MulZero(d);
      MulZero(e);
    } else {
      MulNonzero(cs[i], d);
      MulNonzero(Mul(cs[i], d), e);
    }
  }

  /** A combination of columns that vanishes in at least as many rows as it has nonzero
      coefficients has none. */
  lemma {:induction false} Kernel(xs: Vector, cs: Vector, ys: Vector)
    requires |xs| == |cs| && |Support(cs)| <= |ys|
    requires DistinctPoints(xs) && DistinctPoints(ys) && Apart(xs, ys)
    requires forall j :: 0 <= j < |ys| ==> Dot(cs, Fractions(xs, ys[j])) == 0
    ensures cs == Zeros(|cs|)
    decreases |xs|
  {
    hide Dot, Fractions, Reduced, Add, Mul;
    if xs != [] {
      var n := |xs| - 1;
      if cs[n] == 0 {
        assert Support(cs[..n]) == Support(cs);
        forall j | 0 <= j < |ys| ensures Dot(cs[..n], Fractions(xs[..n], ys[j])) == 0 {
          DropZero(xs, cs, ys[j]);
        }
        Kernel(xs[..n], cs[..n], ys);
      } else {
        assert n in Support(cs);
        assert ys != [];
        var m := |ys| - 1;
        var w := ys[m];
        var rs := Reduced(xs, cs, w)[..n];
        forall j | 0 <= j < m ensures Dot(rs, Fractions(xs[..n], ys[..m][j])) == 0 {
          Eliminate(xs, cs, ys[j], w);
        }
        forall i: nat | i < n ensures rs[i] == 0 <==> cs[i] == 0 {
          ReducedZero(xs, cs, w, i);
        }
        assert Support(rs) == Support(cs) - {n};
        Kernel(xs[..n], rs, ys[..m]);
        assert cs[..n] == Zeros(n);
        LastAlone(xs, cs, w);
      }
    }
  }

  lemma DropZero(xs: Vector, cs: Vector, y: gf)
    requires |xs| == |cs| > 0 && cs[|cs| - 1] == 0
    ensures var n := |xs| - 1; Dot(cs[..n], Fractions(xs[..n], y)) == Dot(cs, Fractions(xs, y))
  {
    hide *;
    var n := |xs| - 1;
    var fs := Fractions(xs, y);
    DotStep(cs, fs);
    MulZero(fs[n]);
    AddFacts(Dot(cs[..n], fs[..n]), 0);
    assert fs[..n] == Fractions(xs[..n], y);
  }

  /** A single column never vanishes. */
  lemma LastAlone(xs: Vector, cs: Vector, w: gf)
    requires |xs| == |cs| > 0 && w !in xs && cs[..|cs| - 1] == Zeros(|cs| - 1)
    requires Dot(cs, Fractions(xs, w)) == 0
    ensures cs[|cs| - 1] == 0
  {
    hide *;
    var n := |xs| - 1;
    var fs := Fractions(xs, w);
    DotStep(cs, fs);
    DotZeros(fs[..n]);
    AddFacts(Mul(cs[n], fs[n]), 0);
    AddZero(xs[n], w);
    if cs[n] != 0 { MulNonzero(cs[n], fs[n]); }
  }
}
