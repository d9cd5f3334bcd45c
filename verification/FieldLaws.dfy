/** The bytes with Add and Mul form a field: x generates every nonzero byte, so products are sums
    of logarithms. */
module FieldLaws {
  import opened Sets
  import opened Field

  // ---- The powers of x repeat after 255 steps and not before

  lemma PowerBack(a: nat, b: nat)
    requires Power(a + b) == Power(b)
    ensures Power(a) == 1
  {
    hide Double;
    ShiftAdd(b, a, 1);
    ShiftInjective(b, Power(a), 1);
  }

  lemma {:induction false} PowerMultiple(g: nat, m: nat)
    requires Power(g) == 1
    ensures Power(g * m) == 1
  {
    if m == 0 {
      ShiftZero(1);
    } else {
      PowerMultiple(g, m - 1);
      assert g * m == g * (m - 1) + g;
      hide *;
      PowerSum(g * (m - 1), g);
    }
  }

  lemma PowerSum(m: nat, n: nat)
    ensures Power(m + n) == Shift(m, Power(n))
  {
    hide Shift;
    ShiftAdd(m, n, 1);
  }

  /** Exponents that give 1 are closed under taking divisors in common. */
  lemma {:induction false} PowerCommonDivisor(a: nat, b: nat) returns (g: nat, p: nat, q: nat)
    requires a > 0 && b > 0 && Power(a) == 1 && Power(b) == 1
    ensures Power(g) == 1 && a == g * p && b == g * q
    decreases a + b
  {
    if a == b {
      g, p, q := a, 1, 1;
    } else if a < b {
      PowerBack(b - a, a);
      g, p, q := PowerCommonDivisor(a, b - a);
      q := p + q;
    } else {
      PowerBack(a - b, b);
      g, p, q := PowerCommonDivisor(a - b, b);
      p := p + q;
    }
  }

  /** A proper divisor of 255 divides 15, 51 or 85. */
  lemma DivisorOf255(g: nat, q: nat) returns (m: nat)
    requires g * q == 255 && q != 1
    ensures g * m == 15 || g * m == 51 || g * m == 85
  {
    if q <= 15 {
      assert q == 0 || q == 2 || q == 3 || q == 4 || q == 5 || q == 6 || q == 7 || q == 8
             || q == 9 || q == 10 || q == 11 || q == 12 || q == 13 || q == 14 || q == 15;
      m := if q == 5 then 1 else if q == 15 then 3 else 1;
    } else {
      SmallFactor(g, q);
      assert g == 0 || g == 1 || g == 2 || g == 3 || g == 4 || g == 5 || g == 6 || g == 7 || g == 8
             || g == 9 || g == 10 || g == 11 || g == 12 || g == 13 || g == 14 || g == 15;
      m := 1;
      if g > 0 { m := 15 / g; }
    }
  }

  lemma FactorAtLeast(g: nat, q: nat)
    ensures g >= 16 ==> g * q >= 16 * q
  {
  }

  lemma SmallFactor(g: nat, q: nat)
    requires g * q == 255 && q >= 16
    ensures g <= 15
  {
    FactorAtLeast(g, q);
  }

  lemma PowerNotOne(d: nat)
    requires 0 < d < 255
    ensures Power(d) != 1
  {
    hide *;
    PowerValues();
    if Power(d) == 1 {
      var g, p, q := PowerCommonDivisor(d, 255);
      assert q != 1 by { if q == 1 { Larger(p); } }
      var m := DivisorOf255(g, q);
      PowerMultiple(g, m);
      assert false;
    }
  }

  lemma Larger(p: nat)
    ensures 255 * p == 0 || 255 * p >= 255
  {
  }

  lemma PowersDiffer(i: nat, j: nat)
    requires i < j < 255
    ensures Power(i) != Power(j)
  {
    hide *;
    if Power(i) == Power(j) {
      PowerBack(j - i, i);
      PowerNotOne(j - i);
    }
  }

  lemma {:induction false} PowerNonzero(n: nat)
    ensures Power(n) != 0
  {
    hide Double;
    if n > 0 {
      PowerNonzero(n - 1);
      DoubleZero();
      if Power(n) == 0 { DoubleInjective(Power(n - 1), 0); }
    }
  }

  // ---- So every nonzero byte is one of them

  ghost function Powers(n: nat): (s: set<gf>)
  {
    if n == 0 then {} else Powers(n - 1) + {Power(n - 1)}
  }

  lemma {:induction false} PowersMember(n: nat, a: gf) returns (i: nat)
    requires a in Powers(n)
    ensures i < n && Power(i) == a
  {
    hide Power;
    if a == Power(n - 1) { i := n - 1; } else { i := PowersMember(n - 1, a); }
  }

  lemma {:induction false} PowersCount(n: nat)
    requires n <= 255
    ensures |Powers(n)| == n
  {
    hide Power;
    if n > 0 {
      PowersCount(n - 1);
      if Power(n - 1) in Powers(n - 1) {
        var i := PowersMember(n - 1, Power(n - 1));
        PowersDiffer(i, n - 1);
      }
    }
  }

  /** The bytes below n. */
  ghost function Bytes(n: nat): set<gf>
    requires n <= 256
  {
    if n == 0 then {} else Bytes(n - 1) + {(n - 1) as gf}
  }

  lemma {:induction false} BytesCount(n: nat)
    requires n <= 256
    ensures |Bytes(n)| <= n
  {
    if n > 0 { BytesCount(n - 1); }
  }

  lemma {:induction false} BytesMember(n: nat, i: nat)
    requires i < n <= 256
    ensures (i as gf) in Bytes(n)
  {
    if i < n - 1 { BytesMember(n - 1, i); }
  }

  lemma AllBytes(a: gf)
    ensures a in Bytes(256)
  {
    BytesMember(256, a as int);
  }

  lemma EveryByteIsAPower(a: gf) returns (n: nat)
    requires a != 0
    ensures n < 255 && Power(n) == a
  {
    hide Power, Shift, Powers, Bytes;
    if a in Powers(255) {
      n := PowersMember(255, a);
    } else {
      PowersCount(255);
      BytesCount(256);
      var more := Powers(255) + {a, 0};
      if 0 in Powers(255) {
        var z := PowersMember(255, 0);
        PowerNonzero(z);
      }
      assert |more| == 257;
      forall b | b in more ensures b in Bytes(256) { AllBytes(b); }
      SubsetSize(more, Bytes(256));
      assert false;
    }
  }

  lemma HasExponent(a: gf)
    requires a != 0
    ensures exists n: nat :: n < 255 && Power(n) == a
  {
    hide *;
    var n := EveryByteIsAPower(a);
  }

  /** The exponent of a byte. */
  ghost function Log(a: gf): (n: nat)
    requires a != 0
    ensures n < 255 && Power(n) == a
  {
    HasExponent(a);
    var n: nat :| n < 255 && Power(n) == a;
    n
  }

  lemma PowerPeriod(n: nat)
    ensures Power(n + 255) == Power(n)
  {
    hide *;
    PowerValues();
    PowerSum(n, 255);
    PowerSum(n, 0);
    PowerZero();
  }

  lemma PowerZero()
    ensures Power(0) == 1
  {
  }

  // ---- The laws

  lemma MulZero(a: gf)
    ensures Mul(a, 0) == 0 && Mul(0, a) == 0
  {
    hide *;
    MulOneLeft(a);
    AddFacts(0, 0);
    MulAddRight(a, 0, 0);
    AddFacts(Mul(a, 0), Mul(a, 0));
  }

  lemma MulPowers(m: nat, n: nat)
    ensures Mul(Power(m), Power(n)) == Power(m + n)
  {
    hide *;
    MulPower(m, Power(n));
    PowerSum(m, n);
  }

  lemma MulComm(a: gf, b: gf)
    ensures Mul(a, b) == Mul(b, a)
  {
    hide *;
    MulZero(a);
    MulZero(b);
    if a != 0 && b != 0 {
      MulPowers(Log(a), Log(b));
      MulPowers(Log(b), Log(a));
    }
  }

  lemma MulAssoc(a: gf, b: gf, c: gf)
    ensures Mul(Mul(a, b), c) == Mul(a, Mul(b, c))
  {
    hide *;
    if a == 0 || b == 0 || c == 0 {
      MulAssocZero(a, b, c);
    } else {
      MulAssocPowers(Log(a), Log(b), Log(c));
    }
  }

  lemma MulZeroLeft(a: gf, b: gf)
    requires a == 0
    ensures Mul(a, b) == 0 && Mul(b, a) == 0
  {
    hide *;
    MulZero(b);
  }

  lemma MulAssocZero(a: gf, b: gf, c: gf)
    requires a == 0 || b == 0 || c == 0
    ensures Mul(Mul(a, b), c) == Mul(a, Mul(b, c))
  {
    hide *;
    var ab, bc := Mul(a, b), Mul(b, c);
    if a == 0 {
      MulZeroLeft(a, b);
      MulZeroLeft(ab, c);
      MulZeroLeft(a, bc);
    } else if b == 0 {
      MulZeroLeft(b, a);
      MulZeroLeft(b, c);
      MulZeroLeft(ab, c);
      MulZeroLeft(bc, a);
    } else {
      MulZeroLeft(c, b);
      MulZeroLeft(c, ab);
      MulZeroLeft(bc, a);
    }
  }

  lemma MulAssocPowers(i: nat, j: nat, k: nat)
    ensures Mul(Mul(Power(i), Power(j)), Power(k)) == Mul(Power(i), Mul(Power(j), Power(k)))
  {
    hide *;
    MulPowers(i, j);
    MulPowers(j, k);
    MulPowers(i + j, k);
    MulPowers(i, j + k);
  }

  lemma MulOne(a: gf)
    ensures Mul(1, a) == a && Mul(a, 1) == a
  {
    hide *;
    MulOneLeft(a);
    MulComm(a, 1);
  }

  lemma MulNonzero(a: gf, b: gf)
    requires a != 0 && b != 0
    ensures Mul(a, b) != 0
  {
    hide *;
    MulPowers(Log(a), Log(b));
    PowerNonzero(Log(a) + Log(b));
  }

  /** The multiplicative inverse; of 0 it is 0. */
  ghost function Inverse(a: gf): (b: gf)
    ensures a != 0 ==> Mul(a, b) == 1 && Mul(b, a) == 1 && b != 0
    ensures a == 0 ==> b == 0
  {
    if a == 0 then 0 else
      InversePower(a);
      MulComm(a, Power(255 - Log(a)));
      Power(255 - Log(a))
  }

  lemma InversePower(a: gf)
    requires a != 0
    ensures Mul(a, Power(255 - Log(a))) == 1 && Power(255 - Log(a)) != 0
  {
    hide *;
    MulPowers(Log(a), 255 - Log(a));
    PowerValues();
    PowerNonzero(255 - Log(a));
  }

  /** A nonzero factor can be cancelled. */
  lemma MulCancel(c: gf, a: gf, b: gf)
    requires c != 0 && Mul(c, a) == Mul(c, b)
    ensures a == b
  {
    hide *;
    var i := Inverse(c);
    MulAssoc(i, c, a);
    MulAssoc(i, c, b);
    MulOne(a);
    MulOne(b);
  }
}
