/** The field of 256 elements that rs.c computes in: bytes as polynomials over two elements,
    modulo x^8 + x^4 + x^3 + x^2 + 1. */
module Field {
  type gf = bv8

  /** Addition of polynomials, which is also subtraction. */
  function Add(a: gf, b: gf): gf {
    a ^ b
  }

  /** Multiplication by x. */
  function Double(a: gf): gf {
    if a >= 0x80 then (a << 1) ^ 0x1D else a << 1
  }

  predicate Odd(a: gf) { a & 1 != 0 }

  function Half(a: gf): gf { a >> 1 }

  function Select(c: bool, b: gf): gf { if c then b else 0 }

  /** The product of two polynomials: the sum of the shifts of b that the bits of a select. */
  function Mul(a: gf, b: gf): gf
    decreases a
  {
    if a == 0 then 0 else Add(Select(Odd(a), b), Mul(Half(a), Double(b)))
  }

  // ---- Facts about single bytes

  lemma AddFacts(a: gf, b: gf)
    ensures Add(a, b) == Add(b, a) && Add(a, 0) == a == Add(0, a) && Add(a, a) == 0
    ensures Add(a, b) == 0 <==> a == b
    ensures Add(Add(a, b), b) == a
  {
  }

  lemma AddAssoc(a: gf, b: gf, c: gf)
    ensures Add(Add(a, b), c) == Add(a, Add(b, c))
  {
  }

  lemma AddSwap(a: gf, b: gf, c: gf, d: gf)
    ensures Add(Add(a, b), Add(c, d)) == Add(Add(a, c), Add(b, d))
  {
    hide *;
    AddAssoc(a, b, Add(c, d));
    AddAssoc(b, c, d);
    AddFacts(b, c);
    AddAssoc(c, b, d);
    AddAssoc(a, c, Add(b, d));
  }

  lemma DoubleAdd(a: gf, b: gf)
    ensures Double(Add(a, b)) == Add(Double(a), Double(b))
  {
    hide *;
    DoubleBits(a);
    DoubleBits(b);
    DoubleBits(Add(a, b));
    UpAdd(a, b);
    CarryAdd(a, b);
    AddSwap(Up(a), Up(b), Carry(a), Carry(b));
  }

  function Up(a: gf): gf { a << 1 }

  /** The bit that leaves at the top comes back as the rest of the modulus. */
  function Carry(a: gf): gf {
    if a >= 0x80 then 0x1D else 0
  }

  lemma DoubleBits(a: gf)
    ensures Double(a) == Add(Up(a), Carry(a))
  {
  }

  lemma UpAdd(a: gf, b: gf)
    ensures Up(Add(a, b)) == Add(Up(a), Up(b))
  {
  }

  lemma CarryAdd(a: gf, b: gf)
    ensures Carry(Add(a, b)) == Add(Carry(a), Carry(b))
  {
  }

  lemma DoubleZero()
    ensures Double(0) == 0
  {
  }

  lemma DoubleInjective(a: gf, b: gf)
    requires Double(a) == Double(b)
    ensures a == b
  {
  }

  lemma HalfAdd(a: gf, b: gf)
    ensures Half(Add(a, b)) == Add(Half(a), Half(b)) && (Odd(Add(a, b)) <==> Odd(a) != Odd(b))
    ensures a != 0 || b != 0 ==> Half(a) | Half(b) < a | b
    ensures Half(0) == 0 && !Odd(0) && (a != 0 ==> Half(a) < a)
  {
  }

  lemma SelectAdd(c: bool, d: bool, a: gf, b: gf)
    ensures Select(c, Add(a, b)) == Add(Select(c, a), Select(c, b))
    ensures Select(c != d, a) == Add(Select(c, a), Select(d, a))
    ensures Double(Select(c, a)) == Select(c, Double(a))
    ensures Select(true, a) == a && Select(false, a) == 0
  {
  }

  // ---- Multiplication is linear in both arguments

  lemma MulStep(a: gf, b: gf)
    ensures Mul(a, b) == Add(Select(Odd(a), b), Mul(Half(a), Double(b)))
    ensures Mul(0, b) == 0
  {
  }

  lemma {:induction false} MulAddRight(a: gf, b: gf, c: gf)
    ensures Mul(a, Add(b, c)) == Add(Mul(a, b), Mul(a, c))
    decreases a
  {
    hide *;
    MulStep(a, Add(b, c));
    MulStep(a, b);
    MulStep(a, c);
    if a == 0 {
      AddFacts(0, 0);
    } else {
      HalfAdd(a, a);
      DoubleAdd(b, c);
      MulAddRight(Half(a), Double(b), Double(c));
      SelectAdd(Odd(a), Odd(a), b, c);
      AddSwap(Select(Odd(a), b), Select(Odd(a), c), Mul(Half(a), Double(b)), Mul(Half(a), Double(c)));
    }
  }

  lemma {:induction false} MulDoubleRight(a: gf, b: gf)
    ensures Mul(a, Double(b)) == Double(Mul(a, b))
    decreases a
  {
    hide *;
    MulStep(a, b);
    MulStep(a, Double(b));
    if a == 0 {
      DoubleZero();
    } else {
      HalfAdd(a, a);
      DoubleAdd(Select(Odd(a), b), Mul(Half(a), Double(b)));
      SelectAdd(Odd(a), Odd(a), b, b);
      MulDoubleRight(Half(a), Double(b));
    }
  }

  lemma {:induction false} MulAddLeft(a: gf, c: gf, b: gf)
    ensures Mul(Add(a, c), b) == Add(Mul(a, b), Mul(c, b))
    decreases a | c
  {
    hide *;
    MulStep(a, b);
    MulStep(c, b);
    MulStep(Add(a, c), b);
    AddFacts(0, 0);
    if a != 0 || c != 0 {
      HalfAdd(a, c);
      MulAddLeft(Half(a), Half(c), Double(b));
      SelectAdd(Odd(a), Odd(c), b, b);
      AddSwap(Select(Odd(a), b), Select(Odd(c), b), Mul(Half(a), Double(b)), Mul(Half(c), Double(b)));
    }
  }

  lemma MulOneLeft(b: gf)
    ensures Mul(1, b) == b && Mul(0, b) == 0
  {
    assert Half(1) == 0;
    MulStep(1, b);
  }

  lemma MulBit(c: gf, b: gf)
    requires c < 0x80
    ensures Mul(c << 1, b) == Mul(c, Double(b))
  {
    assert !Odd(c << 1) && Half(c << 1) == c;
    hide Mul, Double;
    MulStep(c << 1, b);
    AddFacts(0, Mul(c, Double(b)));
  }

  lemma MulOddBit(c: gf, b: gf)
    requires c < 0x80
    ensures Mul((c << 1) | 1, b) == Add(b, Mul(c, Double(b)))
  {
    assert Odd((c << 1) | 1) && Half((c << 1) | 1) == c;
    hide Mul, Double;
    MulStep((c << 1) | 1, b);
  }

  /** x^8, written with the modulus, is x^4 + x^3 + x^2 + 1. */
  lemma Reduction(b: gf)
    ensures Mul(0x1D, b) == Double(Mul(0x80, b))
  {
    hide *;
    var b1 := Double(b);
    var b2 := Double(b1);
    var b3 := Double(b2);
    var b4 := Double(b3);
    var b5 := Double(b4);
    var b6 := Double(b5);
    var b7 := Double(b6);
    assert Mul(0x80, b) == b7 by {
      MulBit(0x40, b);
      MulBit(0x20, b1);
      MulBit(0x10, b2);
      MulBit(0x08, b3);
      MulBit(0x04, b4);
      MulBit(0x02, b5);
      MulBit(0x01, b6);
      MulOneLeft(b7);
    }
    assert Mul(0x1D, b) == Add(b, Add(b2, Add(b3, b4))) by {
      MulOddBit(0x0E, b);
      MulBit(0x07, b1);
      MulOddBit(0x03, b2);
      MulOddBit(0x01, b3);
      MulOneLeft(b4);
    }
    EightDoubles(b);
  }

  lemma EightDoubles(b: gf)
    ensures var b2 := Double(Double(b));
            var b4 := Double(Double(b2));
            Add(b, Add(b2, Add(Double(b2), b4))) == Double(Double(Double(Double(b4))))
  {
    EightShifts(b);
  }

  lemma EightShifts(b: gf)
    ensures var b2 := Double(Double(b));
            var b4 := Double(Double(b2));
            b ^ (b2 ^ (Double(b2) ^ b4)) == Double(Double(Double(Double(b4))))
  {
  }

  lemma MulDouble(a: gf, b: gf)
    ensures Mul(Double(a), b) == Double(Mul(a, b))
  {
    hide *;
    var low := a & 0x7F;
    TopBit(a);
    MulBit(low, b);
    MulDoubleRight(low, b);
    if a >= 0x80 {
      MulAddLeft(0x80, low, b);
      MulAddLeft(0x1D, low << 1, b);
      DoubleAdd(Mul(0x80, b), Mul(low, b));
      Reduction(b);
    }
  }

  lemma TopBit(a: gf)
    ensures var low := a & 0x7F;
            && low < 0x80
            && (a >= 0x80 ==> a == Add(0x80, low) && Double(a) == Add(0x1D, low << 1))
            && (a < 0x80 ==> a == low && Double(a) == low << 1)
  {
  }

  // ---- Powers of x

  /** The n-fold double of a. */
  function Shift(n: nat, a: gf): gf {
    if n == 0 then a else Double(Shift(n - 1, a))
  }

  function Power(n: nat): gf {
    Shift(n, 1)
  }

  lemma {:induction false} ShiftAdd(m: nat, n: nat, a: gf)
    ensures Shift(m + n, a) == Shift(m, Shift(n, a))
  {
    hide Double;
    if m > 0 { ShiftAdd(m - 1, n, a); }
  }

  lemma {:induction false} ShiftInjective(n: nat, a: gf, b: gf)
    requires Shift(n, a) == Shift(n, b)
    ensures a == b
  {
    hide Double;
    if n > 0 {
      DoubleInjective(Shift(n - 1, a), Shift(n - 1, b));
      ShiftInjective(n - 1, a, b);
    }
  }

  lemma {:induction false} MulPower(n: nat, b: gf)
    ensures Mul(Power(n), b) == Shift(n, b)
  {
    hide Double, Mul;
    if n == 0 {
      MulOneLeft(b);
    } else {
      MulPower(n - 1, b);
      MulDouble(Power(n - 1), b);
    }
  }

  function Double2(a: gf): gf { Double(Double(a)) }

  function Double4(a: gf): gf { Double2(Double2(a)) }

  lemma Shift17(a: gf)
    ensures Shift(17, a) == Double(Double4(Double4(Double4(Double4(a)))))
    ensures Shift(15, a) == Double(Double2(Double4(Double4(Double4(a)))))
  {
    hide Double;
    Shift4(a);
    Shift4(Shift(4, a));
    Shift4(Shift(8, a));
    Shift4(Shift(12, a));
    ShiftAdd(4, 4, a);
    ShiftAdd(4, 8, a);
    ShiftAdd(4, 12, a);
    ShiftAdd(1, 16, a);
    ShiftAdd(3, 12, a);
  }

  lemma Shift4(a: gf)
    ensures Shift(1, a) == Double(a) && Shift(3, a) == Double(Double2(a)) && Shift(4, a) == Double4(a)
  {
    hide Double;
    assert Shift(1, a) == Double(a);
    assert Shift(2, a) == Double2(a);
    assert Shift(3, a) == Double(Double2(a));
  }

  lemma Next17(n: nat, a: gf)
    ensures Shift(n + 17, a) == Double(Double4(Double4(Double4(Double4(Shift(n, a))))))
  {
    hide Double, Double4;
    ShiftAdd(17, n, a);
    Shift17(Shift(n, a));
  }

  lemma PowerValues()
    ensures Power(15) == 0x26 && Power(51) == 0x0A && Power(85) == 0xD6 && Power(255) == 1
  {
    hide Shift;
    Shift17(1);
    assert Shift(0, 1) == 1 by { ShiftZero(1); }
    Next17(0, 1);
    assert Shift(17, 1) == 0x98;
    Next17(17, 1);
    assert Shift(34, 1) == 0x4E;
    Next17(34, 1);
    assert Shift(51, 1) == 0x0A;
    Next17(51, 1);
    assert Shift(68, 1) == 0x99;
    Next17(68, 1);
    assert Shift(85, 1) == 0xD6;
    Next17(85, 1);
    assert Shift(102, 1) == 0x44;
    Next17(102, 1);
    assert Shift(119, 1) == 0x93;
    Next17(119, 1);
    assert Shift(136, 1) == 0x4F;
    Next17(136, 1);
    assert Shift(153, 1) == 0x92;
    Next17(153, 1);
    assert Shift(170, 1) == 0xD7;
    Next17(170, 1);
    assert Shift(187, 1) == 0xDC;
    Next17(187, 1);
    assert Shift(204, 1) == 0xDD;
    Next17(204, 1);
    assert Shift(221, 1) == 0x45;
    Next17(221, 1);
    assert Shift(238, 1) == 0x0B;
    Next17(238, 1);
    assert Shift(255, 1) == 0x01;
  }

  lemma ShiftZero(a: gf)
    ensures Shift(0, a) == a
  {
  }
}
