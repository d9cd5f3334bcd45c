/** The exponent, logarithm, inverse and product tables of rs.c. */
module FieldTables {
  import opened Words
  import opened Field
  import opened FieldLaws

  const BITS := 8
  const SIZE := 255
  const POLYNOMIAL := "101110001"

  function Index(a: gf): (i: nat)
    ensures i <= SIZE
  {
    a as int
  }

  function Byte(i: nat): gf
    requires i <= SIZE
  {
    i as gf
  }

  lemma IndexByte(i: nat)
    requires i <= SIZE
    ensures Index(Byte(i)) == i
  {
    ByteBits(i);
  }

  lemma ByteIndex(a: gf)
    ensures Byte(Index(a)) == a
    ensures Index(a) == 0 <==> a == 0
    ensures Index(a) == 1 <==> a == 1
  {
    IndexByte(0);
    IndexByte(1);
  }

  function Cell(i: nat, j: nat): nat
    requires i <= SIZE && j <= SIZE
    ensures Cell(i, j) < 0x1_0000 && Cell(i, j) / 256 == i && Cell(i, j) % 256 == j
  {
    i * 256 + j
  }

  /** The tables that stay in use once they are filled. */
  datatype Tables = Tables(product: seq<gf>, inverse: seq<gf>) {
    ghost predicate Valid() {
      && |product| == 0x1_0000 && |inverse| == SIZE + 1
      && (forall i: nat, j: nat | i <= SIZE && j <= SIZE :: product[Cell(i, j)] == Mul(Byte(i), Byte(j)))
      && (forall i: nat | i <= SIZE :: inverse[i] == Inverse(Byte(i)))
    }

    function Times(a: gf, b: gf): (p: gf)
      requires Valid()
      ensures p == Mul(a, b)
    {
      ByteIndex(a);
      ByteIndex(b);
      product[Cell(Index(a), Index(b))]
    }

    function Reciprocal(a: gf): (b: gf)
      requires Valid()
      ensures b == Inverse(a)
    {
      ByteIndex(a);
      inverse[Index(a)]
    }
  }

  // ---- The first powers are single bits, and the eighth is the rest of the polynomial

  function Bit(i: nat): gf {
    if i == 0 then 1 else Bit(i - 1) << 1
  }

  function Terms(i: nat): gf
    requires i < |POLYNOMIAL|
  {
    if i == 0 then 0 else if POLYNOMIAL[i - 1] == '1' then Terms(i - 1) ^ Bit(i - 1) else Terms(i - 1)
  }

  lemma BitIsPower(i: nat)
    requires i < BITS
    ensures Bit(i) == Power(i)
  {
    hide Mul;
    assert Bit(0) == Power(0) == 0x01;
    assert Bit(1) == Power(1) == 0x02;
    assert Bit(2) == Power(2) == 0x04;
    assert Bit(3) == Power(3) == 0x08;
    assert Bit(4) == Power(4) == 0x10;
    assert Bit(5) == Power(5) == 0x20;
    assert Bit(6) == Power(6) == 0x40;
    assert Bit(7) == Power(7) == 0x80;
  }

  lemma TermsArePower()
    ensures Terms(BITS) == Power(BITS) == 0x1D
  {
    BitIsPower(7);
    assert Bit(2) == 4 && Bit(3) == 8 && Bit(4) == 0x10;
    assert Power(7) == 0x80;
    assert Terms(1) == 0x01;
    assert Terms(2) == 0x01;
    assert Terms(3) == 0x05;
    assert Terms(4) == 0x0D;
    assert Terms(5) == 0x1D;
    assert Terms(6) == 0x1D;
    assert Terms(7) == 0x1D;
  }

  lemma NextPower(n: nat, p: gf)
    requires p == Power(n)
    ensures Power(n + 1) == if p >= 0x80 then 0x1D ^ ((p ^ 0x80) << 1) else p << 1
  {
  }

  /** x modulo 255, without a division. */
  method ModNN(x: nat) returns (r: nat)
    ensures r == x % 255
  {
    r := x;
    while r >= SIZE
      invariant r % SIZE == x % SIZE
      decreases r
    {
      r := r - SIZE;
      FoldDigits(r);
      r := r / 256 + r % 256;
    }
  }

  lemma FoldDigits(r: nat)
    ensures (r / 256 + r % 256) % SIZE == r % SIZE && (r + SIZE) % SIZE == r % SIZE
    ensures r / 256 + r % 256 <= r
  {
    var q, d := r / 256, r % 256;
    assert r == q * 256 + d;
    AddMultiple(q + d, q);
    AddMultiple(r, 1);
  }

  lemma {:induction false} AddMultiple(a: nat, q: nat)
    ensures (a + q * SIZE) % SIZE == a % SIZE
  {
    if q > 0 { AddMultiple(a, q - 1); }
  }

  /** exp holds the powers below n, and log their exponents. */
  ghost predicate PowersIn(exp: array<gf>, log: array<int>, n: nat)
    reads exp, log
  {
    && exp.Length == 2 * SIZE && log.Length == SIZE + 1 && n <= SIZE
    && (forall j: nat | j < n :: exp[j] == Power(j) && log[Index(Power(j))] == j)
  }

  lemma PowerIndices(i: nat, n: nat)
    requires i < n < SIZE
    ensures Index(Power(i)) != Index(Power(n))
  {
    hide Power, Index, Byte;
    PowersDiffer(i, n);
    ByteIndex(Power(i));
    ByteIndex(Power(n));
  }

  method StorePower(exp: array<gf>, log: array<int>, n: nat)
    requires n < SIZE && PowersIn(exp, log, n) && exp[n] == Power(n)
    modifies log
    ensures PowersIn(exp, log, n + 1)
  {
    hide Power, Index;
    log[Index(exp[n])] := n;
    forall j: nat | j < n ensures log[Index(Power(j))] == j {
      PowerIndices(j, n);
    }
  }

  method FirstPowers(exp: array<gf>, log: array<int>)
    requires exp.Length == 2 * SIZE && log.Length == SIZE + 1
    modifies exp, log
    ensures PowersIn(exp, log, BITS + 1)
  {
    hide Power, Index, Bit, Terms;
    var mask: gf := 1;
    exp[BITS] := 0;
    BitStart();
    for i := 0 to BITS
      invariant PowersIn(exp, log, i)
      invariant mask == Bit(i) && exp[BITS] == Terms(i)
    {
      exp[i] := mask;
      BitIsPower(i);
      StorePower(exp, log, i);
      TermStep(i);
      if POLYNOMIAL[i] == '1' {
        exp[BITS] := exp[BITS] ^ mask;
      }
      mask := mask << 1;
    }
    TermsArePower();
    StorePower(exp, log, BITS);
  }

  lemma BitStart()
    ensures Bit(0) == 1 && Terms(0) == 0
  {
  }

  lemma TermStep(i: nat)
    requires i < BITS
    ensures Bit(i + 1) == Bit(i) << 1
    ensures Terms(i + 1) == if POLYNOMIAL[i] == '1' then Terms(i) ^ Bit(i) else Terms(i)
  {
  }

  method LaterPowers(exp: array<gf>, log: array<int>)
    requires PowersIn(exp, log, BITS + 1)
    modifies exp, log
    ensures PowersIn(exp, log, SIZE)
  {
    hide Power, Index;
    var mask: gf := 1 << (BITS - 1);
    TermsArePower();
    for i := BITS + 1 to SIZE
      invariant PowersIn(exp, log, i)
    {
      NextPower(i - 1, exp[i - 1]);
      if exp[i - 1] >= mask {
        exp[i] := exp[BITS] ^ ((exp[i - 1] ^ mask) << 1);
      } else {
        exp[i] := exp[i - 1] << 1;
      }
      StorePower(exp, log, i);
    }
  }

  method GenerateField() returns (exp: array<gf>, log: array<int>, inverse: array<gf>)
    ensures fresh(exp) && fresh(log) && fresh(inverse)
    ensures PowersIn(exp, log, SIZE) && log[0] == SIZE
    ensures inverse.Length == SIZE + 1 && (forall i: nat | i <= SIZE :: inverse[i] == Inverse(Byte(i)))
  {
    hide Power, Index, Byte, Inverse;
    exp := new gf[2 * SIZE](_ => 0);
    log := new int[SIZE + 1](_ => 0);
    FirstPowers(exp, log);
    LaterPowers(exp, log);
    PowersAwayFromZero();
    log[0] := SIZE;
    for i := 0 to SIZE
      invariant PowersIn(exp, log, SIZE) && log[0] == SIZE
      invariant forall j: nat | j < i :: exp[j + SIZE] == exp[j]
    {
      exp[i + SIZE] := exp[i];
    }
    inverse := InverseTable(exp, log);
  }

  lemma PowersAwayFromZero()
    ensures forall j: nat | j < SIZE :: Index(Power(j)) != 0
  {
    hide Power, Index, Byte;
    forall j: nat | j < SIZE ensures Index(Power(j)) != 0 {
      PowerNonzero(j);
      ByteIndex(Power(j));
    }
  }

  method InverseTable(exp: array<gf>, log: array<int>) returns (inverse: array<gf>)
    requires PowersIn(exp, log, SIZE)
    requires forall j: nat | j < SIZE :: exp[j + SIZE] == exp[j]
    ensures fresh(inverse) && inverse.Length == SIZE + 1
    ensures forall i: nat | i <= SIZE :: inverse[i] == Inverse(Byte(i))
  {
    hide Power, Index, Byte, Inverse;
    inverse := new gf[SIZE + 1](_ => 0);
    inverse[0] := 0;
    inverse[1] := 1;
    InverseOfBits();
    for i := 2 to SIZE + 1
      invariant forall j: nat | j < i :: inverse[j] == Inverse(Byte(j))
    {
      LogIndex(exp, log, i);
      InverseIsPower(i);
      inverse[i] := exp[SIZE - log[i]];
    }
  }

  lemma InverseOfBits()
    ensures Inverse(Byte(0)) == 0 && Inverse(Byte(1)) == 1
  {
    IndexByte(0);
    IndexByte(1);
    ByteIndex(Byte(0));
    ByteIndex(Byte(1));
    InverseUnique(1, 1);
  }

  lemma InverseUnique(a: gf, b: gf)
    requires a != 0 && Mul(a, b) == 1
    ensures b == Inverse(a)
  {
    hide *;
    MulCancel(a, b, Inverse(a));
  }

  lemma LogIndex(exp: array<gf>, log: array<int>, i: nat)
    requires PowersIn(exp, log, SIZE) && 1 <= i <= SIZE
    ensures Byte(i) != 0 && log[i] == Log(Byte(i))
  {
    hide Power, Index, Byte, Log;
    IndexByte(i);
    ByteIndex(Byte(i));
    var n := Log(Byte(i));
    assert exp[n] == Power(n);
  }

  lemma InverseIsPower(i: nat)
    requires 2 <= i <= SIZE
    ensures Byte(i) != 0 && 0 < Log(Byte(i)) < SIZE
    ensures Inverse(Byte(i)) == Power(SIZE - Log(Byte(i)))
  {
    hide Power, Index, Byte, Log;
    IndexByte(i);
    ByteIndex(Byte(i));
    PowerZero();
    assert Log(Byte(i)) != 0;
  }

  /** Row i of the product table is right from column 1 up to column m. */
  ghost predicate RowIn(product: array<gf>, i: nat, m: nat)
    requires i <= SIZE && m <= SIZE + 1
    reads product
  {
    product.Length == 0x1_0000 && forall q: nat | 1 <= q < m :: product[Cell(i, q)] == Mul(Byte(i), Byte(q))
  }

  ghost predicate FullRow(product: array<gf>, i: nat)
    requires i <= SIZE
    reads product
  {
    RowIn(product, i, SIZE + 1)
  }

  method FillRow(exp: array<gf>, log: array<int>, product: array<gf>, i: nat)
    requires PowersIn(exp, log, SIZE) && log[0] == SIZE
    requires product.Length == 0x1_0000 && i <= SIZE && product != exp
    modifies product
    ensures i > 0 ==> FullRow(product, i)
    ensures forall n: nat | n < 0x1_0000 && n / 256 != i :: product[n] == old(product[n])
  {
    hide Power, Index, Byte, Mul, Log;
    for j := 0 to SIZE + 1
      invariant i > 0 ==> RowIn(product, i, j)
      invariant forall n: nat | n < 0x1_0000 && n / 256 != i :: product[n] == old(product[n])
    {
      LogRange(exp, log, i);
      LogRange(exp, log, j);
      var n := ModNN(log[i] + log[j]);
      if i > 0 && j > 0 {
        ProductIsPower(exp, log, i, j);
      }
      product[Cell(i, j)] := exp[n];
    }
  }

  method ProductTable(exp: array<gf>, log: array<int>) returns (product: array<gf>)
    requires PowersIn(exp, log, SIZE) && log[0] == SIZE
    ensures fresh(product) && product.Length == 0x1_0000
    ensures forall i: nat, j: nat | i <= SIZE && j <= SIZE :: product[Cell(i, j)] == Mul(Byte(i), Byte(j))
  {
    hide Power, Index, Byte, Mul, Log, PowersIn;
    product := new gf[0x1_0000](_ => 0);
    for i := 0 to SIZE + 1
      invariant forall p: nat | 1 <= p < i :: FullRow(product, p)
    {
      label Before:
      FillRow(exp, log, product, i);
      forall p: nat | 1 <= p < i ensures FullRow(product, p) {
        assert old@Before(FullRow(product, p));
      }
    }
    ClearZero(product);
  }

  method ClearZero(product: array<gf>)
    requires product.Length == 0x1_0000
    requires forall p: nat | 1 <= p <= SIZE :: FullRow(product, p)
    modifies product
    ensures forall i: nat, j: nat | i <= SIZE && j <= SIZE :: product[Cell(i, j)] == Mul(Byte(i), Byte(j))
  {
    hide Power, Index, Byte, Mul, Log;
    for j := 0 to SIZE + 1
      invariant forall p: nat, q: nat | 1 <= p <= SIZE && 1 <= q <= SIZE ::
                  product[Cell(p, q)] == old(product[Cell(p, q)])
      invariant forall q: nat | q < j :: product[Cell(0, q)] == 0 && product[Cell(q, 0)] == 0
    {
      product[Cell(j, 0)] := 0;
      product[Cell(0, j)] := product[Cell(j, 0)];
    }
    ZeroProducts();
    forall i: nat, j: nat | i <= SIZE && j <= SIZE ensures product[Cell(i, j)] == Mul(Byte(i), Byte(j)) {
      if i > 0 { assert old(FullRow(product, i)); }
    }
  }

  lemma ZeroProducts()
    ensures forall j: nat | j <= SIZE :: Mul(Byte(0), Byte(j)) == 0 && Mul(Byte(j), Byte(0)) == 0
  {
    hide Power, Index, Mul;
    forall j: nat | j <= SIZE ensures Mul(Byte(0), Byte(j)) == 0 && Mul(Byte(j), Byte(0)) == 0 {
      MulZeroLeft(Byte(0), Byte(j));
    }
  }

  lemma LogRange(exp: array<gf>, log: array<int>, i: nat)
    requires PowersIn(exp, log, SIZE) && log[0] == SIZE && i <= SIZE
    ensures 0 <= log[i] <= SIZE
  {
    hide PowersIn, Power, Log;
    if i > 0 { LogIndex(exp, log, i); }
  }

  lemma ProductIsPower(exp: array<gf>, log: array<int>, i: nat, j: nat)
    requires PowersIn(exp, log, SIZE) && 1 <= i <= SIZE && 1 <= j <= SIZE
    requires 0 <= log[i] && 0 <= log[j]
    ensures exp[(log[i] + log[j]) % SIZE] == Mul(Byte(i), Byte(j))
  {
    hide Power, Mul, Log, Byte;
    LogIndex(exp, log, i);
    LogIndex(exp, log, j);
    MulPowers(log[i], log[j]);
    if log[i] + log[j] >= SIZE {
      PowerPeriod(log[i] + log[j] - SIZE);
    }
  }

  method Init() returns (tables: Tables)
    ensures tables.Valid()
  {
    var exp, log, inverse := GenerateField();
    var product := ProductTable(exp, log);
    tables := Tables(product[..], inverse[..]);
  }
}
