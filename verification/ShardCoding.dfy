/** code_some_shards and reed_solomon_new of rs.c. */
module ShardCoding {
  import opened Sets
  import opened Field
  import opened FieldLaws
  import opened FieldTables
  import opened Vectors
  import opened Inversion
  import opened MatrixInversion
  import opened ErasureCode

  datatype Option<T> = None | Some(value: T)

  // ---- Combining shards

  /** What an output holds after c inputs; the first input replaces it, unless its coefficient is 0. */
  ghost function Accumulated(row: Vector, ins: Matrix, c: nat, before: Vector): (s: Vector)
    requires c <= |row| == |ins| && forall i :: 0 <= i < |ins| ==> |ins[i]| == |before|
    ensures |s| == |before|
    decreases c
  {
    if c == 0 then before
    else if c == 1 then if row[0] == 0 then before else Scale(row[0], ins[0])
    else Plus(Accumulated(row, ins, c - 1, before), Scale(row[c - 1], ins[c - 1]))
  }

  lemma {:induction false} AccumulatedCombine(row: Vector, ins: Matrix, c: nat, before: Vector)
    requires 0 < c <= |row| == |ins| && forall i :: 0 <= i < |ins| ==> |ins[i]| == |before|
    ensures Accumulated(row, ins, c, before)
         == if row[0] == 0 then Plus(before, Combine(row[..c], ins[..c], |before|))
            else Combine(row[..c], ins[..c], |before|)
    decreases c
  {
    hide Scale, Plus, Mul, Add;
    var k := |before|;
    CombineStep(row[..c], ins[..c], k);
    if c == 1 {
      AddedFirst(row[0], ins[0], before);
      assert row[..1][..0] == [] && ins[..1][..0] == [];
      CombineNil(k);
    } else {
      assert row[..c][..c - 1] == row[..c - 1] && ins[..c][..c - 1] == ins[..c - 1];
      AccumulatedCombine(row, ins, c - 1, before);
      if row[0] == 0 {
        PlusAssoc(before, Combine(row[..c - 1], ins[..c - 1], k), Scale(row[c - 1], ins[c - 1]));
      }
    }
  }

  lemma AddedFirst(c: gf, input: Vector, before: Vector)
    requires |input| == |before|
    ensures var k := |before|;
            Plus(Zeros(k), Scale(c, input)) == Scale(c, input) && (c == 0 ==> Plus(before, Scale(c, input)) == before)
  {
    hide Mul, Add;
    var scaled := Scale(c, input);
    forall b | 0 <= b < |before|
      ensures Plus(Zeros(|before|), scaled)[b] == scaled[b] && (c == 0 ==> Plus(before, scaled)[b] == before[b])
    {
      AddFacts(scaled[b], 0);
      AddFacts(before[b], 0);
      if c == 0 { MulZeroLeft(c, input[b]); }
    }
  }

  lemma PlusAssoc(a: Vector, b: Vector, c: Vector)
    requires |a| == |b| == |c|
    ensures Plus(Plus(a, b), c) == Plus(a, Plus(b, c))
  {
    hide Add;
    forall i | 0 <= i < |a| ensures Plus(Plus(a, b), c)[i] == Plus(a, Plus(b, c))[i] {
      AddAssoc(a[i], b[i], c[i]);
    }
  }

  ghost predicate Sized(shards: Rows, size: nat) {
    forall i :: 0 <= i < |shards| ==> shards[i].Length == size
  }

  ghost predicate Disjoint(a: Rows, b: Rows) {
    forall i, j :: 0 <= i < |a| && 0 <= j < |b| ==> a[i] != b[j]
  }

  /** Each output becomes the combination of the inputs that its row asks for. A row that starts with
      0 leaves what the output held before in the sum. */
  method CodeSomeShards(tables: Tables, matrixRows: Matrix, inputs: Rows, outputs: Rows, size: nat) returns (status: int)
    requires tables.Valid() && |matrixRows| == |outputs| && |inputs| > 0
    requires forall o :: 0 <= o < |matrixRows| ==> |matrixRows[o]| == |inputs|
    requires Sized(inputs, size) && Sized(outputs, size) && Distinct(outputs) && Disjoint(inputs, outputs)
    modifies outputs
    ensures status == 0
    ensures forall o :: 0 <= o < |outputs| ==>
              outputs[o][..] == if matrixRows[o][0] == 0
                                then Plus(old(outputs[o][..]), Combine(matrixRows[o], Values(inputs), size))
                                else Combine(matrixRows[o], Values(inputs), size)
  {
    hide Tables.Valid, Accumulated, Combine, Scale, Plus;
    ghost var ins := Values(inputs);
    ghost var before := Values(outputs);
    AccumulatedStart(matrixRows, ins, before, size);
    for c := 0 to |inputs|
      invariant Values(inputs) == ins
      invariant forall o :: 0 <= o < |outputs| ==> outputs[o][..] == Accumulated(matrixRows[o], ins, c, before[o])
    {
      CodeInput(tables, matrixRows, inputs, outputs, size, c, before);
    }
    AccumulatedEnd(matrixRows, ins, before, size);
    status := 0;
  }

  /** Adds one input to every output. */
  method CodeInput(tables: Tables, matrixRows: Matrix, inputs: Rows, outputs: Rows, size: nat, c: nat, ghost before: Matrix)
    requires tables.Valid() && |matrixRows| == |outputs| == |before| && c < |inputs|
    requires forall o :: 0 <= o < |matrixRows| ==> |matrixRows[o]| == |inputs| && |before[o]| == size
    requires Sized(inputs, size) && Sized(outputs, size) && Distinct(outputs) && Disjoint(inputs, outputs)
    requires forall o :: 0 <= o < |outputs| ==> outputs[o][..] == Accumulated(matrixRows[o], Values(inputs), c, before[o])
    modifies outputs
    ensures Values(inputs) == old(Values(inputs))
    ensures forall o :: 0 <= o < |outputs| ==> outputs[o][..] == Accumulated(matrixRows[o], Values(inputs), c + 1, before[o])
  {
    hide Tables.Valid, Accumulated, Combine, Scale, Plus;
    ghost var ins := Values(inputs);
    for row := 0 to |outputs|
      invariant Values(inputs) == ins
      invariant forall o :: 0 <= o < row ==> outputs[o][..] == Accumulated(matrixRows[o], ins, c + 1, before[o])
      invariant forall o :: row <= o < |outputs| ==> outputs[o][..] == Accumulated(matrixRows[o], ins, c, before[o])
    {
      AccumulatedStep(matrixRows[row], ins, c, before[row]);
      if c == 0 {
        MulInto(tables, outputs[row], inputs[c], matrixRows[row][c]);
      } else {
        AddMul(tables, outputs[row], inputs[c], matrixRows[row][c]);
      }
    }
  }

  lemma AccumulatedStart(rows: Matrix, ins: Matrix, before: Matrix, size: nat)
    requires |rows| == |before| && forall o :: 0 <= o < |rows| ==> |rows[o]| == |ins| && |before[o]| == size
    requires forall i :: 0 <= i < |ins| ==> |ins[i]| == size
    ensures forall o :: 0 <= o < |rows| ==> before[o] == Accumulated(rows[o], ins, 0, before[o])
  {
  }

  lemma AccumulatedEnd(rows: Matrix, ins: Matrix, before: Matrix, size: nat)
    requires |rows| == |before| && |ins| > 0 && forall o :: 0 <= o < |rows| ==> |rows[o]| == |ins| && |before[o]| == size
    requires forall i :: 0 <= i < |ins| ==> |ins[i]| == size
    ensures forall o :: 0 <= o < |rows| ==>
              Accumulated(rows[o], ins, |ins|, before[o])
              == (if rows[o][0] == 0 then Plus(before[o], Combine(rows[o], ins, size)) else Combine(rows[o], ins, size))
  {
    hide Accumulated, Combine, Plus;
    forall o | 0 <= o < |rows|
      ensures Accumulated(rows[o], ins, |ins|, before[o])
           == if rows[o][0] == 0 then Plus(before[o], Combine(rows[o], ins, size)) else Combine(rows[o], ins, size)
    {
      AccumulatedCombine(rows[o], ins, |ins|, before[o]);
      assert rows[o][..|ins|] == rows[o] && ins[..|ins|] == ins;
    }
  }

  lemma AccumulatedStep(row: Vector, ins: Matrix, c: nat, before: Vector)
    requires c < |row| == |ins| && forall i :: 0 <= i < |ins| ==> |ins[i]| == |before|
    ensures Accumulated(row, ins, c + 1, before)
         == if c > 0 then Plus(Accumulated(row, ins, c, before), Scale(row[c], ins[c]))
            else if row[0] == 0 then Accumulated(row, ins, c, before)
            else Scale(row[0], ins[0])
  {
  }

  // ---- Making a code

  method NewMatrix(rows: nat, columns: nat) returns (m: Rows)
    ensures |m| == rows && Distinct(m) && Sized(m, columns)
    ensures forall r :: 0 <= r < rows ==> fresh(m[r]) && m[r][..] == Zeros(columns)
  {
    m := [];
    for r := 0 to rows
      invariant |m| == r && Distinct(m) && Sized(m, columns)
      invariant forall i :: 0 <= i < r ==> fresh(m[i]) && m[i][..] == Zeros(columns)
    {
      var row := new gf[columns](_ => 0);
      assert row[..] == Zeros(columns);
      m := m + [row];
    }
  }

  /** The upper part of the identity: one row for each data shard, zeros for the parity shards. */
  method Vandermonde(shards: nat, ds: nat) returns (vm: Rows)
    requires ds <= shards
    ensures |vm| == shards && Distinct(vm) && Sized(vm, ds) && (forall r :: 0 <= r < shards ==> fresh(vm[r]))
    ensures forall r: nat :: r < shards ==> vm[r][..] == if r < ds then Unit(ds, r) else Zeros(ds)
  {
    vm := NewMatrix(shards, ds);
    for row := 0 to shards
      invariant forall r: nat :: r < row ==> vm[r][..] == if r < ds then Unit(ds, r) else Zeros(ds)
    {
      for col := 0 to ds
        invariant forall r: nat :: r < row ==> vm[r][..] == if r < ds then Unit(ds, r) else Zeros(ds)
        invariant forall c :: 0 <= c < col ==> vm[row][c] == if row == c then 1 else 0
      {
        vm[row][col] := if row == col then 1 else 0;
      }
      assert vm[row][..] == if row < ds then Unit(ds, row) else Zeros(ds);
    }
  }

  /** Copies as many entries as dst has, from column at on. */
  method CopyRow(dst: array<gf>, src: array<gf>, at: nat)
    requires at + dst.Length <= src.Length && (dst != src || at == 0)
    modifies dst
    ensures dst[..] == old(src[at..at + dst.Length])
  {
    for j := 0 to dst.Length
      invariant forall c :: 0 <= c < dst.Length ==> dst[c] == old(if c < j then src[at + c] else dst[c])
    {
      dst[j] := src[at + j];
    }
  }

  /** A copy of rows rmin to rmax and columns cmin to cmax. */
  method SubMatrix(m: Rows, rmin: nat, cmin: nat, rmax: nat, cmax: nat, columns: nat) returns (sub: Rows)
    requires rmin <= rmax <= |m| && cmin <= cmax <= columns && Sized(m, columns)
    ensures |sub| == rmax - rmin && Distinct(sub) && Sized(sub, cmax - cmin) && (forall r :: 0 <= r < |sub| ==> fresh(sub[r]))
    ensures forall r :: 0 <= r < rmax - rmin ==> sub[r][..] == m[rmin + r][cmin..cmax]
  {
    sub := NewMatrix(rmax - rmin, cmax - cmin);
    for i := 0 to rmax - rmin
      invariant forall r :: 0 <= r < i ==> sub[r][..] == m[rmin + r][cmin..cmax]
    {
      CopyRow(sub[i], m[rmin + i], cmin);
    }
  }

  /** The matrix product. */
  method Multiply(tables: Tables, a: Rows, b: Rows, inner: nat, columns: nat) returns (m: Rows)
    requires tables.Valid() && Sized(a, inner) && |b| == inner && Sized(b, columns)
    ensures |m| == |a| && Distinct(m) && Sized(m, columns) && (forall r :: 0 <= r < |m| ==> fresh(m[r]))
    ensures forall r, c :: 0 <= r < |a| && 0 <= c < columns ==> m[r][c] == Dot(a[r][..], Column(Values(b), c))
  {
    hide Tables.Valid, Tables.Times, Dot, Mul;
    m := NewMatrix(|a|, columns);
    for r := 0 to |a|
      invariant forall i, c :: 0 <= i < r && 0 <= c < columns ==> m[i][c] == Dot(a[i][..], Column(Values(b), c))
    {
      for c := 0 to columns
        invariant forall i, j :: 0 <= i < r && 0 <= j < columns ==> m[i][j] == Dot(a[i][..], Column(Values(b), j))
        invariant forall j :: 0 <= j < c ==> m[r][j] == Dot(a[r][..], Column(Values(b), j))
      {
        var tg := DotProduct(tables, a[r], b, c, columns);
        m[r][c] := tg;
      }
    }
  }

  method DotProduct(tables: Tables, row: array<gf>, b: Rows, c: nat, columns: nat) returns (tg: gf)
    requires tables.Valid() && row.Length == |b| && Sized(b, columns) && c < columns
    ensures tg == Dot(row[..], Column(Values(b), c))
  {
    hide Tables.Valid, Tables.Times, Dot, Mul;
    tg := 0;
    ghost var v := Column(Values(b), c);
    assert row[..0] == [] && v[..0] == [];
    DotNil();
    for i := 0 to row.Length
      invariant tg == Dot(row[..i], v[..i])
    {
      DotStep(row[..i + 1], v[..i + 1]);
      assert row[..i + 1][..i] == row[..i] && v[..i + 1][..i] == v[..i];
      tg := Add(tg, tables.Times(row[i], b[i][c]));
    }
    assert row[..row.Length] == row[..] && v[..row.Length] == v;
  }

  /** The identity is its own inverse. */
  lemma IdentityRegular(m: Matrix, k: nat)
    requires Square(m, k) && forall r: nat :: r < k ==> m[r] == Unit(k, r)
    ensures !Singular(m, k)
  {
    hide Dot, Unit;
    if Singular(m, k) {
      var x: Vector :| |x| == k && x != Zeros(k) && Solves(m, x, Zeros(k));
      forall i: nat | i < k ensures x[i] == 0 {
        DotUnit(x, i);
        assert Dot(m[i], x) == 0;
      }
      AllZero(x);
    }
  }

  /** The coefficients of the parity shards. */
  method FillParity(tables: Tables, m: Rows, ds: nat, ps: nat)
    requires tables.Valid() && 0 < ds && ds + ps <= MAX_SHARDS && |m| == ds + ps && Sized(m, ds) && Distinct(m)
    modifies m
    ensures forall r :: 0 <= r < ds ==> m[r][..] == old(m[r][..])
    ensures forall j: nat :: j < ps ==> m[ds + j][..] == ParityRow(ds, ps, j)
  {
    hide Tables.Valid, Tables.Reciprocal, ParityRow, Inverse, Byte;
    for j := 0 to ps
      invariant forall r :: 0 <= r < ds ==> m[r][..] == old(m[r][..])
      invariant forall t: nat :: t < j ==> m[ds + t][..] == ParityRow(ds, ps, t)
    {
      for i := 0 to ds
        invariant forall r :: 0 <= r < ds ==> m[r][..] == old(m[r][..])
        invariant forall t: nat :: t < j ==> m[ds + t][..] == ParityRow(ds, ps, t)
        invariant forall c: nat :: c < i ==> m[ds + j][c] == ParityRow(ds, ps, j)[c]
      {
        m[ds + j][i] := tables.Reciprocal(Add(Byte(ps + i), Byte(j)));
      }
      assert m[ds + j][..] == ParityRow(ds, ps, j);
    }
  }

  method Freeze(m: Rows) returns (values: Matrix)
    ensures values == Values(m)
  {
    values := [];
    for r := 0 to |m|
      invariant |values| == r && forall i :: 0 <= i < r ==> values[i] == m[i][..]
    {
      values := values + [m[r][..]];
    }
  }

  /** The inverse of the square part. */
  method InvertTop(tables: Tables, vm: Rows, ds: nat) returns (top: Rows)
    requires tables.Valid() && ds <= |vm| && Distinct(vm) && Sized(vm, ds)
    requires forall r: nat :: r < ds ==> vm[r][..] == Unit(ds, r)
    ensures IsMatrix(top, ds) && (forall r :: 0 <= r < ds ==> fresh(top[r]))
    ensures forall r, c :: 0 <= r < ds && 0 <= c < ds ==>
              Dot(vm[r][..], Column(Values(top), c)) == if r == c then 1 else 0
  {
    hide Tables.Valid, Singular, Invertible, Dot, Undoes, Column, Unit;
    top := SubMatrix(vm, 0, 0, ds, ds, ds);
    ghost var identity := Values(top);
    forall r: nat | r < ds ensures identity[r] == vm[r][..] {
      assert vm[r][0..ds] == vm[r][..];
    }
    IdentityRegular(identity, ds);
    var error := InvertMat(tables, top, ds);
    assert error == 0;
  }

  /** The upper part multiplied with the inverse of its square part: again unit vectors. */
  method SystematicMatrix(tables: Tables, ds: nat, ps: nat) returns (m: Rows)
    requires tables.Valid()
    ensures |m| == ds + ps && Distinct(m) && Sized(m, ds) && (forall r :: 0 <= r < |m| ==> fresh(m[r]))
    ensures forall r: nat :: r < ds ==> m[r][..] == Unit(ds, r)
  {
    hide Tables.Valid, Dot, Column, Unit;
    var vm := Vandermonde(ds + ps, ds);
    var top := InvertTop(tables, vm, ds);
    m := Multiply(tables, vm, top, ds, ds);
    forall r: nat | r < ds ensures m[r][..] == Unit(ds, r) {
      forall c: nat | c < ds ensures m[r][c] == Unit(ds, r)[c] {
        assert m[r][c] == Dot(vm[r][..], Column(Values(top), c));
      }
    }
  }

  /** A code exists for every positive number of data and parity shards of at most 255 together. */
  method NewCode(tables: Tables, dataShards: int, parityShards: int) returns (code: Option<Code>)
    requires tables.Valid()
    ensures code.Some? <==> 0 < dataShards && 0 < parityShards && dataShards + parityShards <= 255
    ensures code.Some? ==> code.value.Valid() && code.value.dataShards == dataShards && code.value.parityShards == parityShards
  {
    hide Tables.Valid, ParityRow;
    if dataShards + parityShards > MAX_SHARDS || dataShards <= 0 || parityShards <= 0 {
      return None;
    }
    var ds: nat, ps: nat := dataShards, parityShards;
    var m := SystematicMatrix(tables, ds, ps);
    FillParity(tables, m, ds, ps);
    var parity := SubMatrix(m, ds, 0, ds + ps, ds, ds);
    var all := Freeze(m);
    var lower := Freeze(parity);
    forall j: nat | j < ps ensures lower[j] == all[ds + j] {
      assert m[ds + j][0..ds] == m[ds + j][..];
    }
    CodeMade(ds, ps, all, lower);
    code := Some(Code(ds, ps, all, lower));
  }

  lemma CodeMade(ds: nat, ps: nat, all: Matrix, lower: Matrix)
    requires 0 < ds && 0 < ps && ds + ps <= MAX_SHARDS && |all| == ds + ps && |lower| == ps
    requires forall r :: 0 <= r < |all| ==> |all[r]| == ds
    requires forall i: nat :: i < ds ==> all[i] == Unit(ds, i)
    requires forall j: nat :: j < ps ==> all[ds + j] == ParityRow(ds, ps, j) == lower[j]
    ensures Code(ds, ps, all, lower).Valid()
  {
    assert lower == all[ds..];
  }
}
