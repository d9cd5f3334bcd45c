/** The systematic code of rs.c: data shards followed by parity shards whose coefficients are a
    Cauchy matrix, and why any sufficient set of surviving shards determines the data. */
module ErasureCode {
  import opened Sets
  import opened Field
  import opened FieldLaws
  import opened FieldTables
  import opened Vectors
  import opened Cauchy

  const MAX_SHARDS := 255

  function Points(ds: nat, ps: nat): (xs: Vector)
    requires ds + ps <= MAX_SHARDS
    ensures |xs| == ds && forall i :: 0 <= i < ds ==> xs[i] == Byte(ps + i)
  {
    seq(ds, i requires 0 <= i < ds => Byte(ps + i))
  }

  /** Coefficient i is the inverse of (ps + i) xor j. */
  ghost function ParityRow(ds: nat, ps: nat, j: nat): (row: Vector)
    requires ds + ps <= MAX_SHARDS && j < ps
    ensures |row| == ds
    ensures forall i: nat :: i < ds ==> row[i] == Inverse(Add(Byte(ps + i), Byte(j)))
  {
    Fractions(Points(ds, ps), Byte(j))
  }

  /** The fields of reed_solomon; they do not change once the code is made. */
  datatype Code = Code(dataShards: nat, parityShards: nat, m: Matrix, parity: Matrix) {
    ghost predicate Valid() {
      var ds, ps := dataShards, parityShards;
      && 0 < ds && 0 < ps && ds + ps <= MAX_SHARDS
      && |m| == ds + ps && parity == m[ds..]
      && (forall r :: 0 <= r < |m| ==> |m[r]| == ds)
      && (forall i: nat :: i < ds ==> m[i] == Unit(ds, i))
      && (forall j: nat :: j < ps ==> m[ds + j] == ParityRow(ds, ps, j))
    }
  }

  lemma ByteInjective(i: nat, j: nat)
    requires i <= SIZE && j <= SIZE && Byte(i) == Byte(j)
    ensures i == j
  {
    hide Byte, Index;
    IndexByte(i);
    IndexByte(j);
  }

  lemma PointsApart(ds: nat, ps: nat, ys: seq<nat>)
    requires ds + ps <= MAX_SHARDS
    requires forall t :: 0 <= t < |ys| ==> ys[t] < ps
    requires forall t, u :: 0 <= t < u < |ys| ==> ys[t] != ys[u]
    ensures DistinctPoints(Points(ds, ps))
    ensures DistinctPoints(Bytes(ys)) && Apart(Points(ds, ps), Bytes(ys))
  {
    hide Byte, Index;
    var xs := Points(ds, ps);
    forall i, j | 0 <= i < j < |xs| ensures xs[i] != xs[j] {
      if xs[i] == xs[j] { ByteInjective(ps + i, ps + j); }
    }
    forall t, u | 0 <= t < u < |ys| ensures Bytes(ys)[t] != Bytes(ys)[u] {
      if Bytes(ys)[t] == Bytes(ys)[u] { ByteInjective(ys[t], ys[u]); }
    }
    forall i, t | 0 <= i < |xs| && 0 <= t < |ys| ensures xs[i] != Bytes(ys)[t] {
      if xs[i] == Bytes(ys)[t] { ByteInjective(ps + i, ys[t]); }
    }
  }

  function Bytes(ys: seq<nat>): (b: Vector)
    requires forall t :: 0 <= t < |ys| ==> ys[t] <= SIZE
    ensures |b| == |ys| && forall t :: 0 <= t < |ys| ==> b[t] == Byte(ys[t])
  {
    seq(|ys|, t requires 0 <= t < |ys| => Byte(ys[t]))
  }

  /** The central property: data with at most as many nonzero entries as there are parity rows that
      vanish on it is zero. */
  lemma FewNonzero(ds: nat, ps: nat, x: Vector, rows: seq<nat>)
    requires ds + ps <= MAX_SHARDS && |x| == ds && |Support(x)| <= |rows|
    requires forall t :: 0 <= t < |rows| ==> rows[t] < ps
    requires forall t, u :: 0 <= t < u < |rows| ==> rows[t] != rows[u]
    requires forall t :: 0 <= t < |rows| ==> Dot(ParityRow(ds, ps, rows[t]), x) == 0
    ensures x == Zeros(ds)
  {
    hide Dot, Byte, Fractions, Add;
    var xs, ys := Points(ds, ps), Bytes(rows);
    PointsApart(ds, ps, rows);
    forall t | 0 <= t < |ys| ensures Dot(x, Fractions(xs, ys[t])) == 0 {
      DotComm(ParityRow(ds, ps, rows[t]), x);
    }
    Kernel(xs, x, ys);
  }

  /** Every square submatrix of the parity matrix is nonsingular. */
  lemma ParityNonsingular(ds: nat, ps: nat, rows: seq<nat>, columns: seq<nat>, k: nat)
    requires ds + ps <= MAX_SHARDS && |rows| == k && |columns| == k
    requires forall t :: 0 <= t < k ==> rows[t] < ps && columns[t] < ds
    requires forall t, u :: 0 <= t < u < k ==> rows[t] != rows[u] && columns[t] != columns[u]
    ensures !Singular(Submatrix(ds, ps, rows, columns), k)
  {
    hide Dot, Byte, Fractions, Submatrix, Bytes;
    var m := Submatrix(ds, ps, rows, columns);
    if Singular(m, k) {
      var x: Vector :| |x| == k && x != Zeros(k) && Solves(m, x, Zeros(k));
      var xs, ys := ColumnPoints(ps, columns), Bytes(rows);
      SubmatrixPoints(ds, ps, rows, columns, k);
      forall t | 0 <= t < k ensures Dot(x, Fractions(xs, ys[t])) == 0 {
        SubmatrixRow(ds, ps, rows, columns, t);
        assert Dot(m[t], x) == 0;
        DotComm(m[t], x);
      }
      SubsetSize(Support(x), Range(0, k));
      Kernel(xs, x, ys);
    }
  }

  ghost function ColumnPoints(ps: nat, columns: seq<nat>): (xs: Vector)
    requires forall t :: 0 <= t < |columns| ==> ps + columns[t] <= SIZE
    ensures |xs| == |columns| && forall t :: 0 <= t < |columns| ==> xs[t] == Byte(ps + columns[t])
  {
    seq(|columns|, c requires 0 <= c < |columns| => Byte(ps + columns[c]))
  }

  lemma SubmatrixPoints(ds: nat, ps: nat, rows: seq<nat>, columns: seq<nat>, k: nat)
    requires ds + ps <= MAX_SHARDS && |rows| == k && |columns| == k
    requires forall t :: 0 <= t < k ==> rows[t] < ps && columns[t] < ds
    requires forall t, u :: 0 <= t < u < k ==> rows[t] != rows[u] && columns[t] != columns[u]
    ensures DistinctPoints(ColumnPoints(ps, columns)) && DistinctPoints(Bytes(rows))
    ensures Apart(ColumnPoints(ps, columns), Bytes(rows))
  {
    hide Byte, Bytes, ColumnPoints;
    var xs, ys := ColumnPoints(ps, columns), Bytes(rows);
    forall i, j | 0 <= i < j < k ensures xs[i] != xs[j] && ys[i] != ys[j] {
      if xs[i] == xs[j] { ByteInjective(ps + columns[i], ps + columns[j]); }
      if ys[i] == ys[j] { ByteInjective(rows[i], rows[j]); }
    }
    forall i, j | 0 <= i < k && 0 <= j < k ensures xs[i] != ys[j] {
      if xs[i] == ys[j] { ByteInjective(ps + columns[i], rows[j]); }
    }
  }

  lemma SubmatrixRow(ds: nat, ps: nat, rows: seq<nat>, columns: seq<nat>, t: nat)
    requires ds + ps <= MAX_SHARDS && t < |rows|
    requires forall t :: 0 <= t < |rows| ==> rows[t] < ps
    requires forall t :: 0 <= t < |columns| ==> columns[t] < ds
    ensures Submatrix(ds, ps, rows, columns)[t] == Fractions(ColumnPoints(ps, columns), Bytes(rows)[t])
  {
    hide Byte, Bytes, ColumnPoints, Fractions, ParityRow, Add;
    var row, fs := Submatrix(ds, ps, rows, columns)[t], Fractions(ColumnPoints(ps, columns), Bytes(rows)[t]);
    forall c | 0 <= c < |columns| ensures row[c] == fs[c] {
      assert row[c] == ParityRow(ds, ps, rows[t])[columns[c]];
    }
  }

  ghost function Submatrix(ds: nat, ps: nat, rows: seq<nat>, columns: seq<nat>): (m: Matrix)
    requires ds + ps <= MAX_SHARDS
    requires forall t :: 0 <= t < |rows| ==> rows[t] < ps
    requires forall t :: 0 <= t < |columns| ==> columns[t] < ds
    ensures |m| == |rows| && forall r :: 0 <= r < |rows| ==> |m[r]| == |columns|
  {
    seq(|rows|, r requires 0 <= r < |rows| =>
      seq(|columns|, c requires 0 <= c < |columns| => ParityRow(ds, ps, rows[r])[columns[c]]))
  }

  // ---- Which shards are used

  /** The members of e below n, in increasing order. */
  ghost function Members(e: set<nat>, n: nat): (s: seq<nat>) {
    if n == 0 then [] else if n - 1 in e then Members(e, n - 1) + [n - 1] else Members(e, n - 1)
  }

  ghost function Below(e: set<nat>, n: nat): (s: set<nat>) {
    set i: nat | i in e && i < n
  }

  /** The numbers below n that are not in e, in increasing order. */
  ghost function Others(e: set<nat>, n: nat): (s: seq<nat>) {
    if n == 0 then [] else if n - 1 in e then Others(e, n - 1) else Others(e, n - 1) + [n - 1]
  }

  lemma {:induction false} MembersFacts(e: set<nat>, n: nat)
    ensures |Members(e, n)| + |Others(e, n)| == n
    ensures forall t :: 0 <= t < |Members(e, n)| ==> t <= Members(e, n)[t] < n && Members(e, n)[t] in e
    ensures forall t, u :: 0 <= t < u < |Members(e, n)| ==> Members(e, n)[t] < Members(e, n)[u]
    ensures |Below(e, n)| == |Members(e, n)|
  {
    if n > 0 {
      MembersFacts(e, n - 1);
      assert Below(e, n) == if n - 1 in e then Below(e, n - 1) + {n - 1} else Below(e, n - 1);
    } else {
      assert Below(e, n) == {};
    }
  }

  lemma {:induction false} OthersFacts(e: set<nat>, n: nat)
    ensures forall t :: 0 <= t < |Others(e, n)| ==> Others(e, n)[t] < n && Others(e, n)[t] !in e
    ensures forall t, u :: 0 <= t < u < |Others(e, n)| ==> Others(e, n)[t] < Others(e, n)[u]
    ensures forall i: nat :: i < n && i !in e ==> i in Others(e, n)
  {
    if n > 0 { OthersFacts(e, n - 1); }
  }

  lemma {:induction false} MembersPrefix(e: set<nat>, i: nat, n: nat)
    requires i <= n
    ensures |Members(e, i)| <= |Members(e, n)| && Members(e, n)[..|Members(e, i)|] == Members(e, i)
    ensures |Others(e, i)| <= |Others(e, n)| && Others(e, n)[..|Others(e, i)|] == Others(e, i)
  {
    if i < n { MembersPrefix(e, i, n - 1); }
  }

  /** Walking along the list of members tells which numbers are members. */
  lemma MembersNext(e: set<nat>, i: nat, n: nat)
    requires i < n
    ensures |Members(e, i)| <= |Members(e, n)| && |Others(e, i)| <= i
    ensures i in e <==> |Members(e, i)| < |Members(e, n)| && Members(e, n)[|Members(e, i)|] == i
  {
    var j := |Members(e, i)|;
    MembersPrefix(e, i + 1, n);
    MembersFacts(e, i);
    MembersPrefix(e, i, n);
    if i in e {
      assert Members(e, i + 1)[j] == i;
    } else if j < |Members(e, n)| && Members(e, n)[j] == i {
      MembersFacts(e, n);
    }
  }

  /** Sufficiently many parity shards to replace the erased data shards e. */
  ghost predicate Usable(code: Code, e: set<nat>, chosen: seq<nat>) {
    && |chosen| == |Members(e, code.dataShards)|
    && (forall t :: 0 <= t < |chosen| ==> chosen[t] < code.parityShards)
    && (forall t, u :: 0 <= t < u < |chosen| ==> chosen[t] < chosen[u])
  }

  /** The number in the code of the shard behind row r of the decode matrix. */
  ghost function Source(code: Code, e: set<nat>, chosen: seq<nat>, r: nat): (i: nat)
    requires code.Valid() && Usable(code, e, chosen) && r < code.dataShards
    ensures i < |code.m|
  {
    MembersFacts(e, code.dataShards);
    OthersFacts(e, code.dataShards);
    var alive := Others(e, code.dataShards);
    if r < |alive| then alive[r] else code.dataShards + chosen[r - |alive|]
  }

  ghost function DecodeMatrix(code: Code, e: set<nat>, chosen: seq<nat>): (d: Matrix)
    requires code.Valid() && Usable(code, e, chosen)
    ensures Square(d, code.dataShards)
    ensures forall r: nat :: r < code.dataShards ==> d[r] == code.m[Source(code, e, chosen, r)]
  {
    seq(code.dataShards, r requires 0 <= r < code.dataShards => code.m[Source(code, e, chosen, r)])
  }

  /** Where the decode matrix gives zero in the rows of surviving data, the data is zero. */
  lemma AliveZero(code: Code, e: set<nat>, chosen: seq<nat>, x: Vector, y: Vector, i: nat)
    requires code.Valid() && Usable(code, e, chosen) && |x| == |y| == code.dataShards
    requires Solves(DecodeMatrix(code, e, chosen), x, y)
    requires i < code.dataShards && i !in e
    ensures exists r: nat :: r < |Others(e, code.dataShards)| <= code.dataShards
              && Others(e, code.dataShards)[r] == i && x[i] == y[r]
  {
    hide Dot, Others, Members, ParityRow;
    var ds := code.dataShards;
    OthersFacts(e, ds);
    MembersFacts(e, ds);
    var alive := Others(e, ds);
    var r: nat :| r < |alive| && alive[r] == i;
    var d := DecodeMatrix(code, e, chosen);
    assert Source(code, e, chosen, r) == i;
    assert d[r] == Unit(ds, i);
    assert Dot(d[r], x) == y[r];
    DotUnit(x, i);
  }

  lemma ParityZero(code: Code, e: set<nat>, chosen: seq<nat>, x: Vector, y: Vector, t: nat)
    requires code.Valid() && Usable(code, e, chosen) && |x| == |y| == code.dataShards
    requires Solves(DecodeMatrix(code, e, chosen), x, y) && t < |chosen|
    ensures |Others(e, code.dataShards)| + |chosen| == code.dataShards
    ensures Dot(ParityRow(code.dataShards, code.parityShards, chosen[t]), x) == y[|Others(e, code.dataShards)| + t]
  {
    hide Dot, Others, Members, ParityRow;
    var ds := code.dataShards;
    MembersFacts(e, ds);
    var r := |Others(e, ds)| + t;
    assert Source(code, e, chosen, r) == ds + chosen[t];
    assert Dot(DecodeMatrix(code, e, chosen)[r], x) == y[r];
  }

  lemma SupportWithin(x: Vector, s: set<nat>, n: nat)
    requires Support(x) <= s && |s| <= n
    ensures |Support(x)| <= n
  {
    SubsetSize(Support(x), s);
  }

  /** Whatever the surviving shards are, the decode matrix is nonsingular. */
  lemma DecodeMatrixNonsingular(code: Code, e: set<nat>, chosen: seq<nat>)
    requires code.Valid() && Usable(code, e, chosen)
    ensures !Singular(DecodeMatrix(code, e, chosen), code.dataShards)
  {
    hide Dot, Others, Members, ParityRow, DecodeMatrix, Solves;
    var ds := code.dataShards;
    var d := DecodeMatrix(code, e, chosen);
    if Singular(d, ds) {
      var x: Vector :| |x| == ds && x != Zeros(ds) && Solves(d, x, Zeros(ds));
      var s := Below(e, ds);
      MembersFacts(e, ds);
      forall i: nat | i in Support(x) ensures i in s {
        if i !in e { AliveZero(code, e, chosen, x, Zeros(ds), i); }
      }
      SupportWithin(x, s, |chosen|);
      forall t | 0 <= t < |chosen| ensures Dot(ParityRow(ds, code.parityShards, chosen[t]), x) == 0 {
        ParityZero(code, e, chosen, x, Zeros(ds), t);
      }
      FewNonzero(ds, code.parityShards, x, chosen);
      assert false;
    }
  }

  /** Every shard used contributes to every recovered one: in an erased place the data behind a
      single used shard is never zero. */
  lemma CoefficientNonzero(code: Code, e: set<nat>, chosen: seq<nat>, x: Vector, c: nat, j: nat)
    requires code.Valid() && Usable(code, e, chosen) && |x| == code.dataShards
    requires c < code.dataShards && j < code.dataShards && j in e
    requires Solves(DecodeMatrix(code, e, chosen), x, Unit(code.dataShards, c))
    ensures x[j] != 0
  {
    hide Dot, Others, Members, ParityRow, DecodeMatrix, Solves;
    var ds := code.dataShards;
    if x[j] == 0 {
      MembersFacts(e, ds);
      if c < |Others(e, ds)| {
        AliveCoefficient(code, e, chosen, x, c, j);
      } else {
        ParityCoefficient(code, e, chosen, x, c, j);
      }
    }
  }

  lemma AliveCoefficient(code: Code, e: set<nat>, chosen: seq<nat>, x: Vector, c: nat, j: nat)
    requires code.Valid() && Usable(code, e, chosen) && |x| == code.dataShards
    requires c < |Others(e, code.dataShards)| <= code.dataShards && j < code.dataShards && j in e
    requires Solves(DecodeMatrix(code, e, chosen), x, Unit(code.dataShards, c))
    ensures x[j] != 0
  {
    hide Dot, Others, Members, ParityRow, DecodeMatrix, Solves;
    var ds := code.dataShards;
    if x[j] == 0 {
      MembersFacts(e, ds);
      OthersFacts(e, ds);
      var alive := Others(e, ds);
      var s := Below(e, ds);
      forall i: nat | i in Support(x) ensures i in s - {j} + {alive[c]} {
        if i !in e { AliveZero(code, e, chosen, x, Unit(ds, c), i); }
      }
      SupportWithin(x, s - {j} + {alive[c]}, |chosen|);
      forall t | 0 <= t < |chosen| ensures Dot(ParityRow(ds, code.parityShards, chosen[t]), x) == 0 {
        ParityZero(code, e, chosen, x, Unit(ds, c), t);
      }
      FewNonzero(ds, code.parityShards, x, chosen);
      AliveZero(code, e, chosen, x, Unit(ds, c), alive[c]);
      assert false;
    }
  }

  lemma ParityCoefficient(code: Code, e: set<nat>, chosen: seq<nat>, x: Vector, c: nat, j: nat)
    requires code.Valid() && Usable(code, e, chosen) && |x| == code.dataShards
    requires |Others(e, code.dataShards)| <= c < code.dataShards && j < code.dataShards && j in e
    requires Solves(DecodeMatrix(code, e, chosen), x, Unit(code.dataShards, c))
    ensures x[j] != 0
  {
    hide Dot, Others, Members, ParityRow, DecodeMatrix, Solves;
    var ds := code.dataShards;
    if x[j] == 0 {
      MembersFacts(e, ds);
      var t0 := c - |Others(e, ds)|;
      var s := Below(e, ds);
      forall i: nat | i in Support(x) ensures i in s - {j} {
        if i !in e { AliveZero(code, e, chosen, x, Unit(ds, c), i); }
      }
      SupportWithin(x, s - {j}, |chosen| - 1);
      var rest := chosen[..t0] + chosen[t0 + 1..];
      forall t | 0 <= t < |rest| ensures Dot(ParityRow(ds, code.parityShards, rest[t]), x) == 0 {
        ParityZero(code, e, chosen, x, Unit(ds, c), if t < t0 then t else t + 1);
      }
      FewNonzero(ds, code.parityShards, x, rest);
      ParityZero(code, e, chosen, x, Unit(ds, c), t0);
      DotZeros(ParityRow(ds, code.parityShards, chosen[t0]));
      assert false;
    }
  }
}
