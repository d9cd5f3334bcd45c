/** invert_mat and the row operations of rs.c, on arrays. The C code keeps a matrix in one block
    of memory; here it is the sequence of its rows. */
module MatrixInversion {
  import opened Sets
  import opened Field
  import opened FieldLaws
  import opened FieldTables
  import opened Vectors
  import opened Inversion

  type Rows = seq<array<gf>>

  /** The array a shares no memory with the rows. */
  ghost predicate Outside(rows: Rows, a: array<int>) {
    forall r :: 0 <= r < |rows| ==> rows[r] as object != a as object
  }

  ghost predicate IsMatrix(rows: Rows, k: nat) {
    |rows| == k && Distinct(rows) && forall r :: 0 <= r < k ==> rows[r].Length == k
  }

  ghost function Values(rows: Rows): (m: Matrix)
    reads rows
    ensures |m| == |rows| && forall r :: 0 <= r < |rows| ==> m[r] == rows[r][..]
  {
    seq(|rows|, r requires 0 <= r < |rows| reads rows => rows[r][..])
  }

  // ---- Row operations

  /** dst := dst + c * src */
  method AddMul(tables: Tables, dst: array<gf>, src: array<gf>, c: gf)
    requires tables.Valid() && dst.Length == src.Length && dst != src
    modifies dst
    ensures dst[..] == Plus(old(dst[..]), Scale(c, src[..]))
  {
    hide Mul, Add, Tables.Valid, Tables.Times;
    if c != 0 {
      for i := 0 to dst.Length
        invariant forall j :: 0 <= j < i ==> dst[j] == Add(old(dst[j]), Mul(c, src[j]))
        invariant forall j :: i <= j < dst.Length ==> dst[j] == old(dst[j])
      {
        dst[i] := Add(dst[i], tables.Times(c, src[i]));
      }
    } else {
      forall j | 0 <= j < dst.Length ensures dst[j] == Add(old(dst[j]), Mul(c, src[j])) {
        MulZeroLeft(c, src[j]);
        AddFacts(dst[j], 0);
      }
    }
  }

  /** dst := c * src, except that for c = 0 the source clears c bytes, that is, none. */
  method MulInto(tables: Tables, dst: array<gf>, src: array<gf>, c: gf)
    requires tables.Valid() && dst.Length == src.Length && dst != src
    modifies dst
    ensures dst[..] == if c == 0 then old(dst[..]) else Scale(c, src[..])
  {
    hide Mul, Add, Tables.Valid, Tables.Times;
    if c != 0 {
      for i := 0 to dst.Length
        invariant forall j :: 0 <= j < i ==> dst[j] == Mul(c, src[j])
      {
        dst[i] := tables.Times(c, src[i]);
      }
    }
  }

  method SwapRows(rows: Rows, i: nat, j: nat, k: nat)
    requires IsMatrix(rows, k) && i < k && j < k
    modifies rows
    ensures Values(rows) == Swap(old(Values(rows)), i, j)
  {
    if i != j {
      for ix := 0 to k
        invariant forall r | 0 <= r < k && r != i && r != j :: rows[r][..] == old(rows[r][..])
        invariant forall n | 0 <= n < ix :: rows[i][n] == old(rows[j][n]) && rows[j][n] == old(rows[i][n])
        invariant forall n | ix <= n < k :: rows[i][n] == old(rows[i][n]) && rows[j][n] == old(rows[j][n])
      {
        rows[i][ix], rows[j][ix] := rows[j][ix], rows[i][ix];
      }
      assert rows[i][..] == old(rows[j][..]) && rows[j][..] == old(rows[i][..]);
    }
  }

  method ScalePivotRow(tables: Tables, row: array<gf>, c: nat)
    requires tables.Valid() && c < row.Length && row[c] != 0
    modifies row
    ensures row[..] == PivotRow(old(row[..]), c)
  {
    hide Mul, Add, Tables.Valid, Tables.Reciprocal, Tables.Times;
    var p := row[c];
    if p != 1 {
      p := tables.Reciprocal(p);
      row[c] := 1;
      label Scaling:
      for ix := 0 to row.Length
        invariant forall j :: 0 <= j < ix ==> row[j] == Mul(p, old@Scaling(row[j]))
        invariant forall j :: ix <= j < row.Length ==> row[j] == old@Scaling(row[j])
      {
        row[ix] := tables.Times(p, row[ix]);
      }
      assert row[..] == Scale(p, old(row[..])[c := 1]);
    } else {
      InverseOfOne();
      forall j | 0 <= j < row.Length ensures Mul(1, row[j]) == row[j] {
        MulOne(row[j]);
      }
      assert row[..][c := 1] == row[..];
      assert row[..] == Scale(1, row[..]);
    }
  }

  lemma InverseOfOne()
    ensures Inverse(1) == 1
  {
    hide *;
    MulOne(1);
    InverseUnique(1, 1);
  }

  /** A pivot row that is a unit vector makes no difference to the other rows. */
  lemma EliminatedByUnit(row: Vector, c: nat, p: Vector)
    requires c < |row| == |p| && p == Unit(|row|, c)
    ensures Eliminated(row, c, p) == row
  {
    hide Mul, Add;
    forall i | 0 <= i < |row| ensures Eliminated(row, c, p)[i] == row[i] {
      MulOne(row[c]);
      MulZero(row[c]);
      AddFacts(row[i], 0);
    }
  }

  /** Subtracts multiples of the pivot row from all other rows, unless it is a unit vector. */
  method EliminateColumn(tables: Tables, rows: Rows, idRow: array<gf>, c: nat, k: nat)
    requires tables.Valid() && IsMatrix(rows, k) && c < k && idRow !in rows
    requires idRow.Length == k && idRow[..] == Zeros(k)
    modifies rows, idRow
    ensures idRow[..] == Zeros(k)
    ensures rows[c][..] == old(rows[c][..])
    ensures forall r | 0 <= r < k && r != c :: rows[r][..] == Eliminated(old(rows[r][..]), c, old(rows[c][..]))
  {
    hide Tables.Valid, Eliminated;
    ghost var p := rows[c][..];
    idRow[c] := 1;
    assert idRow[..] == Unit(k, c);
    if rows[c][..] != idRow[..] {
      for ix := 0 to k
        invariant rows[c][..] == p && idRow[..] == Unit(k, c)
        invariant forall r | 0 <= r < ix && r != c :: rows[r][..] == Eliminated(old(rows[r][..]), c, p)
        invariant forall r | ix <= r < k && r != c :: rows[r][..] == old(rows[r][..])
      {
        if ix != c {
          EliminateRow(tables, rows[ix], rows[c], c);
        }
      }
    } else {
      forall r | 0 <= r < k && r != c ensures Eliminated(rows[r][..], c, p) == rows[r][..] {
        EliminatedByUnit(rows[r][..], c, p);
      }
    }
    idRow[c] := 0;
    assert idRow[..] == Zeros(k);
  }

  method EliminateRow(tables: Tables, row: array<gf>, pivotRow: array<gf>, c: nat)
    requires tables.Valid() && row != pivotRow && row.Length == pivotRow.Length && c < row.Length
    modifies row
    ensures row[..] == Eliminated(old(row[..]), c, pivotRow[..])
  {
    var factor := row[c];
    row[c] := 0;
    assert row[..] == old(row[..])[c := 0];
    AddMul(tables, row, pivotRow, factor);
  }

  // ---- Pivots

  ghost predicate IsMarks(ipiv: seq<int>, k: nat) {
    |ipiv| == k && forall i :: 0 <= i < k ==> ipiv[i] == 0 || ipiv[i] == 1
  }

  /** The columns already used. */
  ghost function Pivots(ipiv: seq<int>): set<nat> {
    set i: nat | i < |ipiv| && ipiv[i] == 1
  }

  lemma PivotCount(ipiv: seq<int>, k: nat)
    requires IsMarks(ipiv, k)
    ensures |Pivots(ipiv)| <= k
    ensures |Pivots(ipiv)| == k ==> forall i: nat | i < k :: i in Pivots(ipiv)
    ensures |Pivots(ipiv)| < k ==> exists i: nat :: i < k && i !in Pivots(ipiv)
  {
    var s, all := Pivots(ipiv), Range(0, k);
    SubsetSize(s, all);
    if i: nat :| i < k && i !in s {
      SubsetSize(s, all - {i});
    } else {
      SubsetSize(all, s);
    }
  }

  lemma PivotAdded(ipiv: seq<int>, c: nat, k: nat)
    requires IsMarks(ipiv, k) && c < k && ipiv[c] == 0
    ensures IsMarks(ipiv[c := 1], k)
    ensures Pivots(ipiv[c := 1]) == Pivots(ipiv) + {c} && c !in Pivots(ipiv)
    ensures |Pivots(ipiv[c := 1])| == |Pivots(ipiv)| + 1
  {
  }

  /** First the diagonal, then any row and column that have no pivot yet; icol is -1 if all their
      entries are 0. */
  method FindPivot(rows: Rows, ipiv: array<int>, col: nat, k: nat) returns (irow: int, icol: int)
    requires IsMatrix(rows, k) && ipiv.Length == k && IsMarks(ipiv[..], k) && col < k
    ensures icol == -1 ==> forall r, c | 0 <= r < k && 0 <= c < k && ipiv[r] == 0 && ipiv[c] == 0 :: rows[r][c] == 0
    ensures icol != -1 ==> 0 <= irow < k && 0 <= icol < k && ipiv[irow] == 0 && ipiv[icol] == 0 && rows[irow][icol] != 0
  {
    irow, icol := -1, -1;
    assert forall i :: 0 <= i < k ==> ipiv[i] == ipiv[..][i];
    if ipiv[col] != 1 && rows[col][col] != 0 {
      return col, col;
    }
    for row := 0 to k
      invariant icol == -1
      invariant forall r, c | 0 <= r < row && 0 <= c < k && ipiv[r] == 0 && ipiv[c] == 0 :: rows[r][c] == 0
    {
      if ipiv[row] != 1 {
        for ix := 0 to k
          invariant icol == -1
          invariant forall c | 0 <= c < ix && ipiv[c] == 0 :: rows[row][c] == 0
        {
          if ipiv[ix] == 0 {
            if rows[row][ix] != 0 {
              return row, ix;
            }
          } else if ipiv[ix] > 1 {
            assert false;
          }
        }
      }
    }
  }

  /** The row permuted matrix after each column, from the row and column of each pivot. */
  ghost predicate History(ms: seq<Matrix>, indxr: seq<int>, indxc: seq<int>, n: nat, k: nat) {
    && |ms| == n + 1 && n <= |indxr| && n <= |indxc|
    && (forall t :: 0 <= t <= n ==> Square(ms[t], k))
    && (forall t :: 0 <= t < n ==>
         0 <= indxr[t] < k && 0 <= indxc[t] < k && ms[t + 1] == Swap(ms[t], indxr[t], indxc[t]))
  }

  lemma {:induction false} HistorySingular(ms: seq<Matrix>, indxr: seq<int>, indxc: seq<int>, n: nat, k: nat)
    requires History(ms, indxr, indxc, n, k) && Singular(ms[n], k)
    ensures Singular(ms[0], k)
  {
    hide Singular, Swap;
    if n > 0 {
      SwapSingular(ms[n - 1], indxr[n - 1], indxc[n - 1], k);
      HistorySingular(ms[..n], indxr, indxc, n - 1, k);
    }
  }

  /** One column: 1 if there is no pivot for it. */
  method PivotColumn(tables: Tables, rows: Rows, ipiv: array<int>, indxr: array<int>, indxc: array<int>,
                     idRow: array<gf>, col: nat, k: nat, ghost m: Matrix)
    returns (error: int, ghost m': Matrix)
    requires tables.Valid() && IsMatrix(rows, k) && col < k && idRow !in rows
    requires ipiv.Length == k && indxr.Length == k && indxc.Length == k && idRow.Length == k
    requires ipiv != indxr && ipiv != indxc && indxr != indxc
    requires Outside(rows + [idRow], ipiv) && Outside(rows + [idRow], indxr) && Outside(rows + [idRow], indxc)
    requires IsMarks(ipiv[..], k) && |Pivots(ipiv[..])| == col && idRow[..] == Zeros(k)
    requires Square(m, k) && Tableau(m, Values(rows), Pivots(ipiv[..]), k)
    modifies rows, ipiv, indxr, indxc, idRow
    ensures error == 0 || error == 1
    ensures error == 1 ==> Singular(m, k)
    ensures error == 0 ==> 0 <= indxr[col] < k && 0 <= indxc[col] < k && m' == Swap(m, indxr[col], indxc[col])
    ensures error == 0 ==> Square(m', k) && IsMarks(ipiv[..], k) && |Pivots(ipiv[..])| == col + 1
    ensures error == 0 ==> Tableau(m', Values(rows), Pivots(ipiv[..]), k)
    ensures idRow[..] == Zeros(k)
    ensures forall t | 0 <= t < col :: indxr[t] == old(indxr[t]) && indxc[t] == old(indxc[t])
  {
    hide Tableau, Pivots, Swap, Tables.Valid, Singular;
    m' := m;
    AllOutside(rows, idRow, ipiv, indxr, indxc);
    var irow, icol := FindPivot(rows, ipiv, col, k);
    if icol == -1 {
      StuckSingular(m, Values(rows), ipiv[..], k);
      return 1, m';
    }
    PivotAdded(ipiv[..], icol, k);
    ipiv[icol] := ipiv[icol] + 1;
    assert ipiv[..] == old(ipiv[..])[icol := 1];
    NotPivot(old(ipiv[..]), irow);
    m' := BringToDiagonal(rows, irow, icol, k, m, old(Pivots(ipiv[..])));
    indxr[col] := irow;
    indxc[col] := icol;
    Exchange(tables, rows, idRow, icol, k, m', old(Pivots(ipiv[..])));
    return 0, m';
  }

  lemma AllOutside(rows: Rows, idRow: array<gf>, a: array<int>, b: array<int>, c: array<int>)
    requires Outside(rows + [idRow], a) && Outside(rows + [idRow], b) && Outside(rows + [idRow], c)
    ensures idRow as object != a as object && idRow as object != b as object && idRow as object != c as object
    ensures Outside(rows, a) && Outside(rows, b) && Outside(rows, c)
  {
    assert (rows + [idRow])[|rows|] == idRow;
    assert forall r | 0 <= r < |rows| :: (rows + [idRow])[r] == rows[r];
  }

  /** Moves the pivot to the diagonal, and m along with it. */
  method BringToDiagonal(rows: Rows, irow: nat, icol: nat, k: nat, ghost m: Matrix, ghost pivots: set<nat>)
    returns (ghost m': Matrix)
    requires IsMatrix(rows, k) && irow < k && icol < k && irow !in pivots && icol !in pivots
    requires rows[irow][icol] != 0
    requires Square(m, k) && Tableau(m, Values(rows), pivots, k)
    modifies rows
    ensures m' == Swap(m, irow, icol) && Square(m', k)
    ensures rows[icol][icol] != 0
    ensures Tableau(m', Values(rows), pivots, k)
  {
    hide Tableau, Swap;
    SwapTableau(m, Values(rows), pivots, irow, icol, k);
    m' := Swap(m, irow, icol);
    SwapGives(Values(rows), irow, icol);
    SwapRows(rows, irow, icol, k);
    assert Values(rows)[icol][icol] != 0;
  }

  method Exchange(tables: Tables, rows: Rows, idRow: array<gf>, c: nat, k: nat, ghost m: Matrix, ghost pivots: set<nat>)
    requires tables.Valid() && IsMatrix(rows, k) && c < k && c !in pivots && idRow !in rows
    requires idRow.Length == k && idRow[..] == Zeros(k)
    requires rows[c][c] != 0
    requires Square(m, k) && Tableau(m, Values(rows), pivots, k)
    modifies rows, idRow
    ensures Tableau(m, Values(rows), pivots + {c}, k) && idRow[..] == Zeros(k)
  {
    hide Tableau, Tables.Valid, PivotRow, Eliminated;
    ghost var b := Values(rows);
    ExchangeTableau(m, b, pivots, c, k);
    ScalePivotRow(tables, rows[c], c);
    EliminateColumn(tables, rows, idRow, c, k);
    IsExchanged(b, Values(rows), c, k);
  }

  lemma SwapGives(m: Matrix, i: nat, j: nat)
    requires i < |m| && j < |m|
    ensures |Swap(m, i, j)| == |m| && Swap(m, i, j)[j] == m[i]
  {
  }

  lemma NotPivot(ipiv: seq<int>, r: nat)
    requires r < |ipiv| && ipiv[r] == 0
    ensures r !in Pivots(ipiv)
  {
  }

  lemma StuckSingular(m: Matrix, b: Matrix, ipiv: seq<int>, k: nat)
    requires IsMarks(ipiv, k) && Square(m, k) && Square(b, k) && Tableau(m, b, Pivots(ipiv), k)
    requires |Pivots(ipiv)| < k
    requires forall r, c | 0 <= r < k && 0 <= c < k && ipiv[r] == 0 && ipiv[c] == 0 :: b[r][c] == 0
    ensures Singular(m, k)
  {
    hide Tableau, Singular;
    PivotCount(ipiv, k);
    var c: nat :| c < k && c !in Pivots(ipiv);
    NoPivotSingular(m, b, Pivots(ipiv), c, k);
  }

  lemma IsExchanged(b: Matrix, b': Matrix, c: nat, k: nat)
    requires Square(b, k) && Square(b', k) && c < k
    requires b'[c] == PivotRow(b[c], c)
    requires forall r | 0 <= r < k && r != c :: b'[r] == Eliminated(b[r], c, b'[c])
    ensures b' == Exchanged(b, c, k)
  {
    hide PivotRow, Eliminated;
  }

  method UnscrambleColumns(rows: Rows, i: nat, j: nat, k: nat)
    requires IsMatrix(rows, k) && i < k && j < k && i != j
    modifies rows
    ensures Square(old(Values(rows)), k) && Values(rows) == SwapColumns(old(Values(rows)), i, j, k)
  {
    for row := 0 to k
      invariant forall r | 0 <= r < row :: rows[r][..] == Swap(old(rows[r][..]), i, j)
      invariant forall r | row <= r < k :: rows[r][..] == old(rows[r][..])
    {
      rows[row][i], rows[row][j] := rows[row][j], rows[row][i];
      assert rows[row][..] == Swap(old(rows[row][..]), i, j);
    }
  }

  /** Replaces a square matrix by its inverse; returns 0 exactly if there is one. */
  method InvertMat(tables: Tables, rows: Rows, k: nat) returns (error: int)
    requires tables.Valid() && IsMatrix(rows, k)
    modifies rows
    ensures Square(old(Values(rows)), k) && Square(Values(rows), k)
    ensures error == 0 || error == 1
    ensures error == 0 <==> Invertible(old(Values(rows)), k)
    ensures error == 0 <==> !Singular(old(Values(rows)), k)
    ensures error == 0 ==> IsInverse(Values(rows), old(Values(rows)), k)
    ensures error == 0 ==> Undoes(Values(rows), old(Values(rows)), k)
  {
    hide Tableau, Pivots, Swap, Undoes, Singular, Invertible, IsInverse, Tables.Valid;
    var indxc := new int[k](_ => 0);
    var indxr := new int[k](_ => 0);
    var ipiv := new int[k](_ => 0);
    var idRow := new gf[k](_ => 0);
    assert idRow[..] == Zeros(k);
    ghost var ms := [Values(rows)];
    NoPivots(ipiv[..]);
    StartTableau(ms[0], k);
    error := 0;
    for col := 0 to k
      invariant IsMarks(ipiv[..], k) && |Pivots(ipiv[..])| == col && idRow[..] == Zeros(k)
      invariant History(ms, indxr[..], indxc[..], col, k) && ms[0] == old(Values(rows))
      invariant Tableau(ms[col], Values(rows), Pivots(ipiv[..]), k)
    {
      ghost var r0, c0 := indxr[..], indxc[..];
      ghost var m';
      error, m' := PivotColumn(tables, rows, ipiv, indxr, indxc, idRow, col, k, ms[col]);
      if error != 0 {
        HistorySingular(ms, r0, c0, col, k);
        SingularNotInvertible(ms[0], k);
        return 1;
      }
      HistoryGrows(ms, r0, c0, indxr[..], indxc[..], col, k, m');
      ms := ms + [m'];
    }
    PivotCount(ipiv[..], k);
    FullTableau(ms[k], Values(rows), Pivots(ipiv[..]), k);
    Unscramble(rows, indxr, indxc, k, ms);
    UndoesInverse(Values(rows), ms[0], k);
    return 0;
  }

  lemma NoPivots(ipiv: seq<int>)
    requires forall i :: 0 <= i < |ipiv| ==> ipiv[i] == 0
    ensures Pivots(ipiv) == {}
  {
  }

  lemma HistoryGrows(ms: seq<Matrix>, r0: seq<int>, c0: seq<int>, r1: seq<int>, c1: seq<int>, n: nat, k: nat, m: Matrix)
    requires History(ms, r0, c0, n, k) && |r1| == |c1| == k && n < k && Square(m, k)
    requires |r0| == |c0| == k
    requires forall t | 0 <= t < n :: r1[t] == r0[t] && c1[t] == c0[t]
    requires 0 <= r1[n] < k && 0 <= c1[n] < k && m == Swap(ms[n], r1[n], c1[n])
    ensures History(ms + [m], r1, c1, n + 1, k)
  {
    hide Swap;
  }

  method Unscramble(rows: Rows, indxr: array<int>, indxc: array<int>, k: nat, ghost ms: seq<Matrix>)
    requires IsMatrix(rows, k) && indxr.Length == k && indxc.Length == k
    requires Outside(rows, indxr) && Outside(rows, indxc)
    requires History(ms, indxr[..], indxc[..], k, k)
    requires Undoes(Values(rows), ms[k], k)
    modifies rows
    ensures Undoes(Values(rows), ms[0], k)
  {
    hide Undoes, Swap;
    var col := k;
    while col > 0
      invariant 0 <= col <= k && Undoes(Values(rows), ms[col], k)
      invariant History(ms, indxr[..], indxc[..], k, k)
    {
      col := col - 1;
      ghost var b := Values(rows);
      assert indxr[col] == indxr[..][col] && indxc[col] == indxc[..][col];
      SwapUndoes(b, ms[col], indxr[col], indxc[col], k);
      if indxr[col] != indxc[col] {
        UnscrambleColumns(rows, indxr[col], indxc[col], k);
      } else {
        SwapSame(b, indxr[col], k);
      }
    }
  }

  lemma SwapSame(b: Matrix, i: nat, k: nat)
    requires Square(b, k) && i < k
    ensures SwapColumns(b, i, i, k) == b
  {
    forall r | 0 <= r < k ensures SwapColumns(b, i, i, k)[r] == b[r] {
      assert Swap(b[r], i, i) == b[r];
    }
  }
}
