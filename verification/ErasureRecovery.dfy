/** reed_solomon_decode of rs.c. */
module ErasureRecovery {
  import opened Sets
  import opened Field
  import opened FieldTables
  import opened Vectors
  import opened Inversion
  import opened MatrixInversion
  import opened ErasureCode
  import opened ShardCoding

  // ---- Decoding one group

  ghost predicate Increasing(s: seq<nat>) {
    forall i, j :: 0 <= i < j < |s| ==> s[i] < s[j]
  }

  /** The pass over the erased blocks that ends at the first one with nothing smaller behind it. It
      changes nothing if they are sorted. */
  method SortErased(erased: array<nat>)
    modifies erased
    ensures multiset(erased[..]) == multiset(old(erased[..]))
    ensures Increasing(old(erased[..])) ==> erased[..] == old(erased[..])
  {
    for i := 0 to erased.Length
      invariant multiset(erased[..]) == multiset(old(erased[..]))
      invariant Increasing(old(erased[..])) ==> erased[..] == old(erased[..])
    {
      var swap := false;
      for j := i + 1 to erased.Length
        invariant multiset(erased[..]) == multiset(old(erased[..]))
        invariant Increasing(old(erased[..])) ==> erased[..] == old(erased[..])
      {
        if erased[i] > erased[j] {
          assert erased[..][i] > erased[..][j];
          erased[i], erased[j] := erased[j], erased[i];
          swap := true;
        }
      }
      if !swap {
        break;
      }
    }
  }

  /** The shards behind the rows of the decode matrix hold what the code makes of the data. */
  ghost predicate Holds(code: Code, e: set<nat>, chosen: seq<nat>, sent: Matrix, sub: Matrix, size: nat)
    requires code.Valid() && Usable(code, e, chosen)
    requires |sent| == code.dataShards && forall i :: 0 <= i < |sent| ==> |sent[i]| == size
  {
    && |sub| == code.dataShards
    && forall r: nat :: r < |sub| ==> sub[r] == Combine(DecodeMatrix(code, e, chosen)[r], sent, size)
  }

  lemma CombineUnit(sent: Matrix, i: nat, size: nat)
    requires i < |sent| && forall r :: 0 <= r < |sent| ==> |sent[r]| == size
    ensures Combine(Unit(|sent|, i), sent, size) == sent[i]
  {
    hide Dot, Combine, Unit;
    forall b: nat | b < size ensures Combine(Unit(|sent|, i), sent, size)[b] == sent[i][b] {
      CombineColumns(Unit(|sent|, i), sent, size, b);
      DotUnit(Column(sent, b), i);
    }
  }

  /** The row of an erased shard in the inverse recovers it. */
  lemma RowRecovers(code: Code, e: set<nat>, chosen: seq<nat>, sent: Matrix, sub: Matrix, b: Matrix, j: nat, size: nat)
    requires code.Valid() && Usable(code, e, chosen) && j < code.dataShards
    requires |sent| == code.dataShards && forall i :: 0 <= i < |sent| ==> |sent[i]| == size
    requires Holds(code, e, chosen, sent, sub, size)
    requires Square(b, code.dataShards) && Undoes(b, DecodeMatrix(code, e, chosen), code.dataShards)
    ensures Combine(b[j], sub, size) == sent[j]
  {
    hide Dot, Combine, DecodeMatrix, Usable, Code.Valid;
    var d := DecodeMatrix(code, e, chosen);
    forall p: nat | p < size ensures Combine(b[j], sub, size)[p] == sent[j][p] {
      var x, y := Column(sent, p), Column(sub, p);
      forall r | 0 <= r < |d| ensures Dot(d[r], x) == y[r] {
        CombineColumns(d[r], sent, size, p);
      }
      assert Solves(d, x, y);
      CombineColumns(b[j], sub, size, p);
    }
  }

  /** The first coefficient of such a row is not zero. */
  lemma FirstCoefficient(code: Code, e: set<nat>, chosen: seq<nat>, b: Matrix, j: nat)
    requires code.Valid() && Usable(code, e, chosen) && j < code.dataShards && j in e
    requires Square(b, code.dataShards) && Undoes(b, DecodeMatrix(code, e, chosen), code.dataShards)
    ensures b[j][0] != 0
  {
    hide Dot, DecodeMatrix, Usable, Solves;
    var ds := code.dataShards;
    UnitColumn(b, ds, 0);
    CoefficientNonzero(code, e, chosen, Column(b, 0), 0, j);
  }

  lemma RowsRecover(code: Code, e: set<nat>, chosen: seq<nat>, sent: Matrix, sub: Matrix, b: Matrix, rows: Matrix, order: seq<nat>, size: nat)
    requires code.Valid() && Usable(code, e, chosen) && |rows| == |order|
    requires |sent| == code.dataShards && forall i :: 0 <= i < |sent| ==> |sent[i]| == size
    requires Holds(code, e, chosen, sent, sub, size)
    requires Square(b, code.dataShards) && Undoes(b, DecodeMatrix(code, e, chosen), code.dataShards)
    requires forall o :: 0 <= o < |order| ==> order[o] < code.dataShards && order[o] in e && rows[o] == b[order[o]]
    ensures forall o :: 0 <= o < |order| ==> rows[o][0] != 0 && Combine(rows[o], sub, size) == sent[order[o]]
  {
    hide Combine, DecodeMatrix, Usable, Code.Valid, Undoes;
    forall o | 0 <= o < |order| ensures rows[o][0] != 0 && Combine(rows[o], sub, size) == sent[order[o]] {
      FirstCoefficient(code, e, chosen, b, order[o]);
      RowRecovers(code, e, chosen, sent, sub, b, order[o], size);
    }
  }

  /** The rows of the surviving data and of the chosen parity shards, and the shards themselves. */
  method SelectShards(code: Code, data: Rows, fec: Rows, fecNos: seq<nat>, erased: array<nat>, ghost e: set<nat>)
    returns (matrix: Rows, sub: Rows)
    requires code.Valid() && Usable(code, e, fecNos) && |fec| == |fecNos|
    requires |data| == code.dataShards && erased[..] == Members(e, code.dataShards)
    ensures IsMatrix(matrix, code.dataShards) && (forall r :: 0 <= r < |matrix| ==> fresh(matrix[r]))
    ensures Values(matrix) == DecodeMatrix(code, e, fecNos)
    ensures |sub| == code.dataShards && Picked(code, e, fecNos, data, fec, sub)
  {
    hide ParityRow, Members, Others, Unit;
    var ds := code.dataShards;
    matrix := NewMatrix(ds, ds);
    sub := [];
    var j := 0;
    MembersFacts(e, ds);
    OthersFacts(e, ds);
    ListsStart(e);
    for i := 0 to ds
      invariant j == |Members(e, i)| && |sub| == |Others(e, i)| <= i
      invariant Picked(code, e, fecNos, data, fec, sub)
      invariant forall r: nat :: r < |sub| ==> r < ds && matrix[r][..] == DecodeMatrix(code, e, fecNos)[r]
    {
      MembersNext(e, i, ds);
      ListsNext(e, i, ds);
      if j < erased.Length && erased[..][j] == i {
        j := j + 1;
      } else {
        CopyVector(matrix[|sub|], code.m[i]);
        sub := sub + [data[i]];
      }
    }
    for i := 0 to |fec|
      invariant |sub| == |Others(e, ds)| + i
      invariant Picked(code, e, fecNos, data, fec, sub)
      invariant forall r: nat :: r < |sub| ==> r < ds && matrix[r][..] == DecodeMatrix(code, e, fecNos)[r]
    {
      CopyVector(matrix[|sub|], code.m[ds + fecNos[i]]);
      sub := sub + [fec[i]];
    }
  }

  ghost predicate Picked(code: Code, e: set<nat>, fecNos: seq<nat>, data: Rows, fec: Rows, sub: Rows)
    requires code.Valid() && Usable(code, e, fecNos) && |fec| == |fecNos| && |data| == code.dataShards
  {
    && |sub| <= code.dataShards
    && forall r: nat :: r < |sub| ==> sub[r] == SourceShard(code, e, fecNos, data, fec, r)
  }

  /** The shard behind row r of the decode matrix. */
  ghost function SourceShard(code: Code, e: set<nat>, fecNos: seq<nat>, data: Rows, fec: Rows, r: nat): array<gf>
    requires code.Valid() && Usable(code, e, fecNos) && |fec| == |fecNos| && |data| == code.dataShards
    requires r < code.dataShards
  {
    MembersFacts(e, code.dataShards);
    OthersFacts(e, code.dataShards);
    var alive := Others(e, code.dataShards);
    if r < |alive| then data[alive[r]] else fec[r - |alive|]
  }

  lemma ListsStart(e: set<nat>)
    ensures Members(e, 0) == [] && Others(e, 0) == []
  {
  }

  lemma ListsNext(e: set<nat>, i: nat, n: nat)
    requires i < n
    ensures |Members(e, i + 1)| == |Members(e, i)| + if i in e then 1 else 0
    ensures |Others(e, i + 1)| == |Others(e, i)| + if i in e then 0 else 1
    ensures i !in e ==> |Others(e, i)| < |Others(e, n)| && Others(e, n)[|Others(e, i)|] == i
  {
    MembersPrefix(e, i + 1, n);
  }

  method CopyVector(dst: array<gf>, v: Vector)
    requires dst.Length == |v|
    modifies dst
    ensures dst[..] == v
  {
    for c := 0 to |v|
      invariant forall i :: 0 <= i < c ==> dst[i] == v[i]
    {
      dst[c] := v[c];
    }
  }

  /** The shards of a group are the code of the data sent, apart from the erased ones. */
  ghost predicate Arrived(code: Code, e: set<nat>, fecNos: seq<nat>, sent: Matrix, data: Rows, fec: Rows, size: nat)
    requires code.Valid() && Usable(code, e, fecNos) && |fec| == |fecNos|
    reads data, fec
  {
    && |data| == code.dataShards == |sent| && Sized(data, size) && Sized(fec, size)
    && (forall i :: 0 <= i < |sent| ==> |sent[i]| == size)
    && (forall i: nat :: i < |data| && i !in e ==> data[i][..] == sent[i])
    && (forall t: nat :: t < |fec| ==> fec[t][..] == Combine(code.m[code.dataShards + fecNos[t]], sent, size))
  }

  lemma ArrivedHolds(code: Code, e: set<nat>, fecNos: seq<nat>, sent: Matrix, data: Rows, fec: Rows, sub: Rows, size: nat)
    requires code.Valid() && Usable(code, e, fecNos) && |fec| == |fecNos| && |data| == code.dataShards
    requires Arrived(code, e, fecNos, sent, data, fec, size)
    requires |sub| == code.dataShards && Picked(code, e, fecNos, data, fec, sub)
    ensures Holds(code, e, fecNos, sent, Values(sub), size) && Sized(sub, size)
  {
    hide Combine, Others, Members, ParityRow, Unit;
    var ds := code.dataShards;
    MembersFacts(e, ds);
    OthersFacts(e, ds);
    forall r: nat | r < |sub|
      ensures sub[r][..] == Combine(DecodeMatrix(code, e, fecNos)[r], sent, size) && sub[r].Length == size
    {
      if r < |Others(e, ds)| {
        CombineUnit(sent, Others(e, ds)[r], size);
      }
    }
  }

  /** Moves the rows of the erased shards to the top. */
  method MoveRows(matrix: Rows, erased: array<nat>, k: nat)
    requires IsMatrix(matrix, k) && erased.Length <= k && Increasing(erased[..])
    requires forall r :: 0 <= r < k ==> matrix[r] as object != erased as object
    requires forall i :: 0 <= i < erased.Length ==> i <= erased[i] < k
    modifies matrix
    ensures forall i :: 0 <= i < erased.Length ==> matrix[i][..] == old(matrix[erased[i]][..])
  {
    ghost var order := erased[..];
    for i := 0 to erased.Length
      invariant erased[..] == order
      invariant forall t :: 0 <= t < i ==> matrix[t][..] == old(matrix[order[t]][..])
      invariant forall t :: i <= t < k ==> matrix[t][..] == old(matrix[t][..])
    {
      assert erased[..][i] == order[i];
      CopyRow(matrix[i], matrix[erased[i]], 0);
    }
  }

  method TopRows(matrix: Rows, erased: array<nat>, k: nat) returns (rows: Matrix)
    requires IsMatrix(matrix, k) && erased.Length <= k && Increasing(erased[..])
    requires forall r :: 0 <= r < k ==> matrix[r] as object != erased as object
    requires forall i :: 0 <= i < erased.Length ==> i <= erased[i] < k
    modifies matrix
    ensures |rows| == erased.Length
    ensures forall i :: 0 <= i < erased.Length ==> erased[..][i] < k && rows[i] == old(Values(matrix))[erased[..][i]]
  {
    MoveRows(matrix, erased, k);
    rows := Freeze(matrix[..erased.Length]);
  }

  /** The used shards are distinct from the erased ones. */
  lemma PickedDisjoint(code: Code, e: set<nat>, fecNos: seq<nat>, data: Rows, fec: Rows, sub: Rows, outputs: Rows)
    requires code.Valid() && Usable(code, e, fecNos) && |fec| == |fecNos| && |data| == code.dataShards
    requires Picked(code, e, fecNos, data, fec, sub) && Distinct(data) && Disjoint(data, fec)
    requires |outputs| == |Members(e, code.dataShards)|
    requires forall i: nat :: i < |outputs| ==> Members(e, code.dataShards)[i] < |data| && outputs[i] == data[Members(e, code.dataShards)[i]]
    ensures Distinct(outputs) && Disjoint(sub, outputs)
  {
    hide ParityRow, Others, Members, Unit;
    MembersFacts(e, code.dataShards);
    OthersFacts(e, code.dataShards);
  }

  method ErasedShards(data: Rows, erased: array<nat>) returns (outputs: Rows)
    requires forall i :: 0 <= i < erased.Length ==> erased[i] < |data|
    ensures |outputs| == erased.Length && forall i :: 0 <= i < |outputs| ==> outputs[i] == data[erased[i]]
  {
    outputs := [];
    for i := 0 to erased.Length
      invariant |outputs| == i && forall t :: 0 <= t < i ==> outputs[t] == data[erased[t]]
    {
      outputs := outputs + [data[erased[i]]];
    }
  }

  /** From the inverted matrix and the used shards, the erased data shards. */
  method Recover(tables: Tables, code: Code, data: Rows, size: nat, fec: Rows, fecNos: seq<nat>, erased: array<nat>,
                 ghost e: set<nat>, ghost sent: Matrix, matrix: Rows, sub: Rows)
    returns (status: int)
    requires tables.Valid() && code.Valid() && Usable(code, e, fecNos) && |fec| == |fecNos|
    requires |data| == code.dataShards && erased[..] == Members(e, code.dataShards)
    requires Distinct(data) && Disjoint(data, fec) && Disjoint(matrix, data) && Disjoint(matrix, sub)
    requires forall i :: 0 <= i < |data| ==> data[i] as object != erased as object
    requires forall i :: 0 <= i < |matrix| ==> matrix[i] as object != erased as object
    requires Arrived(code, e, fecNos, sent, data, fec, size)
    requires |sub| == code.dataShards && Picked(code, e, fecNos, data, fec, sub) && Sized(sub, size)
    requires Holds(code, e, fecNos, sent, Values(sub), size)
    requires IsMatrix(matrix, code.dataShards) && Square(Values(matrix), code.dataShards)
    requires Undoes(Values(matrix), DecodeMatrix(code, e, fecNos), code.dataShards)
    modifies data, matrix
    ensures status == 0
    ensures forall i :: 0 <= i < |data| ==> data[i][..] == sent[i]
  {
    hide ParityRow, Members, Others, Unit, Undoes, Tables.Valid, DecodeMatrix, Combine, Picked, Holds, Scale, Plus;
    var ds, n := code.dataShards, erased.Length;
    ghost var b, used, order := Values(matrix), Values(sub), erased[..];
    MembersFacts(e, ds);
    var outputs := ErasedShards(data, erased);
    PickedDisjoint(code, e, fecNos, data, fec, sub, outputs);
    var rows := TopRows(matrix, erased, ds);
    assert Values(sub) == used;
    RowsRecover(code, e, fecNos, sent, used, b, rows, order, size);
    status := CodeSomeShards(tables, rows, sub, outputs, size);
    forall i: nat | i < |data| ensures data[i][..] == sent[i] {
      if i in e {
        MembersIndex(e, i, ds);
        var o: nat :| o < n && order[o] == i;
        assert outputs[o] == data[i];
      } else {
        assert data[i] !in outputs;
      }
    }
  }

  lemma MembersIndex(e: set<nat>, i: nat, n: nat)
    requires i < n && i in e
    ensures exists o: nat :: o < |Members(e, n)| && Members(e, n)[o] == i
  {
    MembersNext(e, i, n);
  }

  /** The inverted decode matrix, and the shards to apply it to. */
  method InvertSelected(tables: Tables, code: Code, data: Rows, fec: Rows, fecNos: seq<nat>, erased: array<nat>, ghost e: set<nat>)
    returns (matrix: Rows, sub: Rows)
    requires tables.Valid() && code.Valid() && Usable(code, e, fecNos) && |fec| == |fecNos|
    requires |data| == code.dataShards && erased[..] == Members(e, code.dataShards)
    ensures IsMatrix(matrix, code.dataShards) && (forall r :: 0 <= r < |matrix| ==> fresh(matrix[r]))
    ensures Square(Values(matrix), code.dataShards)
    ensures Undoes(Values(matrix), DecodeMatrix(code, e, fecNos), code.dataShards)
    ensures |sub| == code.dataShards && Picked(code, e, fecNos, data, fec, sub)
  {
    hide ParityRow, Members, Others, Unit, Undoes, Tables.Valid, DecodeMatrix, Picked, Singular, Invertible, IsInverse;
    matrix, sub := SelectShards(code, data, fec, fecNos, erased, e);
    DecodeMatrixNonsingular(code, e, fecNos);
    var error := InvertMat(tables, matrix, code.dataShards);
    assert error == 0;
  }

  /** Recovers the erased data shards of one group. */
  method Decode(tables: Tables, code: Code, data: Rows, size: nat, fec: Rows, fecNos: seq<nat>, erased: array<nat>,
                ghost e: set<nat>, ghost sent: Matrix)
    returns (status: int)
    requires tables.Valid() && code.Valid() && Usable(code, e, fecNos) && |fec| == |fecNos|
    requires |data| == code.dataShards && erased[..] == Members(e, code.dataShards)
    requires Distinct(data) && Disjoint(data, fec)
    requires forall i :: 0 <= i < |data| ==> data[i] as object != erased as object
    requires forall t :: 0 <= t < |fec| ==> fec[t] as object != erased as object
    requires Arrived(code, e, fecNos, sent, data, fec, size)
    modifies data, erased
    ensures status == 0
    ensures forall i :: 0 <= i < |data| ==> data[i][..] == sent[i]
  {
    hide ParityRow, Members, Others, Unit, Undoes, Tables.Valid, DecodeMatrix, Combine, Picked, Holds, Code.Valid;
    MembersFacts(e, code.dataShards);
    SortErased(erased);
    var matrix, sub := InvertSelected(tables, code, data, fec, fecNos, erased, e);
    ArrivedHolds(code, e, fecNos, sent, data, fec, sub, size);
    assert Disjoint(matrix, sub) by { PickedOld(code, e, fecNos, data, fec, sub); }
    status := Recover(tables, code, data, size, fec, fecNos, erased, e, sent, matrix, sub);
  }

  lemma PickedOld(code: Code, e: set<nat>, fecNos: seq<nat>, data: Rows, fec: Rows, sub: Rows)
    requires code.Valid() && Usable(code, e, fecNos) && |fec| == |fecNos| && |data| == code.dataShards
    requires Picked(code, e, fecNos, data, fec, sub)
    ensures forall r :: 0 <= r < |sub| ==> sub[r] in data || sub[r] in fec
  {
    hide ParityRow, Others, Members, Unit;
    MembersFacts(e, code.dataShards);
    OthersFacts(e, code.dataShards);
  }
}
