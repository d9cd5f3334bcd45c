/** reed_solomon_encode and reed_solomon_reconstruct of rs.c: many groups of shards, the data of all
    groups first, the parity of all groups behind it. */
module ErasureGroups {
  import opened Words
  import opened Sets
  import opened Field
  import opened FieldLaws
  import opened FieldTables
  import opened Vectors
  import opened MatrixInversion
  import opened ErasureCode
  import opened ShardCoding
  import opened ErasureRecovery

  // ---- Where the shards of a group are

  function DataAt(code: Code, g: nat): nat {
    g * code.dataShards
  }

  function ParityAt(code: Code, n: nat, g: nat): nat {
    n * code.dataShards + g * code.parityShards
  }

  /** The number of whole groups among some shards. */
  function Groups(code: Code, count: nat): nat
    requires code.dataShards + code.parityShards > 0
  {
    count / (code.dataShards + code.parityShards)
  }

  predicate WholeGroups(code: Code, count: nat)
    requires code.dataShards + code.parityShards > 0
  {
    count % (code.dataShards + code.parityShards) == 0
  }

  /** How many shards g groups have. */
  function GroupStart(code: Code, g: nat): nat {
    g * (code.dataShards + code.parityShards)
  }

  lemma GroupPlaces(code: Code, n: nat, g: nat)
    requires g < n
    ensures DataAt(code, g + 1) == DataAt(code, g) + code.dataShards <= DataAt(code, n) == ParityAt(code, n, 0)
    ensures ParityAt(code, n, g + 1) == ParityAt(code, n, g) + code.parityShards <= ParityAt(code, n, n)
    ensures ParityAt(code, n, n) == n * (code.dataShards + code.parityShards)
    ensures ParityAt(code, n, 0) <= ParityAt(code, n, g) && DataAt(code, 0) == 0
  {
    Multiples(g + 1, n, code.dataShards);
    Multiples(g + 1, n, code.parityShards);
  }

  lemma Multiples(a: nat, b: nat, k: nat)
    requires a <= b
    ensures a * k <= b * k
  {
  }

  lemma NotLess(a: nat, b: nat, k: nat)
    ensures b <= a ==> b * k <= a * k
  {
  }

  lemma GroupsApart(code: Code, n: nat, g: nat, h: nat)
    requires g < h <= n
    ensures DataAt(code, g) + code.dataShards <= DataAt(code, h) <= DataAt(code, n) == ParityAt(code, n, 0)
    ensures ParityAt(code, n, g) + code.parityShards <= ParityAt(code, n, h)
    ensures ParityAt(code, n, 0) <= ParityAt(code, n, g)
  {
    Multiples(g + 1, h, code.dataShards);
    Multiples(h, n, code.dataShards);
    Multiples(g + 1, h, code.parityShards);
  }

  // ---- Encoding

  ghost function Slice<T>(shards: seq<T>, at: nat, count: nat): (slice: seq<T>)
    requires at + count <= |shards|
    ensures |slice| == count && forall i :: 0 <= i < count ==> slice[i] == shards[at + i]
  {
    shards[at..at + count]
  }

  ghost function DataOf(code: Code, shards: Matrix, n: nat, g: nat): (data: Matrix)
    requires g < n && ParityAt(code, n, n) <= |shards|
  {
    GroupPlaces(code, n, g);
    Slice(shards, DataAt(code, g), code.dataShards)
  }

  ghost function ParityOf(code: Code, shards: Matrix, n: nat, g: nat): (parity: Matrix)
    requires g < n && ParityAt(code, n, n) <= |shards|
  {
    GroupPlaces(code, n, g);
    Slice(shards, ParityAt(code, n, g), code.parityShards)
  }

  ghost predicate AllSized(shards: Matrix, size: nat) {
    forall i :: 0 <= i < |shards| ==> |shards[i]| == size
  }

  /** The parity shards are what the code makes of the data. */
  ghost predicate IsCodeWord(code: Code, data: Matrix, parity: Matrix, size: nat)
    requires code.Valid() && |data| == code.dataShards && |parity| == code.parityShards && AllSized(data, size)
  {
    forall j :: 0 <= j < |parity| ==> parity[j] == Combine(code.parity[j], data, size)
  }

  ghost predicate GroupEncoded(code: Code, shards: Matrix, n: nat, g: nat, size: nat)
    requires code.Valid() && g < n && ParityAt(code, n, n) <= |shards| && AllSized(shards, size)
  {
    GroupPlaces(code, n, g);
    IsCodeWord(code, DataOf(code, shards, n, g), ParityOf(code, shards, n, g), size)
  }

  ghost predicate Encoded(code: Code, shards: Matrix, n: nat, size: nat)
    requires code.Valid() && ParityAt(code, n, n) <= |shards| && AllSized(shards, size)
  {
    forall g: nat :: g < n ==> GroupEncoded(code, shards, n, g, size)
  }

  lemma ParityNonzero(code: Code, j: nat)
    requires code.Valid() && j < code.parityShards
    ensures code.parity[j][0] != 0
  {
    hide Inverse, Byte, Add;
    var ds, ps := code.dataShards, code.parityShards;
    assert code.parity[j] == code.m[ds + j] == ParityRow(ds, ps, j);
    if Byte(ps) == Byte(j) { ByteInjective(ps, j); }
    AddFacts(Byte(ps), Byte(j));
    assert ParityRow(ds, ps, j)[0] == Inverse(Add(Byte(ps + 0), Byte(j)));
  }

  /** The parity of one group. */
  method EncodeGroup(tables: Tables, code: Code, data: Rows, fec: Rows, size: nat)
    requires tables.Valid() && code.Valid() && |data| == code.dataShards && |fec| == code.parityShards
    requires Sized(data, size) && Sized(fec, size) && Distinct(fec) && Disjoint(data, fec)
    modifies fec
    ensures IsCodeWord(code, Values(data), Values(fec), size)
  {
    hide Tables.Valid, Combine, ParityRow, Unit;
    forall j: nat | j < code.parityShards ensures code.parity[j][0] != 0 {
      ParityNonzero(code, j);
    }
    var _ := CodeSomeShards(tables, code.parity, data, fec, size);
  }

  /** after differs from before only from place at on, for count places. */
  ghost predicate ChangedOnly(before: Matrix, after: Matrix, at: nat, count: nat) {
    |after| == |before| && forall i: nat :: i < |before| && !(at <= i < at + count) ==> after[i] == before[i]
  }

  lemma GroupsStayEncoded(code: Code, before: Matrix, after: Matrix, n: nat, g: nat, h: nat, size: nat)
    requires code.Valid() && h < g < n && ParityAt(code, n, n) <= |before| && AllSized(before, size) && AllSized(after, size)
    requires ChangedOnly(before, after, ParityAt(code, n, g), code.parityShards)
    requires GroupEncoded(code, before, n, h, size)
    ensures GroupEncoded(code, after, n, h, size)
  {
    hide Combine, DataAt, ParityAt, Code.Valid;
    GroupsApart(code, n, h, g);
    GroupPlaces(code, n, g);
    GroupPlaces(code, n, h);
    assert DataOf(code, after, n, h) == DataOf(code, before, n, h);
    assert ParityOf(code, after, n, h) == ParityOf(code, before, n, h);
  }

  method EncodeGroupAt(tables: Tables, code: Code, shards: Rows, n: nat, ghost g: nat, dataAt: nat, fecAt: nat, size: nat)
    requires tables.Valid() && code.Valid() && Sized(shards, size) && Distinct(shards)
    requires g < n && ParityAt(code, n, n) <= |shards|
    requires dataAt == DataAt(code, g) && fecAt == ParityAt(code, n, g)
    modifies shards
    ensures ChangedOnly(old(Values(shards)), Values(shards), ParityAt(code, n, g), code.parityShards)
    ensures GroupEncoded(code, Values(shards), n, g, size)
  {
    hide Tables.Valid, Combine, DataAt, ParityAt, Unit, ParityRow, IsCodeWord;
    GroupPlaces(code, n, g);
    var data, fec := shards[dataAt..dataAt + code.dataShards], shards[fecAt..fecAt + code.parityShards];
    EncodeGroup(tables, code, data, fec, size);
    forall i: nat | i < |shards| && !(fecAt <= i < fecAt + |fec|) ensures shards[i][..] == old(shards[i][..]) {
      assert shards[i] !in fec;
    }
    assert DataOf(code, Values(shards), n, g) == Values(data);
    assert ParityOf(code, Values(shards), n, g) == Values(fec);
  }

  /** Fills in the parity shards of all groups. */
  method Encode(tables: Tables, code: Code, shards: Rows, size: nat) returns (status: int)
    requires tables.Valid() && code.Valid() && Sized(shards, size) && Distinct(shards)
    requires WholeGroups(code, |shards|)
    modifies shards
    ensures status == 0
    ensures var n := Groups(code, |shards|);
            && DataAt(code, n) <= ParityAt(code, n, n) == |shards|
            && Encoded(code, Values(shards), n, size)
            && Values(shards)[..DataAt(code, n)] == old(Values(shards))[..DataAt(code, n)]
    ensures code.dataShards > 0 && code.parityShards > 0 && code.dataShards + code.parityShards <= 255
    ensures EncodedInNumbers(code.dataShards, code.parityShards, Values(shards), size)
  {
    hide Tables.Valid, Combine, DataAt, ParityAt, GroupEncoded, Code.Valid, Values, Groups, GroupStart, EncodedInNumbers;
    var ds, ps := code.dataShards, code.parityShards;
    CodeSizes(code);
    var n := CountGroups(code, |shards|);
    AllGroups(code, |shards|);
    StartPlaces(code, n);
    ghost var start := Values(shards);
    var dataAt, fecAt, i := 0, DataStart(n, ds), 0;
    ghost var g := 0;
    while i < |shards|
      invariant g <= n && i == GroupStart(code, g) && dataAt == DataAt(code, g) && fecAt == ParityAt(code, n, g)
      invariant forall h: nat :: h < g ==> GroupEncoded(code, Values(shards), n, h, size)
      invariant Values(shards)[..DataAt(code, n)] == start[..DataAt(code, n)]
      decreases n - g
    {
      StartMonotone(code, n, g);
      GroupPlaces(code, n, g);
      ghost var before := Values(shards);
      EncodeGroupAt(tables, code, shards, n, g, dataAt, fecAt, size);
      GroupDone(code, before, Values(shards), n, g, size);
      i := i + ds + ps;
      dataAt := dataAt + ds;
      fecAt := fecAt + ps;
      g := g + 1;
    }
    StartMonotone(code, n, g);
    CodeSum(code);
    EncodedMeans(code, Values(shards), size);
    status := 0;
  }

  method CountGroups(code: Code, count: nat) returns (n: nat)
    requires code.dataShards + code.parityShards > 0
    ensures n == Groups(code, count)
  {
    n := count / (code.dataShards + code.parityShards);
  }

  lemma StartMonotone(code: Code, n: nat, g: nat)
    ensures GroupStart(code, g + 1) == GroupStart(code, g) + code.dataShards + code.parityShards
    ensures n <= g ==> GroupStart(code, n) <= GroupStart(code, g)
    ensures g < n ==> GroupStart(code, g + 1) <= GroupStart(code, n)
  {
    NotLess(g, n, code.dataShards + code.parityShards);
    NotLess(n, g + 1, code.dataShards + code.parityShards);
    NextMultiple(g, code.dataShards + code.parityShards);
  }

  lemma CodeSizes(code: Code)
    requires code.Valid()
    ensures code.dataShards > 0 && code.parityShards > 0
  {
  }

  lemma GroupDone(code: Code, before: Matrix, after: Matrix, n: nat, g: nat, size: nat)
    requires code.Valid() && g < n && ParityAt(code, n, n) <= |before| && AllSized(before, size) && AllSized(after, size)
    requires ChangedOnly(before, after, ParityAt(code, n, g), code.parityShards)
    requires forall h: nat :: h < g ==> GroupEncoded(code, before, n, h, size)
    requires GroupEncoded(code, after, n, g, size)
    ensures DataAt(code, n) <= |before| && after[..DataAt(code, n)] == before[..DataAt(code, n)]
    ensures forall h: nat :: h < g + 1 ==> GroupEncoded(code, after, n, h, size)
  {
    hide Combine, DataAt, ParityAt, GroupEncoded, Code.Valid;
    GroupPlaces(code, n, g);
    forall h: nat | h < g ensures GroupEncoded(code, after, n, h, size) {
      GroupsStayEncoded(code, before, after, n, g, h, size);
    }
  }

  function DataStart(n: nat, ds: nat): nat { n * ds }

  lemma StartPlaces(code: Code, n: nat)
    ensures ParityAt(code, n, 0) == DataStart(n, code.dataShards) == DataAt(code, n) && DataAt(code, 0) == 0
    ensures GroupStart(code, 0) == 0
  {
  }

  lemma NextMultiple(g: nat, k: nat)
    ensures (g + 1) * k == g * k + k
  {
  }

  lemma AllGroups(code: Code, count: nat)
    requires code.dataShards + code.parityShards > 0
    ensures var n := Groups(code, count);
            && DataAt(code, n) <= ParityAt(code, n, n) == GroupStart(code, n) <= count
            && (WholeGroups(code, count) ==> GroupStart(code, n) == count)
  {
    var ss := code.dataShards + code.parityShards;
    var n := count / ss;
    assert count == n * ss + count % ss;
    SumMultiple(n, code.dataShards, code.parityShards);
  }

  lemma SumMultiple(n: nat, a: nat, b: nat)
    ensures n * (a + b) == n * a + n * b
  {
  }

  // ---- Reconstruction

  /** The places marked as erased. */
  ghost function Erased(marks: seq<byte>): (e: set<nat>) {
    set i: nat | i < |marks| && marks[i] != 0
  }

  /** The erased data shards do not outnumber the surviving parity shards. */
  ghost predicate Recoverable(marks: seq<byte>, fecMarks: seq<byte>) {
    |Members(Erased(marks), |marks|)| <= |Others(Erased(fecMarks), |fecMarks|)|
  }

  method MarkedBlocks(marks: seq<byte>) returns (erased: seq<nat>)
    ensures erased == Members(Erased(marks), |marks|)
  {
    erased := [];
    for i := 0 to |marks|
      invariant erased == Members(Erased(marks), i)
    {
      if marks[i] != 0 {
        erased := erased + [i];
      }
    }
  }

  /** The first count places that are not marked, if there are as many. */
  method ValidBlocks(marks: seq<byte>, count: nat) returns (numbers: seq<nat>)
    ensures |numbers| == count <==> count <= |Others(Erased(marks), |marks|)|
    ensures |numbers| <= |Others(Erased(marks), |marks|)| && numbers == Others(Erased(marks), |marks|)[..|numbers|]
  {
    numbers := [];
    var i := 0;
    while i < |marks| && |numbers| < count
      invariant i <= |marks| && |numbers| <= count && numbers == Others(Erased(marks), i)
    {
      if marks[i] == 0 {
        numbers := numbers + [i];
      }
      i := i + 1;
    }
    MembersPrefix(Erased(marks), i, |marks|);
  }

  lemma ChosenUsable(code: Code, marks: seq<byte>, fecMarks: seq<byte>, chosen: seq<nat>)
    requires |marks| == code.dataShards && |fecMarks| == code.parityShards
    requires |chosen| == |Members(Erased(marks), |marks|)|
    requires |chosen| <= |Others(Erased(fecMarks), |fecMarks|)| && chosen == Others(Erased(fecMarks), |fecMarks|)[..|chosen|]
    ensures Usable(code, Erased(marks), chosen)
    ensures forall t :: 0 <= t < |chosen| ==> fecMarks[chosen[t]] == 0
  {
    hide Members, Others;
    OthersFacts(Erased(fecMarks), |fecMarks|);
  }

  /** The shards that are not marked are those that were sent. */
  ghost predicate Survive(shards: Matrix, sent: Matrix, marks: seq<byte>)
    requires |shards| == |sent| == |marks|
  {
    forall i: nat :: i < |shards| && marks[i] == 0 ==> shards[i] == sent[i]
  }

  method ReconstructGroup(tables: Tables, code: Code, data: Rows, fec: Rows, marks: seq<byte>, fecMarks: seq<byte>, size: nat,
                          ghost sent: Matrix, ghost sentParity: Matrix)
    returns (ok: bool)
    requires tables.Valid() && code.Valid() && |data| == |marks| == code.dataShards && |fec| == |fecMarks| == code.parityShards
    requires Distinct(data) && Disjoint(data, fec) && Sized(data, size) && Sized(fec, size)
    requires |sent| == |data| && |sentParity| == |fec| && AllSized(sent, size) && IsCodeWord(code, sent, sentParity, size)
    requires Survive(Values(data), sent, marks) && Survive(Values(fec), sentParity, fecMarks)
    modifies data
    ensures ok <==> Recoverable(marks, fecMarks)
    ensures Values(data) == if ok then sent else old(Values(data))
  {
    hide Tables.Valid, Code.Valid, Members, Others, Combine;
    ghost var e := Erased(marks);
    var erased := MarkedBlocks(marks);
    if |erased| > 0 {
      var numbers := ValidBlocks(fecMarks, |erased|);
      if |erased| == |numbers| {
        ChosenUsable(code, marks, fecMarks, numbers);
        var blocks := [];
        for t := 0 to |numbers|
          invariant |blocks| == t && forall u :: 0 <= u < t ==> blocks[u] == fec[numbers[u]]
        {
          blocks := blocks + [fec[numbers[t]]];
        }
        GroupArrived(code, data, fec, marks, fecMarks, size, sent, sentParity, numbers, blocks);
        DecodeErased(tables, code, data, size, blocks, numbers, erased, e, sent);
        return true;
      } else {
        return false;
      }
    }
    NoneErased(marks, Values(data), sent);
    return true;
  }

  lemma GroupArrived(code: Code, data: Rows, fec: Rows, marks: seq<byte>, fecMarks: seq<byte>, size: nat,
                     sent: Matrix, sentParity: Matrix, numbers: seq<nat>, blocks: Rows)
    requires code.Valid() && |data| == |marks| == code.dataShards && |fec| == |fecMarks| == code.parityShards
    requires Sized(data, size) && Sized(fec, size)
    requires |sent| == |data| && |sentParity| == |fec| && AllSized(sent, size) && IsCodeWord(code, sent, sentParity, size)
    requires Survive(Values(data), sent, marks) && Survive(Values(fec), sentParity, fecMarks)
    requires Usable(code, Erased(marks), numbers) && |blocks| == |numbers|
    requires forall t :: 0 <= t < |numbers| ==> fecMarks[numbers[t]] == 0 && blocks[t] == fec[numbers[t]]
    ensures Arrived(code, Erased(marks), numbers, sent, data, blocks, size)
  {
    hide Members, Others, Combine, ParityRow, Unit;
    forall t: nat | t < |blocks|
      ensures blocks[t][..] == Combine(code.m[code.dataShards + numbers[t]], sent, size)
    {
      assert Values(fec)[numbers[t]] == sentParity[numbers[t]];
      assert code.parity[numbers[t]] == code.m[code.dataShards + numbers[t]];
    }
    forall i: nat | i < |data| && i !in Erased(marks) ensures data[i][..] == sent[i] {
      assert Values(data)[i] == sent[i];
    }
  }

  lemma NoneErased(marks: seq<byte>, shards: Matrix, sent: Matrix)
    requires |shards| == |sent| == |marks| && Survive(shards, sent, marks) && Members(Erased(marks), |marks|) == []
    ensures shards == sent
  {
    hide Members;
    forall i: nat | i < |marks| ensures shards[i] == sent[i] {
      if i in Erased(marks) { MembersIndex(Erased(marks), i, |marks|); }
    }
  }

  /** Decode with the list of erased shards in an array of its own. */
  method DecodeErased(tables: Tables, code: Code, data: Rows, size: nat, blocks: Rows, numbers: seq<nat>, erased: seq<nat>,
                      ghost e: set<nat>, ghost sent: Matrix)
    requires tables.Valid() && code.Valid() && Usable(code, e, numbers) && |blocks| == |numbers|
    requires |data| == code.dataShards && erased == Members(e, code.dataShards)
    requires Distinct(data) && Disjoint(data, blocks)
    requires Arrived(code, e, numbers, sent, data, blocks, size)
    modifies data
    ensures Values(data) == sent
  {
    hide Tables.Valid, Code.Valid, Members, Usable, Combine;
    var list := new nat[|erased|](i requires 0 <= i < |erased| => erased[i]);
    assert list[..] == erased;
    var _ := Decode(tables, code, data, size, blocks, numbers, list, e, sent);
  }

  ghost predicate GroupRecoverable(code: Code, marks: seq<byte>, n: nat, g: nat)
    requires g < n && ParityAt(code, n, n) <= |marks|
  {
    GroupPlaces(code, n, g);
    Recoverable(Slice(marks, DataAt(code, g), code.dataShards), Slice(marks, ParityAt(code, n, g), code.parityShards))
  }

  /** The data of group g is what was sent, if there was enough left of the group, and as it was if not. */
  ghost predicate GroupRestored(code: Code, before: Matrix, after: Matrix, sent: Matrix, marks: seq<byte>, n: nat, g: nat)
    requires g < n && ParityAt(code, n, n) <= |marks| == |before| == |after| == |sent|
  {
    DataOf(code, after, n, g) == DataOf(code, if GroupRecoverable(code, marks, n, g) then sent else before, n, g)
  }

  method ReconstructGroupAt(tables: Tables, code: Code, shards: Rows, marks: seq<byte>, n: nat, ghost g: nat,
                            dataAt: nat, fecAt: nat, size: nat, ghost sent: Matrix)
    returns (ok: bool)
    requires tables.Valid() && code.Valid() && Sized(shards, size) && Distinct(shards) && |shards| == |marks| == |sent|
    requires g < n && ParityAt(code, n, n) <= |shards| && AllSized(sent, size)
    requires dataAt == DataAt(code, g) && fecAt == ParityAt(code, n, g)
    requires GroupEncoded(code, sent, n, g, size) && Survive(Values(shards), sent, marks)
    modifies shards
    ensures ok <==> GroupRecoverable(code, marks, n, g)
    ensures ChangedOnly(old(Values(shards)), Values(shards), DataAt(code, g), code.dataShards)
    ensures GroupRestored(code, old(Values(shards)), Values(shards), sent, marks, n, g)
  {
    hide Tables.Valid, Code.Valid, DataAt, ParityAt, IsCodeWord, GroupRecoverable, Recoverable, Survive, DataOf, ParityOf;
    GroupPlaces(code, n, g);
    GroupsApart(code, n, g, n);
    ghost var before := Values(shards);
    var data, fec := shards[dataAt..dataAt + code.dataShards], shards[fecAt..fecAt + code.parityShards];
    GroupParts(code, before, sent, marks, n, g, size);
    assert Values(data) == before[dataAt..dataAt + code.dataShards] && Values(fec) == before[fecAt..fecAt + code.parityShards];
    assert Disjoint(data, fec);
    ok := ReconstructGroup(tables, code, data, fec, marks[dataAt..dataAt + code.dataShards],
                           marks[fecAt..fecAt + code.parityShards], size,
                           DataOf(code, sent, n, g), ParityOf(code, sent, n, g));
    forall i: nat | i < |shards| && !(dataAt <= i < dataAt + |data|) ensures shards[i][..] == old(shards[i][..]) {
      assert shards[i] !in data;
    }
    DataIs(code, Values(shards), n, g);
    assert Values(shards)[dataAt..dataAt + code.dataShards] == Values(data);
  }

  lemma DataIs(code: Code, shards: Matrix, n: nat, g: nat)
    requires g < n && ParityAt(code, n, n) <= |shards|
    ensures DataAt(code, g) + code.dataShards <= |shards|
    ensures DataOf(code, shards, n, g) == shards[DataAt(code, g)..DataAt(code, g) + code.dataShards]
  {
    hide DataAt, ParityAt;
    GroupPlaces(code, n, g);
  }

  /** The shards and marks of one group. */
  lemma GroupParts(code: Code, shards: Matrix, sent: Matrix, marks: seq<byte>, n: nat, g: nat, size: nat)
    requires g < n && ParityAt(code, n, n) <= |shards| == |sent| == |marks| && Survive(shards, sent, marks)
    requires AllSized(sent, size)
    ensures AllSized(DataOf(code, sent, n, g), size)
    ensures DataAt(code, g) + code.dataShards <= |shards| && ParityAt(code, n, g) + code.parityShards <= |shards|
    ensures var (d, p) := (DataAt(code, g), ParityAt(code, n, g));
            var (data, fec) := (shards[d..d + code.dataShards], shards[p..p + code.parityShards]);
            var (marked, fecMarked) := (marks[d..d + code.dataShards], marks[p..p + code.parityShards]);
            && data == DataOf(code, shards, n, g)
            && |DataOf(code, sent, n, g)| == code.dataShards && |ParityOf(code, sent, n, g)| == code.parityShards
            && Survive(data, DataOf(code, sent, n, g), marked) && Survive(fec, ParityOf(code, sent, n, g), fecMarked)
            && (GroupRecoverable(code, marks, n, g) <==> Recoverable(marked, fecMarked))
  {
    hide DataAt, ParityAt, Recoverable;
    GroupPlaces(code, n, g);
  }

  lemma RestoredNext(code: Code, start: Matrix, before: Matrix, after: Matrix, sent: Matrix, marks: seq<byte>, n: nat, g: nat)
    requires g < n && ParityAt(code, n, n) <= |marks| == |before| == |after| == |sent| == |start|
    requires ChangedOnly(before, after, DataAt(code, g), code.dataShards)
    requires GroupRestored(code, before, after, sent, marks, n, g)
    requires forall i: nat :: DataAt(code, g) <= i < |start| ==> before[i] == start[i]
    requires forall h: nat :: h < g ==> GroupRestored(code, start, before, sent, marks, n, h)
    ensures forall i: nat :: DataAt(code, g + 1) <= i < |start| ==> after[i] == start[i]
    ensures forall h: nat :: h < g + 1 ==> GroupRestored(code, start, after, sent, marks, n, h)
  {
    hide DataAt, ParityAt, GroupRecoverable;
    GroupPlaces(code, n, g);
    assert DataOf(code, before, n, g) == DataOf(code, start, n, g);
    forall h: nat | h < g ensures GroupRestored(code, start, after, sent, marks, n, h) {
      GroupsApart(code, n, h, g);
      assert GroupRestored(code, start, before, sent, marks, n, h);
      assert DataOf(code, after, n, h) == DataOf(code, before, n, h);
    }
  }

  /** What was not marked has not changed. */
  lemma SurvivorsUntouched(code: Code, start: Matrix, after: Matrix, sent: Matrix, marks: seq<byte>, n: nat, g: nat)
    requires g < n && ParityAt(code, n, n) <= |marks| == |after| == |sent| == |start|
    requires Survive(start, sent, marks) && GroupRestored(code, start, after, sent, marks, n, g)
    ensures DataAt(code, g + 1) <= |start|
    ensures forall i: nat :: DataAt(code, g) <= i < DataAt(code, g + 1) && marks[i] == 0 ==> after[i] == start[i]
  {
    hide DataAt, ParityAt, GroupRecoverable;
    GroupPlaces(code, n, g);
    forall i: nat | DataAt(code, g) <= i < DataAt(code, g + 1) && marks[i] == 0 ensures after[i] == start[i] {
      var k: nat := i - DataAt(code, g);
      assert after[i] == DataOf(code, after, n, g)[k];
      assert sent[i] == DataOf(code, sent, n, g)[k];
      assert start[i] == DataOf(code, start, n, g)[k];
    }
  }

  lemma {:induction false} Untouched(code: Code, start: Matrix, after: Matrix, sent: Matrix, marks: seq<byte>, n: nat, g: nat)
    requires g <= n && ParityAt(code, n, n) <= |marks| == |after| == |sent| == |start|
    requires Survive(start, sent, marks)
    requires forall h: nat :: h < n ==> GroupRestored(code, start, after, sent, marks, n, h)
    requires forall i: nat :: DataAt(code, n) <= i < |start| ==> after[i] == start[i]
    ensures forall i: nat :: DataAt(code, g) <= i < |start| && marks[i] == 0 ==> after[i] == start[i]
    decreases n - g
  {
    hide DataAt, ParityAt, GroupRecoverable, GroupRestored;
    if g < n {
      Untouched(code, start, after, sent, marks, n, g + 1);
      SurvivorsUntouched(code, start, after, sent, marks, n, g);
    }
  }

  /** Restores the data of every group that has enough shards left, and nothing else. */
  method Reconstruct(tables: Tables, code: Code, shards: Rows, marks: seq<byte>, size: nat, ghost sent: Matrix) returns (err: int)
    requires tables.Valid() && code.Valid() && Sized(shards, size) && Distinct(shards) && |shards| == |marks| == |sent|
    requires AllSized(sent, size) && Survive(Values(shards), sent, marks)
    requires var n := Groups(code, |shards|);
             ParityAt(code, n, n) <= |shards| && Encoded(code, sent, n, size)
    modifies shards
    ensures var n := Groups(code, |shards|);
            && (err == 0 || err == -1)
            && (err == 0 <==> forall g: nat :: g < n ==> GroupRecoverable(code, marks, n, g))
            && (forall g: nat :: g < n ==> GroupRestored(code, old(Values(shards)), Values(shards), sent, marks, n, g))
            && (forall i: nat :: DataAt(code, n) <= i < |shards| ==> Values(shards)[i] == old(Values(shards))[i])
    ensures Survive(Values(shards), old(Values(shards)), marks)
    ensures code.dataShards > 0 && code.parityShards > 0
    ensures RestoredInNumbers(code.dataShards, code.parityShards, old(Values(shards)), Values(shards), sent, marks, err)
  {
    hide Tables.Valid, Code.Valid, DataAt, ParityAt, GroupRecoverable, GroupRestored, GroupEncoded, Values, Survive, Groups, RestoredInNumbers;
    var ds, ps := code.dataShards, code.parityShards;
    CodeSizes(code);
    var n := CountGroups(code, |shards|);
    StartPlaces(code, n);
    ghost var start := Values(shards);
    var dataAt, fecAt := 0, DataStart(n, ds);
    err := 0;
    for g := 0 to n
      invariant dataAt == DataAt(code, g) && fecAt == ParityAt(code, n, g)
      invariant err == 0 || err == -1
      invariant err == 0 <==> forall h: nat :: h < g ==> GroupRecoverable(code, marks, n, h)
      invariant forall h: nat :: h < g ==> GroupRestored(code, start, Values(shards), sent, marks, n, h)
      invariant forall i: nat :: DataAt(code, g) <= i < |shards| ==> Values(shards)[i] == start[i]
      invariant Survive(Values(shards), sent, marks)
    {
      GroupPlaces(code, n, g);
      ghost var before := Values(shards);
      var ok := ReconstructGroupAt(tables, code, shards, marks, n, g, dataAt, fecAt, size, sent);
      RestoredNext(code, start, before, Values(shards), sent, marks, n, g);
      StillSurvive(code, before, Values(shards), sent, marks, n, g);
      if !ok {
        err := -1;
      }
      dataAt := dataAt + ds;
      fecAt := fecAt + ps;
    }
    Untouched(code, start, Values(shards), sent, marks, n, 0);
    SurviveAll(start, Values(shards), marks);
    AllGroups(code, |shards|);
    RestoredMeans(code, start, Values(shards), sent, marks, err);
  }

  lemma SurviveAll(start: Matrix, after: Matrix, marks: seq<byte>)
    requires |start| == |after| == |marks|
    requires forall i: nat :: i < |start| && marks[i] == 0 ==> after[i] == start[i]
    ensures Survive(after, start, marks)
  {
  }

  lemma StillSurvive(code: Code, before: Matrix, after: Matrix, sent: Matrix, marks: seq<byte>, n: nat, g: nat)
    requires g < n && ParityAt(code, n, n) <= |marks| == |after| == |sent| == |before|
    requires Survive(before, sent, marks) && GroupRestored(code, before, after, sent, marks, n, g)
    requires ChangedOnly(before, after, DataAt(code, g), code.dataShards)
    ensures Survive(after, sent, marks)
  {
    hide DataAt, ParityAt, GroupRecoverable, GroupRestored;
    SurvivorsUntouched(code, before, after, sent, marks, n, g);
    GroupPlaces(code, n, g);
  }

  // ---- The same in numbers

  /** Byte b of shard r. */
  function ByteAt(shards: Matrix, r: nat, b: nat): gf {
    if r < |shards| && b < |shards[r]| then shards[r][b] else 0
  }

  /** Byte b of parity shard j of group g, behind the data of all groups, is the product of the
      coefficients 1 / ((ps + i) xor j) with the bytes b of the group's data shards. */
  ghost predicate ParityByte(ds: nat, ps: nat, shards: Matrix, n: nat, g: nat, j: nat, b: nat)
    requires ds + ps <= 255 && j < ps
  {
    exists column: Vector ::
      && |column| == ds && (forall i: nat :: i < ds ==> column[i] == ByteAt(shards, g * ds + i, b))
      && ByteAt(shards, n * ds + g * ps + j, b) == Dot(ParityRow(ds, ps, j), column)
  }

  ghost predicate EncodedInNumbers(ds: nat, ps: nat, shards: Matrix, size: nat)
    requires 0 < ds && 0 < ps && ds + ps <= 255
  {
    var n := |shards| / (ds + ps);
    forall g: nat, j: nat, b: nat :: g < n && j < ps && b < size ==> ParityByte(ds, ps, shards, n, g, j, b)
  }

  lemma EncodedMeans(code: Code, shards: Matrix, size: nat)
    requires code.Valid()
    requires var n := Groups(code, |shards|);
             ParityAt(code, n, n) <= |shards| && AllSized(shards, size) && Encoded(code, shards, n, size)
    ensures EncodedInNumbers(code.dataShards, code.parityShards, shards, size)
  {
    hide ParityByte, GroupEncoded, ParityRow, Code.Valid, DataAt, ParityAt, AllSized;
    CodeSizes(code);
    CodeSum(code);
    var n := Groups(code, |shards|);
    forall g: nat, j: nat, b: nat | g < n && j < code.parityShards && b < size
      ensures ParityByte(code.dataShards, code.parityShards, shards, n, g, j, b)
    {
      ParityByteMeans(code, shards, n, g, j, b, size);
    }
  }

  lemma CodeSum(code: Code)
    requires code.Valid()
    ensures code.dataShards + code.parityShards <= 255
  {
  }

  lemma ParityByteMeans(code: Code, shards: Matrix, n: nat, g: nat, j: nat, b: nat, size: nat)
    requires code.Valid() && g < n && ParityAt(code, n, n) <= |shards| && AllSized(shards, size)
    requires GroupEncoded(code, shards, n, g, size) && j < code.parityShards && b < size
    ensures ParityByte(code.dataShards, code.parityShards, shards, n, g, j, b)
  {
    hide Combine, Dot, Column, ParityRow, GroupEncoded, AllSized, DataOf, ParityAt, ByteAt, Code.Valid;
    var column := DataColumn(code, shards, n, g, b, size);
    ParityIsCombined(code, shards, n, g, j, b, size);
    ParityRowUsed(code, j);
  }

  lemma ParityRowUsed(code: Code, j: nat)
    requires code.Valid() && j < code.parityShards
    ensures code.dataShards + code.parityShards <= 255 && j < |code.parity|
    ensures code.parity[j] == ParityRow(code.dataShards, code.parityShards, j)
  {
    hide ParityRow;
    assert code.parity[j] == code.m[code.dataShards + j];
  }

  lemma ParityIsCombined(code: Code, shards: Matrix, n: nat, g: nat, j: nat, b: nat, size: nat)
    requires code.Valid() && g < n && ParityAt(code, n, n) <= |shards| && AllSized(shards, size)
    requires GroupEncoded(code, shards, n, g, size) && j < code.parityShards && b < size
    ensures AllSized(DataOf(code, shards, n, g), size)
    ensures |code.parity[j]| == code.dataShards == |DataOf(code, shards, n, g)|
    ensures ByteAt(shards, n * code.dataShards + g * code.parityShards + j, b) == Dot(code.parity[j], Column(DataOf(code, shards, n, g), b))
  {
    hide Combine, Dot, Column;
    GroupPlaces(code, n, g);
    CombineColumns(code.parity[j], DataOf(code, shards, n, g), size, b);
    assert ParityOf(code, shards, n, g)[j] == shards[ParityAt(code, n, g) + j];
  }

  lemma DataColumn(code: Code, shards: Matrix, n: nat, g: nat, b: nat, size: nat) returns (column: Vector)
    requires code.Valid() && g < n && ParityAt(code, n, n) <= |shards| && AllSized(shards, size) && b < size
    ensures AllSized(DataOf(code, shards, n, g), size) && |DataOf(code, shards, n, g)| == code.dataShards
    ensures column == Column(DataOf(code, shards, n, g), b) && |column| == code.dataShards
    ensures forall i: nat :: i < code.dataShards ==> column[i] == ByteAt(shards, g * code.dataShards + i, b)
  {
    hide Code.Valid;
    GroupPlaces(code, n, g);
    column := Column(DataOf(code, shards, n, g), b);
  }

  function MarkAt(marks: seq<byte>, at: nat, i: nat): byte {
    if at + i < |marks| then marks[at + i] else 0
  }

  /** Which of count shards from a place on are marked, and which are not. */
  ghost function Marked(marks: seq<byte>, at: nat, count: nat): set<nat> {
    set i: nat | i < count && MarkAt(marks, at, i) != 0
  }

  ghost function Unmarked(marks: seq<byte>, at: nat, count: nat): set<nat> {
    set i: nat | i < count && MarkAt(marks, at, i) == 0
  }

  /** The marked data shards of group g are no more than its parity shards without a mark. */
  ghost predicate EnoughLeft(ds: nat, ps: nat, marks: seq<byte>, n: nat, g: nat) {
    |Marked(marks, g * ds, ds)| <= |Unmarked(marks, n * ds + g * ps, ps)|
  }

  /** Each data shard is what was sent if enough was left of its group, and as it was if not; no parity
      shard changes; and the result tells whether enough was left of all groups. */
  ghost predicate RestoredInNumbers(ds: nat, ps: nat, before: Matrix, after: Matrix, sent: Matrix, marks: seq<byte>, err: int)
    requires 0 < ds && 0 < ps && |before| == |after| == |sent| == |marks|
  {
    var n := |marks| / (ds + ps);
    && (forall g: nat, i: nat :: g < n && i < ds ==> ShardRestored(ds, ps, before, after, sent, marks, n, g, i))
    && (forall i: nat :: n * ds <= i < |marks| ==> after[i] == before[i])
    && err == if forall g: nat :: g < n ==> EnoughLeft(ds, ps, marks, n, g) then 0 else -1
  }

  ghost predicate ShardRestored(ds: nat, ps: nat, before: Matrix, after: Matrix, sent: Matrix, marks: seq<byte>, n: nat, g: nat, i: nat)
    requires |before| == |after| == |sent|
  {
    g * ds + i < |after|
    && after[g * ds + i] == if EnoughLeft(ds, ps, marks, n, g) then sent[g * ds + i] else before[g * ds + i]
  }

  lemma MarkedCounts(marks: seq<byte>, at: nat, count: nat)
    requires at + count <= |marks|
    ensures var own := Slice(marks, at, count);
            && |Members(Erased(own), count)| == |Marked(marks, at, count)|
            && |Others(Erased(own), count)| == |Unmarked(marks, at, count)|
  {
    hide Members, Others;
    var own := Slice(marks, at, count);
    MembersFacts(Erased(own), count);
    var marked, unmarked := Marked(marks, at, count), Unmarked(marks, at, count);
    assert Below(Erased(own), count) == marked;
    assert marked + unmarked == Range(0, count) && marked * unmarked == {};
  }

  lemma EnoughMeans(code: Code, marks: seq<byte>, n: nat, g: nat)
    requires g < n && ParityAt(code, n, n) <= |marks|
    ensures GroupRecoverable(code, marks, n, g) <==> EnoughLeft(code.dataShards, code.parityShards, marks, n, g)
  {
    hide Members, Others, Erased, Marked, Unmarked;
    GroupPlaces(code, n, g);
    MarkedCounts(marks, DataAt(code, g), code.dataShards);
    MarkedCounts(marks, ParityAt(code, n, g), code.parityShards);
  }

  lemma RestoredMeans(code: Code, before: Matrix, after: Matrix, sent: Matrix, marks: seq<byte>, err: int)
    requires code.dataShards > 0 && code.parityShards > 0 && |before| == |after| == |sent| == |marks|
    requires var n := Groups(code, |marks|);
             && ParityAt(code, n, n) <= |marks| && DataAt(code, n) <= |marks|
             && (err == 0 || err == -1)
             && (err == 0 <==> forall g: nat :: g < n ==> GroupRecoverable(code, marks, n, g))
             && (forall g: nat :: g < n ==> GroupRestored(code, before, after, sent, marks, n, g))
             && (forall i: nat :: DataAt(code, n) <= i < |marks| ==> after[i] == before[i])
    ensures RestoredInNumbers(code.dataShards, code.parityShards, before, after, sent, marks, err)
  {
    hide GroupRecoverable, GroupRestored, EnoughLeft, ParityAt, ShardRestored;
    var ds, ps, n := code.dataShards, code.parityShards, Groups(code, |marks|);
    forall g: nat | g < n ensures GroupRecoverable(code, marks, n, g) <==> EnoughLeft(ds, ps, marks, n, g) {
      EnoughMeans(code, marks, n, g);
    }
    forall g: nat, i: nat | g < n && i < ds ensures ShardRestored(ds, ps, before, after, sent, marks, n, g, i) {
      ShardMeans(code, before, after, sent, marks, n, g, i);
    }
  }

  lemma ShardMeans(code: Code, before: Matrix, after: Matrix, sent: Matrix, marks: seq<byte>, n: nat, g: nat, i: nat)
    requires g < n && ParityAt(code, n, n) <= |marks| == |before| == |after| == |sent| && i < code.dataShards
    requires GroupRestored(code, before, after, sent, marks, n, g)
    ensures ShardRestored(code.dataShards, code.parityShards, before, after, sent, marks, n, g, i)
  {
    hide GroupRecoverable, EnoughLeft, ParityAt;
    EnoughMeans(code, marks, n, g);
    GroupPlaces(code, n, g);
    assert DataOf(code, after, n, g)[i] == after[g * code.dataShards + i];
  }
}
