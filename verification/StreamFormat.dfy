/** The format of the compressed stream in plain numbers: what the model codes and how it adapts, and
    what the range coder makes of it. */
module StreamFormat {
  import opened Words
  import opened Interval
  import opened Ppm
  import opened RoundTrip

  // ---- The model

  /** A model that has seen nothing: the root alone, with one slot for escapes and one for each byte. */
  lemma StartInNumbers()
    ensures Start().predicted == [] && Start().contexts.Keys == {[]}
    ensures var t := Start().contexts[[]];
            |t.counts| == 256 && (forall v :: 0 <= v < 256 ==> t.counts[v] == 0) && t.escapes == 1 && t.total == 257
  {
  }

  /** The first step of every text. */
  lemma FirstStep(v: byte, text: seq<byte>)
    ensures Valid(Start()) && |MessageOps(Start(), [v] + text)| > 0
    ensures MessageOps(Start(), [v] + text)[0] == Op(1 + v, 1, 257)
  {
    hide Fresh, Good, Sum;
    StartValid();
    StartInNumbers();
    ValidChained(Start());
    var t := Start().contexts[[]];
    SumZero(t.counts, 0, v);
    OpsInNumbers(Start().contexts, [], v);
    assert ([v] + text)[0] == v;
  }

  /** Byte v in context k: in the root, and in a context that knows it, its slots come behind the escapes
      and the slots of the smaller bytes; any other context writes an escape, if it can, and leaves the
      byte to the next shorter context. */
  lemma OpsInNumbers(cs: Contexts, k: Key, v: byte)
    requires Linked(cs) && Chained(cs, k)
    ensures k in cs && |cs[k].counts| == 256
    ensures k == [] ==>
              Ops(cs, k, v) == [Op(cs[k].escapes + v + Sum(cs[k].counts, 0, v), cs[k].counts[v] + 1, cs[k].total)]
    ensures k != [] && cs[k].counts[v] > 0 ==>
              Ops(cs, k, v) == [Op(cs[k].escapes + Sum(cs[k].counts, 0, v), cs[k].counts[v], cs[k].total)]
    ensures k != [] && cs[k].counts[v] == 0 ==>
              && Chained(cs, k[1..])
              && Ops(cs, k, v) == (if 0 < cs[k].escapes < cs[k].total then [Op(0, cs[k].escapes, cs[k].total)] else []) + Ops(cs, k[1..], v)
  {
    hide Sum;
  }

  /** The counts of a context after byte v, before they are halved. */
  function Grown(t: Context, v: byte, step: nat): (counts: seq<nat>)
    requires |t.counts| == 256
    ensures |counts| == 256 && counts[v] == t.counts[v] + step && forall w :: 0 <= w < 256 && w != v ==> counts[w] == t.counts[w]
  {
    t.counts[v := t.counts[v] + step]
  }

  /** after is what a context with the given numbers becomes, halved or not; minimum is what the root
      adds for the slots of unseen bytes. */
  predicate Becomes(after: Context, halved: bool, counts: seq<nat>, escapes: nat, total: nat, minimum: nat) {
    |counts| == 256 && |after.counts| == 256 &&
    if halved then
      && (forall w :: 0 <= w < 256 ==> after.counts[w] == counts[w] - counts[w] / 2)
      && after.escapes == escapes - escapes / 2
      && after.total == Sum(after.counts, 0, 256) + after.escapes + minimum
    else after == Context(counts, escapes, total)
  }

  /** The root adds 3 to a count, and halves when the count with its slot of its own was above 250 or the
      total gets above 65280. */
  lemma RootAdapts(t: Context, v: byte)
    requires Good([], t)
    ensures Becomes(Adapt([], t, v), t.counts[v] + 1 > 250 || t.total + 3 > 65280, Grown(t, v, 3), t.escapes, t.total + 3, 256)
  {
    hide Sum;
  }

  /** Any other context adds 2 to a count, and 5 escapes for a byte it did not know; it halves when the
      count was above 251 or the total gets above 65280. */
  lemma OtherAdapts(k: Key, t: Context, v: byte)
    requires k != [] && Good(k, t)
    ensures var escape := if t.counts[v] == 0 then 5 else 0;
            Becomes(Adapt(k, t, v), t.counts[v] > 251 || t.total + escape + 2 > 65280,
                    Grown(t, v, 2), t.escapes + escape, t.total + escape + 2, 0)
  {
    hide Sum;
  }

  /** The suffix of a context that has a given length. */
  predicate Ends(k: Key, j: Key) {
    |j| <= |k| && k[|k| - |j|..] == j
  }

  /** Which contexts byte v changes when it is coded in the context of length n: those from the longest
      down to that one adapt, each gets a longer one for v if it has none, and nothing else changes. */
  lemma {:induction false} LearnInNumbers(cs: Contexts, k: Key, n: nat, v: byte, j: Key)
    requires Linked(cs) && Chained(cs, k) && StopsAt(cs, k, n, v)
    ensures n <= |k|
    ensures j in cs ==>
              && j in Learn(cs, k, n, v)
              && Learn(cs, k, n, v)[j] == if Ends(k, j) && n <= |j| then Adapt(j, cs[j], v) else cs[j]
    ensures j !in cs ==>
              && (j in Learn(cs, k, n, v) <==> j != [] && j[|j| - 1] == v && Ends(k, j[..|j| - 1]) && n <= |j| - 1)
              && (j in Learn(cs, k, n, v) ==> Unseen(Learn(cs, k, n, v)[j]))
    decreases |k|
  {
    hide Adapt, Linked, Good, Unseen, Touch, Chained, Ends;
    var i := if j == [] then [] else j[..|j| - 1];
    TouchInNumbers(cs, k, v, j);
    EndsShorter(k, j);
    EndsShorter(k, i);
    EndsExactly(k, i, v, j);
    if |k| > n {
      LearnStep(cs, k, n, v);
      LearnInNumbers(Touch(cs, k, v), k[1..], n, v, j);
    }
  }

  lemma LearnStep(cs: Contexts, k: Key, n: nat, v: byte)
    requires Linked(cs) && Chained(cs, k) && StopsAt(cs, k, n, v) && |k| > n
    ensures k in cs && Good(k, cs[k])
    ensures Linked(Touch(cs, k, v)) && Chained(Touch(cs, k, v), k[1..]) && StopsAt(Touch(cs, k, v), k[1..], n, v)
    ensures Learn(cs, k, n, v) == Learn(Touch(cs, k, v), k[1..], n, v)
  {
    hide Touch, Sum;
    TouchLinked(cs, k, v);
    TouchStops(cs, k, v, k[1..], n);
  }

  lemma TouchInNumbers(cs: Contexts, k: Key, v: byte, j: Key)
    requires Linked(cs) && Chained(cs, k)
    ensures k in cs && Good(k, cs[k])
    ensures j in cs ==> j in Touch(cs, k, v) && Touch(cs, k, v)[j] == if j == k then Adapt(k, cs[k], v) else cs[j]
    ensures j !in cs ==> (j in Touch(cs, k, v) <==> j == k + [v]) && (j in Touch(cs, k, v) ==> Unseen(Touch(cs, k, v)[j]))
  {
    hide Adapt, Good;
  }

  lemma EndsShorter(k: Key, i: Key)
    ensures k != [] && i != k ==> (Ends(k, i) <==> Ends(k[1..], i))
    ensures Ends(k, k) && (k != [] ==> !Ends(k[1..], k))
    ensures Ends(k, i) ==> |i| <= |k| && (|i| == |k| ==> i == k)
  {
    if k != [] && |i| < |k| { assert k[1..][|k| - 1 - |i|..] == k[|k| - |i|..]; }
  }

  lemma EndsExactly(k: Key, i: Key, v: byte, j: Key)
    requires i == if j == [] then [] else j[..|j| - 1]
    ensures j == k + [v] <==> j != [] && j[|j| - 1] == v && i == k
  {
    if j != [] { assert j == j[..|j| - 1] + [j[|j| - 1]]; }
  }

  predicate Unseen(t: Context) {
    |t.counts| == 256 && (forall w :: 0 <= w < 256 ==> t.counts[w] == 0) && t.escapes == 0 && t.total == 0
  }

  /** The model after byte v: everything is forgotten when 4094 of the 4096 slots are used; otherwise the
      last two bytes are the next context. */
  lemma CodedInNumbers(m: Model, v: byte)
    requires Valid(m)
    ensures Chained(m.contexts, m.predicted)
    ensures var k := m.predicted;
            var learnt := Learn(m.contexts, k, Order(m.contexts, k, v), v);
            && |k| <= 2
            && (|learnt| >= 4094 ==> Coded(m, v) == Start())
            && (|learnt| < 4094 ==>
                  && Coded(m, v).contexts == learnt
                  && Coded(m, v).predicted == if |k| == 2 then [k[1], v] else k + [v])
  {
    hide Learn, Order, Linked, Start;
    ValidChained(m);
  }

  /** The context a byte is coded in: the longest that knows it, or the root. */
  lemma {:induction false} OrderInNumbers(cs: Contexts, k: Key, v: byte, j: Key)
    requires Linked(cs) && Chained(cs, k)
    ensures Order(cs, k, v) <= |k|
    ensures Ends(k, j) ==> j in cs && |cs[j].counts| == 256
    ensures Ends(k, j) && |j| > Order(cs, k, v) ==> j != [] && cs[j].counts[v] == 0
    ensures Ends(k, j) && |j| == Order(cs, k, v) ==> j == [] || cs[j].counts[v] > 0
    decreases |k|
  {
    hide Sum, Ends;
    EndsShorter(k, j);
    if k != [] { OrderInNumbers(cs, k[1..], v, j); }
  }

  // ---- The range coder

  /** One step: the interval is cut into total equal parts, of which the step takes count from under on. */
  lemma NarrowInNumbers(low: int, range: int, op: Op)
    requires op.total > 0
    ensures Narrow(Range(low, range), op) == Range(low + op.under * (range / op.total), op.count * (range / op.total))
  {
  }

  /** Bytes are shifted out while both ends have the same top byte, or the range is below 65536; in the
      second case it is first cut back to the next multiple of 65536. */
  lemma NormalizeInNumbers(low: int, range: int)
    requires 0 <= low && 1 <= range < 0x1_0000_0000 && low + range <= 0x1_0000_0000
    requires low + range == 0x1_0000_0000 ==> low >= 0x100_0000
    ensures Sound(Range(low, range))
    ensures var differ := low / 0x100_0000 != (low + range) / 0x100_0000;
            if differ && range >= 65536 then Normalize(Range(low, range)) == ([], Range(low, range))
            else
              var cut := if differ then (0x1_0000_0000 - low) % 65536 else range;
              var next := Range(low % 0x100_0000 * 256, cut * 256);
              && Sound(next)
              && Normalize(Range(low, range)) == ([low / 0x100_0000] + Normalize(next).0, Normalize(next).1)
  {
    if !(low / 0x100_0000 != (low + range) / 0x100_0000 && range >= 65536) {
      SettleShift(Range(low, range));
    }
  }

  /** At the end the bytes of low are written, as long as it is not 0. */
  lemma FlushInNumbers(low: int)
    requires 0 <= low < 0x1_0000_0000
    ensures Flush(0) == []
    ensures low != 0 ==> Flush(low) == [low / 0x100_0000] + Flush(low % 0x100_0000 * 256)
  {
    ShiftedLow(low);
  }

  /** The stream for some steps, from the first interval on. */
  lemma EncodeInNumbers(text: seq<byte>)
    ensures Valid(Start()) && Ready(Range(0, 0xFFFF_FFFF))
    ensures Encode(text) == Tail(Range(0, 0xFFFF_FFFF), MessageOps(Start(), text))
  {
    StartValid();
  }

  /** The letter a. */
  lemma EncodeLetter()
    ensures Encode([0x61]) == [0x61, 0x9E, 0x61, 0x9E]
  {
    hide Normalize, Flush, Fresh, Linked;
    EncodeInNumbers([0x61]);
    FirstStep(0x61, []);
    OneStep(0x61);
    var op := Op(0x62, 1, 257);
    NarrowInNumbers(0, 0xFFFF_FFFF, op);
    assert Narrow(INITIAL, op) == Range(0x619E_619E, 0xFF_00FF);
    NormalizeInNumbers(0x619E_619E, 0xFF_00FF);
    FlushInNumbers(0x619E_619E);
    FlushInNumbers(0x9E61_9E00);
    FlushInNumbers(0x619E_0000);
    FlushInNumbers(0x9E00_0000);
  }

  /** A text of one byte takes one step. */
  lemma OneStep(v: byte)
    ensures Valid(Start()) && MessageOps(Start(), [v]) == [Op(1 + v, 1, 257)]
  {
    hide Fresh, Good, Sum;
    FirstStep(v, []);
    ValidChained(Start());
    OpsInNumbers(Start().contexts, [], v);
    assert [v] + [] == [v];
  }

  // ---- Decoding

  /** The slot that a stream, of which the next four bytes are the word w, is in. */
  lemma SlotInNumbers(low: int, range: int, total: nat, s: seq<byte>)
    requires Ready(Range(low, range)) && 0 < total < 65536
    ensures range / total > 0
    ensures var w := At(s, 0) * 0x100_0000 + At(s, 1) * 0x1_0000 + At(s, 2) * 0x100 + At(s, 3);
            Slot(Range(low, range), total, s) == (w - low) % 0x1_0000_0000 / (range / total) % 65536
  {
    NarrowSound(Range(low, range), Op(0, 1, total));
  }

  /** Reading in context k: a context that can write no escape is skipped; a slot of an escape leads to
      the next shorter context, and ends the text in the root; a slot of no byte is an error; any other
      belongs to the byte read. */
  lemma ReadInNumbers(cs: Contexts, k: Key, r: Range, s: seq<byte>)
    requires Linked(cs) && Chained(cs, k) && Ready(r)
    ensures k in cs && |cs[k].counts| == 256 && (k != [] ==> Chained(cs, k[1..]))
    ensures var t := cs[k];
            if k != [] && !(0 < t.escapes < t.total) then ReadSymbol(cs, k, r, s) == ReadSymbol(cs, k[1..], r, s)
            else
              && 0 < t.total < 65536
              && var slot := Slot(r, t.total, s);
                 if slot < t.escapes then ReadsEscapeAt(cs, k, r, s)
                 else if slot >= t.escapes + Sum(t.counts, 0, 256) + (if k == [] then 256 else 0) then
                   ReadSymbol(cs, k, r, s) == if k == [] then Gap else Corrupt
                 else ReadsByteAt(cs, k, r, s, slot)
  {
    hide Sum, Narrow, Slot, Linked, ReadSymbol, ReadsByteAt, ReadsEscapeAt;
    LinkedAt(cs, k);
    var t := cs[k];
    if k != [] && !(0 < t.escapes < t.total) {
      SkippedAt(cs, k, r, s);
    } else {
      var slot := Slot(r, t.total, s);
      if slot < t.escapes {
        EscapedAt(cs, k, r, s);
      } else if slot >= t.escapes + Under(k, t, 256) {
        OutsideAt(cs, k, r, s);
      } else {
        ByteAt(cs, k, r, s);
      }
    }
  }

  lemma SkippedAt(cs: Contexts, k: Key, r: Range, s: seq<byte>)
    requires Linked(cs) && Chained(cs, k) && Ready(r) && k != [] && !(0 < cs[k].escapes < cs[k].total)
    ensures ReadSymbol(cs, k, r, s) == ReadSymbol(cs, k[1..], r, s)
  {
    hide Sum, Narrow, Slot, Linked, Follow, Owner;
    LinkedAt(cs, k);
  }

  lemma EscapedAt(cs: Contexts, k: Key, r: Range, s: seq<byte>)
    requires Linked(cs) && Chained(cs, k) && Ready(r) && (k == [] || 0 < cs[k].escapes < cs[k].total) && 0 < cs[k].total < 65536
    requires Slot(r, cs[k].total, s) < cs[k].escapes
    ensures ReadsEscapeAt(cs, k, r, s)
  {
    hide Sum, Narrow, Slot, Linked, Follow, Owner;
    LinkedAt(cs, k);
    if k != [] {
      ReadsEscape(cs, k, r, s);
      FollowReady(r, Op(0, cs[k].escapes, cs[k].total), s);
    }
  }

  lemma OutsideAt(cs: Contexts, k: Key, r: Range, s: seq<byte>)
    requires Linked(cs) && Chained(cs, k) && Ready(r) && (k == [] || 0 < cs[k].escapes < cs[k].total) && 0 < cs[k].total < 65536
    requires |cs[k].counts| == 256 && Slot(r, cs[k].total, s) >= cs[k].escapes + Under(k, cs[k], 256)
    ensures ReadSymbol(cs, k, r, s) == if k == [] then Gap else Corrupt
  {
    hide Sum, Narrow, Slot, Linked, Follow, Owner, Under;
    LinkedAt(cs, k);
  }

  lemma ByteAt(cs: Contexts, k: Key, r: Range, s: seq<byte>)
    requires Linked(cs) && Chained(cs, k) && Ready(r) && (k == [] || 0 < cs[k].escapes < cs[k].total) && 0 < cs[k].total < 65536
    requires |cs[k].counts| == 256 && cs[k].escapes <= Slot(r, cs[k].total, s) < cs[k].escapes + Under(k, cs[k], 256)
    ensures ReadsByteAt(cs, k, r, s, Slot(r, cs[k].total, s))
  {
    hide Sum, Narrow, Slot, Linked, Follow, ReadSymbol;
    LinkedAt(cs, k);
    var t, slot := cs[k], Slot(r, cs[k].total, s);
    SumZero(t.counts, 0, 0);
    var v := Owner(k, t, slot - t.escapes, 0);
    UnderNext(k, t, v);
    OwnerFits(k, t, v);
    ReadsOwned(cs, k, v, r, s);
  }

  lemma FollowReady(r: Range, op: Op, s: seq<byte>)
    requires Ready(r) && Fits(op)
    ensures Ready(Follow(r, op, s).0)
  {
  }

  lemma LinkedAt(cs: Contexts, k: Key)
    requires Linked(cs) && Chained(cs, k)
    ensures k in cs && Good(k, cs[k]) && (k == [] ==> cs[k].total > 0)
  {
    hide Sum;
  }

  ghost predicate ReadsEscapeAt(cs: Contexts, k: Key, r: Range, s: seq<byte>)
    requires Linked(cs) && Chained(cs, k) && Ready(r)
  {
    if k == [] then ReadSymbol(cs, k, r, s) == End
    else
      && Fits(Op(0, cs[k].escapes, cs[k].total))
      && var (next, rest) := Follow(r, Op(0, cs[k].escapes, cs[k].total), s);
         Ready(next) && ReadSymbol(cs, k, r, s) == ReadSymbol(cs, k[1..], next, rest)
  }

  /** The byte read is the one whose slots contain the slot, and is followed as it was coded. */
  ghost predicate ReadsByteAt(cs: Contexts, k: Key, r: Range, s: seq<byte>, slot: int)
    requires Linked(cs) && Chained(cs, k) && Ready(r)
  {
    var reading := ReadSymbol(cs, k, r, s);
    && reading.Symbol? && reading.order == |k| && |cs[k].counts| == 256
    && var op := StepOf(k, cs[k], reading.value);
       op.under <= slot < op.under + op.count && Fits(op) && (reading.range, reading.rest) == Follow(r, op, s)
  }

  function StepOf(k: Key, t: Context, v: byte): Op
    requires |t.counts| == 256
  {
    if k == [] then Op(t.escapes + v + Sum(t.counts, 0, v), t.counts[v] + 1, t.total)
    else Op(t.escapes + Sum(t.counts, 0, v), t.counts[v], t.total)
  }
}
