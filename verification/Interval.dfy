/** The carry-less 32-bit range coder of compress.c: an interval [low, low + range) that is
    narrowed by each coding operation and shifted out one byte at a time. */
module Interval {
  import opened Words

  const TOP := 0x100_0000
  const BOTTOM := 0x1_0000

  /** One coding step: the slots [under, under + count) out of total. */
  datatype Op = Op(under: nat, count: nat, total: nat)

  datatype Range = Range(low: int, range: int)

  /** What the model promises of a coding step. */
  predicate Fits(op: Op) {
    1 <= op.count && op.under + op.count <= op.total < BOTTOM
  }

  predicate AllFit(ops: seq<Op>) {
    forall i :: 0 <= i < |ops| ==> Fits(ops[i])
  }

  /** The interval lies within 32 bits. Its end may be 2^32, where the 32-bit sum wraps to 0;
      then low has a nonzero top byte, so the comparison of top bytes still sees a difference. */
  predicate Sound(r: Range) {
    && 0 <= r.low < WORD && 1 <= r.range < WORD
    && r.low + r.range <= WORD
    && (r.low + r.range == WORD ==> r.low >= TOP)
  }

  predicate TopsDiffer(r: Range) {
    r.low / TOP != (r.low + r.range) / TOP
  }

  /** Ready to code: normalised, with room for every total below 2^16. */
  predicate Ready(r: Range) {
    Sound(r) && r.range >= BOTTOM && TopsDiffer(r)
  }

  const INITIAL := Range(0, WORD - 1)

  function Narrow(r: Range, op: Op): Range
    requires op.total > 0
  {
    var unit := r.range / op.total;
    Range(r.low + op.under * unit, unit * op.count)
  }

  lemma NarrowSound(r: Range, op: Op)
    requires Ready(r) && Fits(op)
    ensures Sound(Narrow(r, op)) && r.range / op.total >= 1
    ensures r.low <= Narrow(r, op).low
    ensures Narrow(r, op).low + Narrow(r, op).range <= r.low + r.range
  {
    var unit := r.range / op.total;
    assert unit * op.total <= r.range;
    assert unit >= 1;
    assert op.under * unit + op.count * unit == (op.under + op.count) * unit <= op.total * unit by {
      MulMonotone(op.under + op.count, op.total, unit);
    }
    assert op.count * unit >= 1 by { MulMonotone(1, op.count, unit); }
    assert op.under * unit >= 0;
  }

  lemma MulMonotone(a: int, b: int, c: int)
    requires a <= b && 0 <= c
    ensures a * c <= b * c
  {
  }

  /** When the top bytes differ but the range has become too small, the range is cut back to the
      next multiple of 2^16, so that the top byte can be shifted out. */
  function Settle(r: Range): Range {
    if TopsDiffer(r) then Range(r.low, (WORD - r.low) % BOTTOM) else r
  }

  function Shift(r: Range): Range {
    Range(r.low * 256 % WORD, r.range * 256)
  }

  predicate Aligned(r: Range) {
    (r.low + r.range) % BOTTOM == 0
  }

  lemma ShiftedLow(low: int)
    requires 0 <= low < WORD
    ensures low * 256 % WORD == low % TOP * 256
  {
    var t, m := low / TOP, low % TOP;
    assert low * 256 == t * WORD + m * 256;
  }

  lemma SettleShift(r: Range)
    requires Sound(r) && !(TopsDiffer(r) && r.range >= BOTTOM)
    ensures var s := Settle(r);
            && 1 <= s.range <= r.range
            && s.low % TOP + s.range <= TOP
            && Shift(s) == Range(s.low % TOP * 256, s.range * 256)
            && Sound(Shift(s))
            && (Aligned(r) ==> Aligned(Shift(s)) && s.range == r.range)
            && (TopsDiffer(r) ==> Aligned(Shift(s)))
  {
    ShiftedLow(r.low);
    if TopsDiffer(r) {
      SettleCrossing(r);
    } else {
      SettleInside(r);
    }
  }

  /** The interval crosses a multiple of 2^24, hence one of 2^16. */
  lemma SettleCrossing(r: Range)
    requires Sound(r) && TopsDiffer(r) && r.range < BOTTOM
    ensures 1 <= Settle(r).range <= r.range
    ensures r.low % TOP + Settle(r).range == TOP
    ensures Aligned(r) ==> Settle(r).range == r.range
  {
    var m := r.low % TOP;
    assert m + r.range >= TOP;
    assert (WORD - r.low) % BOTTOM == (TOP - m) % BOTTOM;
  }

  lemma SettleInside(r: Range)
    requires Sound(r) && !TopsDiffer(r)
    ensures r.low % TOP + r.range < TOP
    ensures Aligned(r) ==> (r.low % TOP * 256 + r.range * 256) % BOTTOM == 0
  {
    var t, m := r.low / TOP, r.low % TOP;
    assert r.low == t * TOP + m;
    assert m + r.range < TOP;
    if Aligned(r) {
      var q := (r.low + r.range) / BOTTOM;
      assert m + r.range == (q - t * 256) * BOTTOM;
      MultipleOfBottom((q - t * 256) * 256);
    }
  }

  lemma MultipleOfBottom(q: int)
    ensures q * BOTTOM % BOTTOM == 0
  {
  }

  /** The bytes shifted out by normalisation, and the interval it ends with. */
  function Normalize(r: Range): (n: (seq<byte>, Range))
    requires Sound(r)
    ensures Ready(n.1)
    decreases !Aligned(r), WORD - r.range
  {
    if TopsDiffer(r) && r.range >= BOTTOM then ([], r)
    else
      SettleShift(r);
      var s := Settle(r);
      var (bytes, last) := Normalize(Shift(s));
      ([s.low / TOP] + bytes, last)
  }

  /** What the encoder writes last: the bytes of low without its trailing zeros. */
  function Flush(low: int): seq<byte>
    requires 0 <= low < WORD
    decreases Width(low)
  {
    if low == 0 then [] else
      ShiftedWidth(low);
      [low / TOP] + Flush(low * 256 % WORD)
  }

  function Width(low: int): nat {
    if low == 0 then 0 else if low % TOP == 0 then 1 else if low % BOTTOM == 0 then 2 else if low % 256 == 0 then 3 else 4
  }

  lemma ShiftedWidth(low: int)
    requires 0 < low < WORD
    ensures Width(low * 256 % WORD) < Width(low)
  {
    ShiftedLow(low);
    var m := low % TOP;
    if low % TOP == 0 {
    } else if low % BOTTOM == 0 {
      MultipleShifted(m, BOTTOM, TOP);
    } else if low % 256 == 0 {
      MultipleShifted(m, 256, BOTTOM);
    } else {
      MultipleShifted(m, 1, 256);
    }
  }

  lemma MultipleShifted(m: int, a: int, b: int)
    requires (a == 1 && b == 256) || (a == 256 && b == BOTTOM) || (a == BOTTOM && b == TOP)
    requires m % a == 0
    ensures m * 256 % b == 0
  {
    var q := m / a;
    assert m == q * a;
    assert m * 256 == q * b;
  }

  /** The stream an encoder in state r still writes for the given operations. */
  function Tail(r: Range, ops: seq<Op>): seq<byte>
    requires Ready(r) && AllFit(ops)
    decreases |ops|
  {
    if ops == [] then Flush(r.low) else
      NarrowSound(r, ops[0]);
      var (bytes, next) := Normalize(Narrow(r, ops[0]));
      bytes + Tail(next, ops[1..])
  }

  // ---- Reading a stream: past its end every byte is zero.

  function At(s: seq<byte>, i: nat): byte {
    if i < |s| then s[i] else 0
  }

  function Drop(s: seq<byte>, n: nat): seq<byte> {
    if n <= |s| then s[n..] else []
  }

  /** The first four bytes of the stream as a big-endian word. */
  function Window(s: seq<byte>): (w: int)
    ensures 0 <= w < WORD
  {
    At(s, 0) * TOP + At(s, 1) * BOTTOM + At(s, 2) * 256 + At(s, 3)
  }

  predicate Inside(s: seq<byte>, r: Range) {
    r.low <= Window(s) < r.low + r.range
  }

  lemma WindowDrop(s: seq<byte>)
    ensures Window(Drop(s, 1)) == Window(s) % TOP * 256 + At(s, 4)
    ensures Window(s) / TOP == At(s, 0)
  {
    var d := Drop(s, 1);
    assert forall i: nat {:trigger At(d, i)} :: At(d, i) == At(s, i + 1);
    assert At(d, 0) == At(s, 1) && At(d, 1) == At(s, 2) && At(d, 2) == At(s, 3) && At(d, 3) == At(s, 4);
  }

  lemma DropDrop(s: seq<byte>, a: nat, b: nat)
    ensures Drop(Drop(s, a), b) == Drop(s, a + b)
  {
  }

  lemma BackOneByte(low: int, range: int, w: int, next: int)
    requires 0 <= low && 0 <= w && 0 <= next < 256
    requires w / TOP == low / TOP
    requires low % TOP * 256 <= w % TOP * 256 + next < low % TOP * 256 + range * 256
    ensures low <= w < low + range
  {
    assert low == low / TOP * TOP + low % TOP;
    assert w == w / TOP * TOP + w % TOP;
  }

  /** A stream inside the shifted interval is, one byte earlier, inside the settled one. */
  lemma InsideBeforeShift(r: Range, s: seq<byte>)
    requires Sound(r) && !(TopsDiffer(r) && r.range >= BOTTOM)
    requires At(s, 0) == r.low / TOP
    requires Inside(Drop(s, 1), Shift(Settle(r)))
    ensures Inside(s, r)
  {
    SettleShift(r);
    WindowDrop(s);
    BackOneByte(r.low, Settle(r).range, Window(s), At(s, 4));
  }

  lemma {:induction false} InsideBeforeNormalize(r: Range, s: seq<byte>)
    requires Sound(r)
    requires Inside(s, Normalize(r).1)
    ensures Inside(Normalize(r).0 + s, r)
    decreases !Aligned(r), WORD - r.range
  {
    hide Inside, Aligned;
    if TopsDiffer(r) && r.range >= BOTTOM {
      assert [] + s == s;
    } else {
      SettleShift(r);
      var next := Shift(Settle(r));
      InsideBeforeNormalize(next, s);
      var whole := Normalize(r).0 + s;
      assert Drop(whole, 1) == Normalize(next).0 + s;
      InsideBeforeShift(r, whole);
    }
  }

  /** Read back, the flushed bytes and the zeros after them are low itself, now and after every
      further shift. */
  lemma {:induction false} FlushWindow(low: int)
    requires 0 <= low < WORD
    ensures Window(Flush(low)) == low
    ensures Drop(Flush(low), 1) == Flush(low * 256 % WORD)
    decreases Width(low)
  {
    if low != 0 {
      ShiftedWidth(low);
      ShiftedLow(low);
      var rest := Flush(low * 256 % WORD);
      FlushWindow(low * 256 % WORD);
      assert Drop(Flush(low), 1) == rest;
      WindowDrop(Flush(low));
      BackOneByte(low, 1, Window(Flush(low)), At(Flush(low), 4));
    }
  }

  /** Everything still to be written lies inside the current interval, so no byte already written
      is ever revised. */
  lemma {:induction false} TailInside(r: Range, ops: seq<Op>)
    requires Ready(r) && AllFit(ops)
    ensures Inside(Tail(r, ops), r)
    decreases |ops|
  {
    if ops == [] {
      FlushWindow(r.low);
    } else {
      NarrowSound(r, ops[0]);
      var narrowed := Narrow(r, ops[0]);
      var next := Normalize(narrowed).1;
      TailInside(next, ops[1..]);
      InsideBeforeNormalize(narrowed, Tail(next, ops[1..]));
    }
  }

  /** The slot a decoder reads out of a stream: 32-bit arithmetic, kept in 16 bits. */
  function Slot(r: Range, total: nat, s: seq<byte>): uint16
    requires Ready(r) && 0 < total < BOTTOM
  {
    assert r.range / total >= 1 by { NarrowSound(r, Op(0, 1, total)); }
    (Window(s) - r.low) % WORD / (r.range / total) % WORD16
  }

  /** The interval and the stream after a decoder has followed a coding step. */
  function Follow(r: Range, op: Op, s: seq<byte>): (Range, seq<byte>)
    requires Ready(r) && Fits(op)
  {
    NarrowSound(r, op);
    var (bytes, next) := Normalize(Narrow(r, op));
    (next, Drop(s, |bytes|))
  }

  /** A decoder reads a slot of the step that was encoded, and then stands where the encoder stood. */
  lemma DecodesStep(r: Range, ops: seq<Op>)
    requires Ready(r) && ops != [] && AllFit(ops)
    ensures ops[0].under <= Slot(r, ops[0].total, Tail(r, ops)) < ops[0].under + ops[0].count
    ensures var (next, rest) := Follow(r, ops[0], Tail(r, ops));
            Ready(next) && rest == Tail(next, ops[1..])
  {
    NarrowSound(r, ops[0]);
    var narrowed := Narrow(r, ops[0]);
    var (bytes, next) := Normalize(narrowed);
    TailInside(next, ops[1..]);
    InsideBeforeNormalize(narrowed, Tail(next, ops[1..]));
    InsideReadsSlot(r, ops[0], Tail(r, ops));
  }

  lemma InsideReadsSlot(r: Range, op: Op, s: seq<byte>)
    requires Ready(r) && Fits(op) && Inside(s, Narrow(r, op))
    ensures op.under <= Slot(r, op.total, s) < op.under + op.count
  {
    hide Window;
    NarrowSound(r, op);
    var unit := r.range / op.total;
    SumTimes(op.under, op.count, unit);
    ReadBetween(Window(s) - r.low, unit, op.under, op.under + op.count);
  }

  lemma SumTimes(a: nat, b: nat, unit: nat)
    ensures (a + b) * unit == a * unit + unit * b && 0 <= a * unit
  {
  }

  lemma ReadBetween(offset: int, unit: int, a: int, b: int)
    requires 0 <= offset < WORD && unit > 0
    requires 0 <= a && a * unit <= offset < b * unit && b <= WORD16
    ensures a <= offset % WORD / unit % WORD16 < b
  {
    QuotientBetween(offset, unit, a, b);
    assert offset % WORD == offset;
    var q := offset / unit;
    assert q % WORD16 == q;
  }

  lemma QuotientBetween(x: int, unit: int, a: int, b: int)
    requires unit > 0 && a * unit <= x < b * unit
    ensures a <= x / unit < b
  {
    var q := x / unit;
    assert q * unit <= x < q * unit + unit;
    if q < a { MulMonotone(q + 1, a, unit); }
    if q >= b { MulMonotone(b, q, unit); }
  }

  /** After the last operation every slot reads as 0, for as long as the steps taken are the ones
      that slot 0 asks for. */
  lemma DecodesEnd(r: Range, op: Op)
    requires Ready(r) && Fits(op) && op.under == 0
    ensures Slot(r, op.total, Tail(r, [])) == 0
    ensures var (next, rest) := Follow(r, op, Tail(r, []));
            Ready(next) && rest == Tail(next, [])
  {
    FlushWindow(r.low);
    NarrowSound(r, op);
    ReadBetween(0, r.range / op.total, 0, 1);
    FlushFollows(Narrow(r, op));
  }

  lemma {:induction false} FlushFollows(r: Range)
    requires Sound(r)
    ensures Drop(Flush(r.low), |Normalize(r).0|) == Flush(Normalize(r).1.low)
    decreases !Aligned(r), WORD - r.range
  {
    if TopsDiffer(r) && r.range >= BOTTOM {
    } else {
      SettleShift(r);
      var next := Shift(Settle(r));
      FlushWindow(r.low);
      FlushFollows(next);
      DropDrop(Flush(r.low), 1, |Normalize(next).0|);
    }
  }

  // ---- Encoding piece by piece

  /** The bytes written for some operations, and the interval after them. */
  function Emit(r: Range, ops: seq<Op>): (e: (seq<byte>, Range))
    requires Ready(r) && AllFit(ops)
    ensures Ready(e.1)
    decreases |ops|
  {
    if ops == [] then ([], r) else
      NarrowSound(r, ops[0]);
      var (bytes, next) := Normalize(Narrow(r, ops[0]));
      var (more, last) := Emit(next, ops[1..]);
      (bytes + more, last)
  }

  lemma {:induction false} EmitConcat(r: Range, a: seq<Op>, b: seq<Op>)
    requires Ready(r) && AllFit(a) && AllFit(b)
    ensures Emit(r, a + b).0 == Emit(r, a).0 + Emit(Emit(r, a).1, b).0
    ensures Emit(r, a + b).1 == Emit(Emit(r, a).1, b).1
    decreases |a|
  {
    hide Normalize, Narrow;
    if a == [] {
      assert a + b == b;
    } else {
      assert (a + b)[1..] == a[1..] + b;
      NarrowSound(r, a[0]);
      EmitConcat(Normalize(Narrow(r, a[0])).1, a[1..], b);
    }
  }

  lemma {:induction false} TailEmit(r: Range, ops: seq<Op>)
    requires Ready(r) && AllFit(ops)
    ensures Tail(r, ops) == Emit(r, ops).0 + Flush(Emit(r, ops).1.low)
    decreases |ops|
  {
    if ops != [] {
      NarrowSound(r, ops[0]);
      TailEmit(Normalize(Narrow(r, ops[0])).1, ops[1..]);
    }
  }

  lemma TailConcat(r: Range, a: seq<Op>, b: seq<Op>)
    requires Ready(r) && AllFit(a) && AllFit(b)
    ensures Tail(r, a + b) == Emit(r, a).0 + Tail(Emit(r, a).1, b)
  {
    hide Tail, Emit, Flush, Ready, Fits;
    TailEmit(r, a + b);
    EmitConcat(r, a, b);
    TailEmit(Emit(r, a).1, b);
  }
}
