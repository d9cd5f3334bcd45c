/** Decoding what the PPM model encoded. The decoder never sees the encoder's model: it rebuilds
    the same one from the bytes it has decoded so far. */
module RoundTrip {
  import opened Words
  import opened Interval
  import opened Ppm

  /** What one attempt to decode a byte yields. A slot no byte of a longer context owns is Corrupt;
      a slot past the end of the root context is Gap. */
  datatype Reading =
    | Symbol(value: byte, order: nat, range: Range, rest: seq<byte>)
    | End
    | Corrupt
    | Gap

  /** The byte that owns slot code, searching upwards from byte v. */
  function Owner(k: Key, t: Context, code: nat, v: byte): (w: byte)
    requires |t.counts| == 256 && Under(k, t, v) <= code < Under(k, t, 256)
    ensures Under(k, t, w) <= code < Under(k, t, w + 1)
    decreases 256 - v
  {
    if code < Under(k, t, v + 1) then v else Owner(k, t, code, v + 1)
  }

  lemma OwnerUnique(k: Key, t: Context, code: nat, v: byte)
    requires |t.counts| == 256 && Under(k, t, v) <= code < Under(k, t, v + 1)
    ensures code < Under(k, t, 256)
    ensures Owner(k, t, code, 0) == v
  {
    UnderMonotone(k, t, v + 1, 256);
    var w := Owner(k, t, code, 0);
    if w < v { UnderMonotone(k, t, w + 1, v); }
    if v < w { UnderMonotone(k, t, v + 1, w); }
  }

  lemma OwnerFits(k: Key, t: Context, v: byte)
    requires Good(k, t) && Under(k, t, v) < Under(k, t, v + 1)
    ensures Fits(SymbolOp(k, t, v))
  {
    UnderNext(k, t, v);
    UnderMonotone(k, t, v + 1, 256);
  }

  ghost function ReadSymbol(cs: Contexts, k: Key, r: Range, s: seq<byte>): (reading: Reading)
    requires Linked(cs) && Chained(cs, k) && Ready(r)
    ensures reading.Symbol? ==> Ready(reading.range) && StopsAt(cs, k, reading.order, reading.value)
    decreases |k|
  {
    var t := cs[k];
    var total := t.total;
    if k != [] && (t.escapes <= 0 || t.escapes >= total) then ReadSymbol(cs, k[1..], r, s)
    else
      var code := Slot(r, total, s);
      if code < t.escapes then
        if k == [] then End
        else
          var (next, rest) := Follow(r, Op(0, t.escapes, total), s);
          ReadSymbol(cs, k[1..], next, rest)
      else if code - t.escapes >= Under(k, t, 256) then
        if k == [] then Gap else Corrupt
      else
        var v := Owner(k, t, code - t.escapes, 0);
        OwnerFits(k, t, v);
        var (next, rest) := Follow(r, SymbolOp(k, t, v), s);
        Symbol(v, |k|, next, rest)
  }

  /** The result of decompression: the text, or too little room for it, or a stream no encoder wrote. */
  datatype Decoded = Text(text: seq<byte>) | Overflow | Unreadable | Undefined

  ghost function DecodeFrom(m: Model, r: Range, s: seq<byte>, room: nat): Decoded
    requires Valid(m) && Ready(r)
    decreases room
  {
    ValidChained(m);
    match ReadSymbol(m.contexts, m.predicted, r, s)
    case End => Text([])
    case Corrupt => Unreadable
    case Gap => Undefined
    case Symbol(v, n, next, rest) =>
      if room == 0 then Overflow
      else
        match DecodeFrom(After(m, n, v), next, rest, room - 1)
        case Text(text) => Text([v] + text)
        case other => other
  }

  ghost function Decode(s: seq<byte>, room: nat): Decoded {
    StartValid();
    DecodeFrom(Start(), INITIAL, s, room)
  }

  lemma ReadsOwned(cs: Contexts, k: Key, v: byte, r: Range, s: seq<byte>)
    requires Linked(cs) && Chained(cs, k) && Ready(r) && Stops(cs, k, v)
    requires Fits(SymbolOp(k, cs[k], v))
    requires var op := SymbolOp(k, cs[k], v);
             op.under <= Slot(r, op.total, s) < op.under + op.count
    ensures var (next, rest) := Follow(r, SymbolOp(k, cs[k], v), s);
            ReadSymbol(cs, k, r, s) == Symbol(v, |k|, next, rest)
  {
    hide Under, Sum, Follow, Slot;
    var t := cs[k];
    UnderNext(k, t, v);
    SumCovers(t.counts, 0, 256, v);
    OwnerUnique(k, t, Slot(r, t.total, s) - t.escapes, v);
  }

  lemma ReadsEscape(cs: Contexts, k: Key, r: Range, s: seq<byte>)
    requires Linked(cs) && Chained(cs, k) && Ready(r) && k != []
    requires 0 < cs[k].escapes < cs[k].total
    requires Slot(r, cs[k].total, s) < cs[k].escapes
    ensures var (next, rest) := Follow(r, Op(0, cs[k].escapes, cs[k].total), s);
            ReadSymbol(cs, k, r, s) == ReadSymbol(cs, k[1..], next, rest)
  {
  }

  /** A decoder with the encoder's contexts reads the byte that was encoded, and then stands where
      the encoder stood. */
  lemma {:induction false} ReadsEncoded(cs: Contexts, k: Key, v: byte, r: Range, later: seq<Op>)
    requires Linked(cs) && Chained(cs, k) && Ready(r) && AllFit(later)
    ensures var reading := ReadSymbol(cs, k, r, Tail(r, Ops(cs, k, v) + later));
            && reading.Symbol? && reading.value == v && reading.order == Order(cs, k, v)
            && Ready(reading.range) && reading.rest == Tail(reading.range, later)
    decreases |k|
  {
    hide Tail, Slot, Follow, Under, Sum;
    var t := cs[k];
    var ops := Ops(cs, k, v) + later;
    var s := Tail(r, ops);
    OpsFit(k, t, v);
    if Stops(cs, k, v) {
      assert ops[0] == SymbolOp(k, t, v) && ops[1..] == later;
      DecodesStep(r, ops);
      ReadsOwned(cs, k, v, r, s);
    } else if 0 < t.escapes < t.total {
      assert ops[0] == Op(0, t.escapes, t.total);
      assert ops[1..] == Ops(cs, k[1..], v) + later;
      DecodesStep(r, ops);
      ReadsEscape(cs, k, r, s);
      ReadsEncoded(cs, k[1..], v, Follow(r, ops[0], s).0, later);
    } else {
      assert ops == Ops(cs, k[1..], v) + later;
      ReadsEncoded(cs, k[1..], v, r, later);
    }
  }

  /** No end marker is written, yet a decoder stops: once every operation has been read, each
      context reads slot 0, an escape, down to the root. */
  lemma {:induction false} ReadsEnd(cs: Contexts, k: Key, r: Range)
    requires Linked(cs) && Chained(cs, k) && Ready(r)
    ensures ReadSymbol(cs, k, r, Tail(r, [])) == End
    decreases |k|
  {
    var t := cs[k];
    OpsFit(k, t, 0);
    if k == [] {
      DecodesEnd(r, Op(0, t.escapes, t.total));
    } else if 0 < t.escapes < t.total {
      var op := Op(0, t.escapes, t.total);
      DecodesEnd(r, op);
      ReadsEnd(cs, k[1..], Follow(r, op, Tail(r, [])).0);
    } else {
      ReadsEnd(cs, k[1..], r);
    }
  }

  /** The decoder's model after the byte it reads is the encoder's after the byte it wrote: both have
      the same contexts, and both start anew at the same byte. */
  lemma DecoderFollows(m: Model, v: byte, r: Range, later: seq<Op>)
    requires Valid(m) && Ready(r) && AllFit(later)
    ensures Chained(m.contexts, m.predicted)
    ensures var reading := ReadSymbol(m.contexts, m.predicted, r, Tail(r, Ops(m.contexts, m.predicted, v) + later));
            && reading.Symbol? && reading.value == v && After(m, reading.order, reading.value) == Coded(m, v)
            && Ready(reading.range) && reading.rest == Tail(reading.range, later)
  {
    hide Ops, Tail, Order, ReadSymbol, Learn, After, StopsAt;
    ValidChained(m);
    ReadsEncoded(m.contexts, m.predicted, v, r, later);
  }

  lemma DecodesSymbol(m: Model, r: Range, s: seq<byte>, room: nat)
    requires Valid(m) && Ready(r) && room > 0 && Chained(m.contexts, m.predicted)
    requires ReadSymbol(m.contexts, m.predicted, r, s).Symbol?
    ensures var reading := ReadSymbol(m.contexts, m.predicted, r, s);
            var later := DecodeFrom(After(m, reading.order, reading.value), reading.range, reading.rest, room - 1);
            DecodeFrom(m, r, s, room) == if later.Text? then Text([reading.value] + later.text) else later
  {
  }

  lemma {:induction false} DecodesFrom(m: Model, r: Range, text: seq<byte>, room: nat)
    requires Valid(m) && Ready(r)
    ensures DecodeFrom(m, r, Tail(r, MessageOps(m, text)), room)
         == if |text| <= room then Text(text) else Overflow
    decreases |text|
  {
    hide ReadSymbol, Tail, Ops, Learn, Linked, StopsAt;
    ValidChained(m);
    if text == [] {
      ReadsEnd(m.contexts, m.predicted, r);
    } else {
      var after := Coded(m, text[0]);
      var later := MessageOps(after, text[1..]);
      var s := Tail(r, MessageOps(m, text));
      ReadsEncoded(m.contexts, m.predicted, text[0], r, later);
      if room > 0 {
        DecodesSymbol(m, r, s, room);
        var reading := ReadSymbol(m.contexts, m.predicted, r, s);
        DecodesFrom(after, reading.range, text[1..], room - 1);
        assert text == [text[0]] + text[1..];
      }
    }
  }

  /** Decompression inverts compression for every text, and reports too little room exactly when
      there is too little. */
  lemma DecodeEncode(text: seq<byte>, room: nat)
    ensures Decode(Encode(text), room) == if |text| <= room then Text(text) else Overflow
  {
    StartValid();
    DecodesFrom(Start(), INITIAL, text, room);
  }

  /** No two texts share a compressed form, although nothing marks where one ends. */
  lemma EncodeInjective(a: seq<byte>, b: seq<byte>)
    requires Encode(a) == Encode(b)
    ensures a == b
  {
    var room := |a| + |b|;
    DecodeEncode(a, room);
    DecodeEncode(b, room);
  }
}
