/** The compressor and the decompressor of compress.c. */
module RangeCoder {
  import opened Words
  import opened Interval
  import opened Ppm
  import opened RoundTrip
  import opened SymbolArena
  import opened RangeSteps

  const DELTA: byte := 2
  const ROOT_DELTA: byte := 3

  lemma LinkedCodable(cs: Contexts, k: Key)
    requires Linked(cs) && k in cs
    ensures Codable(cs, k)
  {
    hide Good;
  }

  lemma OpsStep(cs: Contexts, k: Key, v: byte)
    requires Linked(cs) && Chained(cs, k)
    ensures Good(k, cs[k])
    ensures Stops(cs, k, v) ==> Ops(cs, k, v) == [SymbolOp(k, cs[k], v)] && Fits(SymbolOp(k, cs[k], v))
    ensures Stops(cs, k, v) ==> Order(cs, k, v) == |k| && Learn(cs, k, |k|, v) == Touch(cs, k, v)
    ensures !Stops(cs, k, v) ==>
              && k != [] && Chained(cs, k[1..]) && Child(k, v) !in cs
              && AllFit(EscapeOps(cs[k]))
              && Ops(cs, k, v) == EscapeOps(cs[k]) + Ops(cs, k[1..], v)
              && Order(cs, k, v) == Order(cs, k[1..], v) < |k|
    ensures k != [] && Stops(cs, k, v) ==> Child(k, v) in cs
  {
    hide Touch;
    OpsFit(k, cs[k], v);
    if !Stops(cs, k, v) {
      OrderBound(cs, k[1..], v);
      assert cs[k].counts[v] == 0;
    }
  }

  lemma {:induction false} OrderBound(cs: Contexts, k: Key, v: byte)
    requires Linked(cs) && Chained(cs, k)
    ensures Order(cs, k, v) <= |k|
    decreases |k|
  {
    if !Stops(cs, k, v) { OrderBound(cs, k[1..], v); }
  }

  lemma LearnStep(cs: Contexts, k: Key, v: byte)
    requires Linked(cs) && Chained(cs, k) && !Stops(cs, k, v)
    ensures var after := Touch(cs, k, v);
            && Linked(after) && Chained(after, k[1..])
            && Ops(after, k[1..], v) == Ops(cs, k[1..], v)
            && Order(after, k[1..], v) == Order(cs, k, v)
            && Learn(after, k[1..], Order(after, k[1..], v), v) == Learn(cs, k, Order(cs, k, v), v)
  {
    hide Touch, Good;
    OpsStep(cs, k, v);
    TouchStops(cs, k, v, k[1..], Order(cs, k[1..], v));
  }


  lemma EmitOne(r: Range, op: Op)
    requires Ready(r) && Fits(op)
    ensures Sound(Narrow(r, op))
    ensures Emit(r, [op]).0 == Normalize(Narrow(r, op)).0 && Emit(r, [op]).1 == Normalize(Narrow(r, op)).1
  {
    hide Normalize, Narrow;
    NarrowSound(r, op);
    var next := Normalize(Narrow(r, op)).1;
    assert [op][1..] == [];
    assert Emit(next, []) == ([], next);
    assert Emit(r, [op]).0 == Normalize(Narrow(r, op)).0 + [];
  }

  /** The encoder stands before context k, with bytes written and interval r; the rest of the work
      is what coding the byte from here would be. */
  ghost predicate Coding(m: Model, v: byte, start: Range, cs: Contexts, k: Key, bytes: seq<byte>, r: Range)
    requires Valid(m) && Chained(m.contexts, m.predicted)
  {
    && Linked(cs) && Chained(cs, k) && Ready(start) && Ready(r)
    && Emit(start, Ops(m.contexts, m.predicted, v)).0 == bytes + Emit(r, Ops(cs, k, v)).0
    && Emit(start, Ops(m.contexts, m.predicted, v)).1 == Emit(r, Ops(cs, k, v)).1
    && Learn(cs, k, Order(cs, k, v), v) == Learn(m.contexts, m.predicted, Order(m.contexts, m.predicted, v), v)
  }

  lemma CodingStops(m: Model, v: byte, start: Range, cs: Contexts, k: Key, bytes: seq<byte>, r: Range)
    requires Valid(m) && Chained(m.contexts, m.predicted) && Coding(m, v, start, cs, k, bytes, r) && Stops(cs, k, v)
    ensures var op := SymbolOp(k, cs[k], v);
            && Fits(op) && op.total > 0 && Sound(Narrow(r, op))
            && var (more, next) := Normalize(Narrow(r, op));
               && Emit(start, Ops(m.contexts, m.predicted, v)) == (bytes + more, next)
    ensures Touch(cs, k, v) == Learn(m.contexts, m.predicted, Order(m.contexts, m.predicted, v), v)
  {
    hide Emit, Normalize, Narrow, Ops, Learn, Touch, Order;
    OpsStep(cs, k, v);
    EmitOne(r, SymbolOp(k, cs[k], v));
  }

  lemma CodingEscapes(m: Model, v: byte, start: Range, cs: Contexts, k: Key, bytes: seq<byte>, r: Range)
    requires Valid(m) && Chained(m.contexts, m.predicted) && Coding(m, v, start, cs, k, bytes, r) && !Stops(cs, k, v)
    ensures AllFit(EscapeOps(cs[k])) && k != []
    ensures var (more, next) := Emit(r, EscapeOps(cs[k]));
            && Coding(m, v, start, Touch(cs, k, v), k[1..], bytes + more, next)
            && |bytes| + |more| <= |Emit(start, Ops(m.contexts, m.predicted, v)).0|
  {
    hide Emit, Ops, Learn, Touch, Order, Linked, EscapeOps;
    OpsStep(cs, k, v);
    LearnStep(cs, k, v);
    EmitConcat(r, EscapeOps(cs[k]), Ops(cs, k[1..], v));
    var (more, next) := Emit(r, EscapeOps(cs[k]));
    Appended(bytes, more, Emit(next, Ops(cs, k[1..], v)).0);
  }

  ghost function Pending(link: int): set<int> {
    if link < 0 then {} else {link}
  }

  lemma RaisedTotals(cs: Contexts, k: Key, v: byte)
    requires Codable(cs, k)
    ensures var raised := CountRaised(cs, k, v);
            k in raised && raised[k].escapes == cs[k].escapes && raised[k].total == cs[k].total
    ensures cs[k].counts[v] > 0 <==> Child(k, v) in cs
    ensures k in cs && |cs[k].counts| == 256
  {
    ChildInjective(k, v, k, v);
  }

  /** Counts a byte in a context and links its node to the node of the longer context before. */
  method CountAndLink(arena: Arena, subcontext: nat, value: byte, update: byte, minimum: uint16, link: int,
                      ghost cs: Contexts, ghost k: Key)
    returns (symbol: nat, under: uint16, count: uint16)
    requires Codable(cs, k) && arena.Holds(cs, Pending(link)) && link < |arena.keys|
    requires subcontext < |arena.keys| < SYMBOLS && arena.keys[subcontext] == k
    requires update == Delta(k) && minimum == Minimum(k)
    requires 0 <= link ==> arena.keys[link] != [] && arena.keys[link][1..] == Child(k, value)
    modifies arena, arena.symbols
    ensures under == Under(k, cs[k], value) && count == cs[k].counts[value] + minimum
    ensures old(arena.keys) <= arena.keys && |arena.keys| <= |old(arena.keys)| + 1
    ensures symbol < |arena.keys| && arena.keys[symbol] == Child(k, value)
    ensures arena.Holds(CountRaised(cs, k, value), if k == [] || Child(k, value) in cs then {} else {symbol as int})
  {
    hide *;
    ghost var pending := Pending(link);
    ghost var before := arena.keys;
    arena.HoldsFacts(cs, pending);
    RaisedTotals(cs, k, value);
    symbol, under, count := arena.ContextEncode(subcontext, value, update, minimum, cs, pending);
    PendingShrinks(link, symbol, before, arena.keys, k, value);
    if 0 <= link {
      arena.SetParent(link, symbol, CountRaised(cs, k, value), if Child(k, value) in cs then pending else pending + {symbol});
    }
    if k == [] && Child(k, value) !in cs {
      arena.RootParent(CountRaised(cs, k, value), symbol, value);
    }
  }

  lemma PendingShrinks(link: int, symbol: int, before: seq<Key>, keys: seq<Key>, k: Key, v: byte)
    requires link < |before| && symbol < |keys| && before <= keys
    requires 0 <= link ==> before[link] != [] && before[link][1..] == Child(k, v)
    requires 0 <= symbol && keys[symbol] == Child(k, v)
    ensures 0 <= link ==> link != symbol && keys[link] != [] && keys[symbol] == keys[link][1..]
    ensures Pending(link) - {link} == {}
    ensures 0 <= link ==> Pending(link) + {symbol} - {link} == {symbol}
    ensures link < 0 ==> Pending(link) == {} && Pending(link) + {symbol} == {symbol}
  {
  }

  lemma CodesFrom(m: Model, v: byte, start: Range)
    requires Valid(m) && Chained(m.contexts, m.predicted) && Ready(start)
    ensures Coding(m, v, start, m.contexts, m.predicted, [], start)
    ensures |m.contexts| + |m.predicted| < SYMBOLS
  {
    var e := Emit(start, Ops(m.contexts, m.predicted, v));
    assert [] + e.0 == e.0;
  }

  lemma CodingFacts(m: Model, v: byte, start: Range, cs: Contexts, k: Key, bytes: seq<byte>, r: Range)
    requires Valid(m) && Chained(m.contexts, m.predicted) && Coding(m, v, start, cs, k, bytes, r)
    ensures Ready(r) && Linked(cs) && Chained(cs, k) && k in cs && Good(k, cs[k]) && Codable(cs, k)
    ensures |cs[k].counts| == 256
    ensures cs[k].counts[v] > 0 <==> Child(k, v) in cs
    ensures SymbolOp(k, cs[k], v) == Op(cs[k].escapes + Under(k, cs[k], v), cs[k].counts[v] + Minimum(k), cs[k].total)
    ensures Stops(cs, k, v) <==> k == [] || cs[k].counts[v] > 0
    ensures k == [] ==> Minimum(k) == 1 && Delta(k) == ROOT_DELTA
    ensures k != [] ==> Minimum(k) == 0 && Delta(k) == DELTA && Child(k, v)[1..] == Child(k[1..], v)
    ensures Child(k, v) != [] && Child(k, v) != k
  {
    hide Emit, Ops, Learn, Order, Sum, Under, Good, Codable, Linked, Valid, Ready;
    LinkedCodable(cs, k);
    CodableFacts(cs, k, v);
    ChildInjective(k, v, k, v);
  }

  lemma EscapeEmits(r: Range, t: Context)
    requires Ready(r) && AllFit(EscapeOps(t))
    ensures !(0 < t.escapes < t.total) ==> Emit(r, EscapeOps(t)) == ([], r)
    ensures 0 < t.escapes < t.total ==>
              var op := Op(0, t.escapes, t.total);
              && Fits(op) && op.total > 0 && Sound(Narrow(r, op))
              && Emit(r, EscapeOps(t)).0 == Normalize(Narrow(r, op)).0 && Emit(r, EscapeOps(t)).1 == Normalize(Narrow(r, op)).1
  {
    hide Normalize, Narrow;
    if 0 < t.escapes < t.total {
      assert EscapeOps(t)[0] == Op(0, t.escapes, t.total);
      EmitOne(r, Op(0, t.escapes, t.total));
    }
  }

  /** Codes a byte in one context, or an escape from it, and lets the context adapt. */
  method CompressIn(arena: Arena, subcontext: nat, value: byte, update: byte, minimum: uint16, link: int,
                    low: uint32, range: uint32, out: array<byte>, pos: nat, limit: nat,
                    ghost m: Model, ghost start: Range, ghost cs: Contexts, ghost k: Key,
                    ghost base: seq<byte>, ghost bytes: seq<byte>)
    returns (ok: bool, stops: bool, symbol: nat, newLow: uint32, newRange: uint32, newPos: nat, ghost newBytes: seq<byte>)
    requires Valid(m) && Chained(m.contexts, m.predicted)
    requires Coding(m, value, start, cs, k, bytes, Range(low, range)) && update == Delta(k) && minimum == Minimum(k)
    requires arena.Holds(cs, Pending(link)) && link < |arena.keys| && |arena.keys| + |k| < SYMBOLS
    requires subcontext < |arena.keys| && arena.keys[subcontext] == k
    requires 0 <= link ==> arena.keys[link] != [] && arena.keys[link][1..] == Child(k, value)
    requires pos <= limit <= out.Length && out[..pos] == base + bytes
    modifies arena, arena.symbols, out
    ensures symbol < |arena.keys| && arena.keys[symbol] == Child(k, value)
    ensures pos <= newPos <= limit && old(arena.keys) <= arena.keys && |arena.keys| <= |old(arena.keys)| + 1
    ensures |newBytes| <= |Emit(start, Ops(m.contexts, m.predicted, value)).0|
    ensures if ok then out[..newPos] == base + newBytes
            else |base| + |Emit(start, Ops(m.contexts, m.predicted, value)).0| > limit
    ensures ok && stops ==>
              && arena.Holds(Learn(m.contexts, m.predicted, Order(m.contexts, m.predicted, value), value), {})
              && Emit(start, Ops(m.contexts, m.predicted, value)) == (newBytes, Range(newLow, newRange))
    ensures ok && !stops ==>
              && k != [] && k in cs && Good(k, cs[k])
              && arena.Holds(Touch(cs, k, value), {symbol as int})
              && Coding(m, value, start, Touch(cs, k, value), k[1..], newBytes, Range(newLow, newRange))
  {
    hide *;
    ghost var r := Range(low, range);
    CodingFacts(m, value, start, cs, k, bytes, r);
    ok, newLow, newRange, newPos, newBytes := true, low, range, pos, bytes;
    var under, count;
    symbol, under, count := CountAndLink(arena, subcontext, value, update, minimum, link, cs, k);
    ghost var raised, pending := CountRaised(cs, k, value), if k == [] || Child(k, value) in cs then {} else {symbol as int};
    RaisedTotals(cs, k, value);
    arena.ContextRead(raised, pending, subcontext);
    var escapes, total := arena.symbols[subcontext].escapes, arena.symbols[subcontext].total;
    stops := count > 0;
    if stops {
      CodingStops(m, value, start, cs, k, bytes, r);
      newBytes := bytes + Normalize(Narrow(r, SymbolOp(k, cs[k], value))).0;
      assert newBytes[|bytes|..] == Normalize(Narrow(r, SymbolOp(k, cs[k], value))).0;
      ok, newLow, newRange, newPos := EncodeRange(low, range, Op(escapes as int + under as int, count, total), out, pos, limit);
    } else {
      CodingEscapes(m, value, start, cs, k, bytes, r);
      EscapeEmits(r, cs[k]);
      assert bytes + [] == bytes;
      if 0 < escapes < total {
        newBytes := bytes + Normalize(Narrow(r, Op(0, escapes, total))).0;
        assert newBytes[|bytes|..] == Normalize(Narrow(r, Op(0, escapes, total))).0;
        ok, newLow, newRange, newPos := EncodeRange(low, range, Op(0, escapes, total), out, pos, limit);
      }
    }
    Appended(base, bytes, newBytes[|bytes|..]);
    if ok {
      arena.ContextAdapt(subcontext, count, update, minimum, value, cs, pending);
    }
  }

  /** Codes one byte in the first context that knows it, or in the root, and lets every context on
      the way adapt. */
  method CompressByte(arena: Arena, value: byte, predicted: nat, low: uint32, range: uint32,
                      out: array<byte>, pos: nat, limit: nat, ghost m: Model)
    returns (ok: bool, newPredicted: nat, newLow: uint32, newRange: uint32, newPos: nat)
    requires Valid(m) && Chained(m.contexts, m.predicted)
    requires arena.Holds(m.contexts, {}) && predicted < |arena.keys| && arena.keys[predicted] == m.predicted
    requires Ready(Range(low, range)) && pos <= limit <= out.Length
    modifies arena, arena.symbols, out
    ensures pos <= newPos <= limit
    ensures var (bytes, last) := Emit(Range(low, range), Ops(m.contexts, m.predicted, value));
            && (!ok ==> pos + |bytes| > limit)
            && (ok ==> out[..newPos] == old(out[..pos]) + bytes && Range(newLow, newRange) == last)
    ensures ok ==>
              && arena.Holds(Learn(m.contexts, m.predicted, Order(m.contexts, m.predicted, value), value), {})
              && newPredicted < |arena.keys| && arena.keys[newPredicted] == Child(m.predicted, value)
  {
    hide *;
    ok, newPredicted, newLow, newRange, newPos := true, 0, low, range, pos;
    var subcontext: nat := predicted;
    var link: int := -1;
    ghost var cs, k, start, base, bytes := m.contexts, m.predicted, Range(low, range), out[..pos], [];
    CodesFrom(m, value, start);
    arena.HoldsFacts(cs, {});
    PendingNone();
    arena.ContextRead(cs, {}, subcontext);
    while subcontext != 0
      invariant subcontext < |arena.keys| && arena.keys[subcontext] == k && (subcontext == 0 <==> k == [])
      invariant pos <= newPos <= limit && out[..newPos] == base + bytes
      invariant Coding(m, value, start, cs, k, bytes, Range(newLow, newRange))
      invariant arena.Holds(cs, Pending(link)) && |arena.keys| + |k| < SYMBOLS
      invariant link < |arena.keys| && newPredicted < |arena.keys|
      invariant 0 <= link ==> arena.keys[link] != [] && arena.keys[link][1..] == Child(k, value)
      invariant if link < 0 then k == m.predicted else arena.keys[newPredicted] == Child(m.predicted, value)
      decreases |k|
    {
      CodingFacts(m, value, start, cs, k, bytes, Range(newLow, newRange));
      var stops, symbol;
      ghost var more;
      ok, stops, symbol, newLow, newRange, newPos, more :=
        CompressIn(arena, subcontext, value, DELTA, 0, link, newLow, newRange, out, newPos, limit, m, start, cs, k, base, bytes);
      bytes := more;
      if link < 0 {
        newPredicted := symbol;
      }
      if !ok || stops {
        return;
      }
      link := symbol;
      cs := Touch(cs, k, value);
      arena.ContextRead(cs, {symbol as int}, subcontext);
      subcontext := arena.symbols[subcontext].parent;
      k := k[1..];
      arena.ContextRead(cs, {symbol as int}, subcontext);
    }
    CodingFacts(m, value, start, cs, k, bytes, Range(newLow, newRange));
    var stops, symbol;
    ghost var more;
    ok, stops, symbol, newLow, newRange, newPos, more :=
      CompressIn(arena, 0, value, ROOT_DELTA, 1, link, newLow, newRange, out, newPos, limit, m, start, cs, k, base, bytes);
    if link < 0 {
      newPredicted := symbol;
    }
  }

  lemma Appended(base: seq<byte>, a: seq<byte>, b: seq<byte>)
    ensures base + a + b == base + (a + b)
  {
  }

  lemma PendingNone()
    ensures Pending(-1) == {}
    ensures forall j :: 0 <= j ==> Pending(j) == {j}
  {
  }

  /** The interval and the stream still to be written while a text is being compressed. */
  ghost predicate Compressing(m: Model, r: Range, text: seq<byte>, written: seq<byte>, whole: seq<byte>) {
    && Valid(m) && Chained(m.contexts, m.predicted) && Ready(r)
    && written + Tail(r, MessageOps(m, text)) == whole
  }

  lemma CompressingStarts(inBuffers: seq<seq<byte>>, text: seq<byte>)
    requires inBuffers != [] && text == Flatten(inBuffers)
    ensures inBuffers[0][0..] + Flatten(inBuffers[1..]) == text
    ensures Compressing(Start(), Range(0, 0xFFFF_FFFF), text, [], Encode(text)) && Start().predicted == []
  {
    StartValid();
    ValidChained(Start());
    assert [] + Encode(text) == Encode(text);
  }

  lemma CompressingStep(m: Model, r: Range, text: seq<byte>, written: seq<byte>, whole: seq<byte>)
    requires Compressing(m, r, text, written, whole) && text != []
    ensures var (bytes, next) := Emit(r, Ops(m.contexts, m.predicted, text[0]));
            && Compressing(Coded(m, text[0]), next, text[1..], written + bytes, whole)
            && |written| + |bytes| <= |whole|
    ensures var learnt := Learn(m.contexts, m.predicted, Order(m.contexts, m.predicted, text[0]), text[0]);
            Coded(m, text[0]) == if |learnt| >= SYMBOLS - ORDER then Start() else Model(learnt, Next(m.predicted, text[0]))
  {
    hide Ops, Learn, Emit, Tail, Linked;
    var v := text[0];
    ValidChained(Coded(m, v));
    TailConcat(r, Ops(m.contexts, m.predicted, v), MessageOps(Coded(m, v), text[1..]));
    var e := Emit(r, Ops(m.contexts, m.predicted, v));
    var rest := Tail(e.1, MessageOps(Coded(m, v), text[1..]));
    assert written + (e.0 + rest) == (written + e.0) + rest;
  }

  lemma CompressingEnds(m: Model, r: Range, written: seq<byte>, whole: seq<byte>)
    requires Compressing(m, r, [], written, whole)
    ensures written + Flush(r.low) == whole
  {
  }

  lemma NextParent(k: Key, v: byte)
    ensures Next(k, v) == if |k| >= 2 then Child(k, v)[1..] else Child(k, v)
    ensures |k| <= 2 ==> |Next(k, v)| == if |k| >= 2 then 2 else |k| + 1
  {
  }

  /** After a byte: the context to predict the next one from. */
  method Advance(arena: Arena, symbol: nat, order: nat, ghost k: Key, ghost v: byte, ghost learnt: Contexts)
    returns (predicted: nat, newOrder: nat, ghost m: Model)
    requires arena.Holds(learnt, {}) && symbol < |arena.keys| && arena.keys[symbol] == Child(k, v)
    requires order == |k| <= 2
    modifies arena, arena.symbols
    ensures m == if |learnt| >= SYMBOLS - ORDER then Start() else Model(learnt, Next(k, v))
    ensures arena.Holds(m.contexts, {}) && predicted < |arena.keys| && arena.keys[predicted] == m.predicted
    ensures newOrder == |m.predicted| <= 2
  {
    arena.HoldsFacts(learnt, {});
    arena.ContextRead(learnt, {}, symbol);
    NextParent(k, v);
    ChildInjective(k, v, k, v);
    hide *;
    m := Model(learnt, Next(k, v));
    predicted, newOrder := symbol, order;
    if order >= 2 {
      predicted := arena.symbols[symbol].parent;
    } else {
      newOrder := order + 1;
    }
    if arena.nextSymbol >= 4096 - 2 {
      m := Start();
      arena.Reset();
      predicted := 0;
      newOrder := 0;
    }
  }

  function Flatten(buffers: seq<seq<byte>>): seq<byte> {
    if buffers == [] then [] else buffers[0] + Flatten(buffers[1..])
  }

  /** Compresses the concatenation of the buffers. Returns the number of bytes written, or 0 when
      they do not fit; a text whose compressed form is empty also yields 0. */
  method Compress(arena: Arena, inBuffers: seq<seq<byte>>, inLimit: nat, out: array<byte>, outLimit: nat)
    returns (n: nat, ghost history: seq<Snapshot>)
    requires arena.symbols.Length == SYMBOLS && outLimit <= out.Length
    requires forall i :: 0 < i < |inBuffers| ==> inBuffers[i] != []
    modifies arena, arena.symbols, out
    ensures inBuffers == [] || inLimit == 0 ==> n == 0
    ensures inBuffers != [] && inLimit > 0 ==>
              var code := Encode(Flatten(inBuffers));
              n == (if |code| <= outLimit then |code| else 0) && (n > 0 ==> out[..n] == code)
    ensures n > 0 ==> Recorded(history, Flatten(inBuffers))
  {
    hide *;
    history := [];
    if |inBuffers| == 0 || inLimit == 0 {
      return 0, [];
    }
    ghost var whole := Encode(Flatten(inBuffers));
    var data, buffers := inBuffers[0], inBuffers[1..];
    var inPos: nat := 0;
    var low: uint32, range: uint32 := 0, 0xFFFF_FFFF;
    var predicted: nat, order: nat := 0, 0;
    var pos: nat := 0;
    ghost var m := Start();
    CompressingStarts(inBuffers, Flatten(inBuffers));
    arena.Reset();
    ghost var done: seq<byte> := [];
    arena.SnapPictures(m.contexts);
    history := [arena.Snap()];
    NothingCoded(arena.Snap(), Flatten(inBuffers));
    while true
      invariant inPos <= |data| && forall i :: 0 <= i < |buffers| ==> buffers[i] != []
      invariant pos <= outLimit
      invariant Compressing(m, Range(low, range), data[inPos..] + Flatten(buffers), out[..pos], whole)
      invariant arena.Holds(m.contexts, {}) && predicted < |arena.keys| && arena.keys[predicted] == m.predicted
      invariant order == |m.predicted| <= 2
      invariant CodedSoFar(history, m, done, data[inPos..] + Flatten(buffers), Flatten(inBuffers))
      decreases |buffers|, |data| - inPos
    {
      if inPos >= |data| {
        if |buffers| == 0 {
          break;
        }
        assert data[inPos..] + Flatten(buffers) == buffers[0][0..] + Flatten(buffers[1..]) by { FlattenStep(data[inPos..], buffers); }
        data, buffers, inPos := buffers[0], buffers[1..], 0;
      }
      ghost var text := data[inPos..] + Flatten(buffers);
      var value := data[inPos];
      inPos := inPos + 1;
      assert text[0] == value && text[1..] == data[inPos..] + Flatten(buffers);
      CompressingFacts(m, Range(low, range), text, out[..pos], whole);
      CompressingStep(m, Range(low, range), text, out[..pos], whole);
      ghost var was, k, learnt := m, m.predicted, Learn(m.contexts, m.predicted, Order(m.contexts, m.predicted, value), value);
      var ok, symbol;
      ok, symbol, low, range, pos := CompressByte(arena, value, predicted, low, range, out, pos, outLimit, m);
      if !ok {
        return 0, history;
      }
      predicted, order, m := Advance(arena, symbol, order, k, value, learnt);
      arena.SnapPictures(m.contexts);
      CodedNext(history, was, done, text, Flatten(inBuffers), arena.Snap());
      history, done := history + [arena.Snap()], done + [value];
    }
    assert data[inPos..] + Flatten(buffers) == [] by { FlattenStep(data[inPos..], buffers); }
    AllCoded(history, m, done, Flatten(inBuffers));
    CompressingFacts(m, Range(low, range), [], out[..pos], whole);
    CompressingEnds(m, Range(low, range), out[..pos], whole);
    var ok;
    ok, pos := FlushRange(low, out, pos, outLimit);
    n := if ok then pos else 0;
  }

  /** The arena is recorded up to here, and what is coded and what is not make up the whole text. */
  ghost predicate CodedSoFar(history: seq<Snapshot>, m: Model, done: seq<byte>, text: seq<byte>, all: seq<byte>) {
    Recorded(history, done) && m == ModelOf(done) && done + text == all
  }

  lemma NothingCoded(p: Snapshot, text: seq<byte>)
    requires Pictures(p, Start().contexts)
    ensures CodedSoFar([p], Start(), [], text, text)
  {
    hide Pictures, Recorded, ModelOf;
    RecordStart(p);
  }

  lemma CodedNext(history: seq<Snapshot>, m: Model, done: seq<byte>, text: seq<byte>, all: seq<byte>, p: Snapshot)
    requires Valid(m) && CodedSoFar(history, m, done, text, all) && text != [] && Pictures(p, Coded(m, text[0]).contexts)
    ensures CodedSoFar(history + [p], Coded(m, text[0]), done + [text[0]], text[1..], all)
  {
    hide Pictures, Recorded, ModelOf, Coded;
    RecordNext(history, done, text[0], p);
    OneOver(done, text);
  }

  lemma OneOver(done: seq<byte>, text: seq<byte>)
    requires text != []
    ensures done + [text[0]] + text[1..] == done + text
  {
  }

  lemma AllCoded(history: seq<Snapshot>, m: Model, done: seq<byte>, all: seq<byte>)
    requires CodedSoFar(history, m, done, [], all)
    ensures Recorded(history, all)
  {
    assert done + [] == done;
  }

  lemma FlattenStep(done: seq<byte>, buffers: seq<seq<byte>>)
    requires done == []
    ensures buffers == [] ==> done + Flatten(buffers) == []
    ensures buffers != [] ==> done + Flatten(buffers) == buffers[0][0..] + Flatten(buffers[1..])
  {
  }

  lemma CompressingFacts(m: Model, r: Range, text: seq<byte>, written: seq<byte>, whole: seq<byte>)
    requires Compressing(m, r, text, written, whole)
    ensures Valid(m) && Chained(m.contexts, m.predicted) && Ready(r) && Linked(m.contexts)
    ensures 0 <= r.low < WORD
  {
  }

  // ---- Decompression

  lemma {:induction false} SuffixTail(k: Key, n: nat)
    requires 0 < n <= |k|
    ensures |Suffix(k, n)| == n && Suffix(k, n - 1) == Suffix(k, n)[1..]
    decreases |k|
  {
    if |k| > n { SuffixTail(k[1..], n); }
  }

  /** The search for the next byte has reached context k, with interval r and stream s. */
  ghost predicate Searching(cs: Contexts, top: Key, start: Range, whole: seq<byte>, k: Key, r: Range, s: seq<byte>) {
    && Linked(cs) && Chained(cs, top) && Chained(cs, k) && Ready(start) && Ready(r)
    && |k| <= |top| && Suffix(top, |k|) == k
    && ReadSymbol(cs, top, start, whole) == ReadSymbol(cs, k, r, s)
  }

  lemma SearchFacts(cs: Contexts, top: Key, start: Range, whole: seq<byte>, k: Key, r: Range, s: seq<byte>)
    requires Searching(cs, top, start, whole, k, r, s)
    ensures Linked(cs) && Chained(cs, k) && Chained(cs, top) && Ready(start) && Ready(r)
    ensures |k| <= |top| && Suffix(top, |k|) == k
    ensures k in cs && |cs[k].counts| == 256 && Good(k, cs[k]) && Codable(cs, k)
    ensures 0 <= cs[k].escapes && 0 <= cs[k].total < BOTTOM
    ensures 0 < cs[k].escapes < cs[k].total ==> Fits(Op(0, cs[k].escapes, cs[k].total))
    ensures 0 < cs[k].total ==> r.range / cs[k].total > 0
    ensures k == [] ==> cs[k].escapes >= 1 && cs[k].total > cs[k].escapes && Minimum(k) == 1 && Delta(k) == ROOT_DELTA
    ensures k != [] ==> Minimum(k) == 0 && Delta(k) == DELTA
  {
    hide ReadSymbol, Sum;
    LinkedCodable(cs, k);
    if 0 < cs[k].total { NarrowSound(r, Op(0, 1, cs[k].total)); }
  }

  lemma SearchSkips(cs: Contexts, top: Key, start: Range, whole: seq<byte>, k: Key, r: Range, s: seq<byte>)
    requires Searching(cs, top, start, whole, k, r, s) && k != [] && (cs[k].escapes <= 0 || cs[k].escapes >= cs[k].total)
    ensures Searching(cs, top, start, whole, k[1..], r, s)
  {
    hide Follow, Slot, Good, Owner;
    SuffixTail(top, |k|);
  }

  lemma SearchEscapes(cs: Contexts, top: Key, start: Range, whole: seq<byte>, k: Key, r: Range, s: seq<byte>)
    requires Searching(cs, top, start, whole, k, r, s) && k != [] && 0 < cs[k].escapes < cs[k].total < BOTTOM
    requires Slot(r, cs[k].total, s) < cs[k].escapes
    ensures var (next, rest) := Follow(r, Op(0, cs[k].escapes, cs[k].total), s);
            Searching(cs, top, start, whole, k[1..], next, rest)
  {
    hide Slot, Good, Owner;
    SuffixTail(top, |k|);
  }

  lemma SearchFinds(cs: Contexts, top: Key, start: Range, whole: seq<byte>, k: Key, r: Range, s: seq<byte>, v: byte)
    requires Searching(cs, top, start, whole, k, r, s) && Good(k, cs[k]) && |cs[k].counts| == 256
    requires k == [] || 0 < cs[k].escapes < cs[k].total
    requires 0 < cs[k].total < BOTTOM
    requires var code := Slot(r, cs[k].total, s) - cs[k].escapes;
             code >= 0 && Under(k, cs[k], v) <= code < Under(k, cs[k], v + 1)
    ensures Fits(SymbolOp(k, cs[k], v)) && (k == [] || Child(k, v) in cs)
    ensures SymbolOp(k, cs[k], v) == Op(cs[k].escapes + Under(k, cs[k], v), cs[k].counts[v] + Minimum(k), cs[k].total)
    ensures var (next, rest) := Follow(r, SymbolOp(k, cs[k], v), s);
            ReadSymbol(cs, top, start, whole) == Symbol(v, |k|, next, rest)
    ensures StopsAt(cs, top, |k|, v)
  {
    hide Slot, Follow, Sum, Under, Good, Fits, Ready, Owner;
    var code := Slot(r, cs[k].total, s) - cs[k].escapes;
    OwnerUnique(k, cs[k], code, v);
    OwnerFits(k, cs[k], v);
    UnderNext(k, cs[k], v);
    SuffixStops(cs, top, k, v);
  }

  lemma {:induction false} SuffixStops(cs: Contexts, top: Key, k: Key, v: byte)
    requires Linked(cs) && Chained(cs, top) && Chained(cs, k) && |k| <= |top| && Suffix(top, |k|) == k
    requires Stops(cs, k, v)
    ensures StopsAt(cs, top, |k|, v)
    decreases |top|
  {
    hide Linked, Good;
    if |top| > |k| { SuffixStops(cs, top[1..], k, v); }
  }

  lemma SearchMisses(cs: Contexts, top: Key, start: Range, whole: seq<byte>, k: Key, r: Range, s: seq<byte>)
    requires Searching(cs, top, start, whole, k, r, s) && |cs[k].counts| == 256
    requires k == [] || 0 < cs[k].escapes < cs[k].total
    requires 0 < cs[k].total < BOTTOM
    ensures var code := Slot(r, cs[k].total, s) - cs[k].escapes;
            && (code >= Under(k, cs[k], 256) ==> ReadSymbol(cs, top, start, whole) == if k == [] then Gap else Corrupt)
            && (k == [] && code < 0 ==> ReadSymbol(cs, top, start, whole) == End)
  {
    hide Slot, Follow, Sum, Under, Good;
  }

  datatype Outcome = Decoded | Ended | Failed

  /** Reads a byte from a context that its slot belongs to, and counts it there. */
  method DecodeIn(arena: Arena, subcontext: nat, slot: uint16, update: byte, minimum: uint16,
                  low: uint32, range: uint32, code: uint32, input: array<byte>, taken: nat,
                  ghost rest: seq<byte>, ghost cs: Contexts, ghost top: Key, ghost start: Range, ghost whole: seq<byte>, ghost k: Key)
    returns (ok: bool, value: byte, symbol: nat,
             newLow: uint32, newRange: uint32, newCode: uint32, newTaken: nat, ghost newRest: seq<byte>)
    requires Searching(cs, top, start, whole, k, Range(low, range), rest) && k in cs
    requires k == [] || 0 < cs[k].escapes < cs[k].total
    requires 0 < cs[k].total < BOTTOM && slot == Slot(Range(low, range), cs[k].total, rest) >= cs[k].escapes
    requires ReadSymbol(cs, top, start, whole) != Gap
    requires arena.Holds(cs, {}) && subcontext < |arena.keys| < SYMBOLS && arena.keys[subcontext] == k
    requires update == Delta(k) && minimum == Minimum(k) && Reads(input[..], taken, code, rest)
    modifies arena, arena.symbols
    ensures !ok ==> ReadSymbol(cs, top, start, whole) == Corrupt
    ensures ok ==>
              && ReadSymbol(cs, top, start, whole) == Symbol(value, |k|, Range(newLow, newRange), newRest)
              && StopsAt(cs, top, |k|, value) && Good(k, cs[k])
              && Reads(input[..], newTaken, newCode, newRest)
              && arena.Holds(Touch(cs, k, value), {})
              && old(arena.keys) <= arena.keys && |arena.keys| <= |old(arena.keys)| + (if k == [] then 1 else 0)
              && symbol < |arena.keys| && arena.keys[symbol] == Child(k, value)
  {
    hide *;
    ghost var r := Range(low, range);
    newLow, newRange, newCode, newTaken, newRest := low, range, code, taken, rest;
    SearchFacts(cs, top, start, whole, k, r, rest);
    SearchMisses(cs, top, start, whole, k, r, rest);
    arena.HoldsFacts(cs, {});
    arena.ContextRead(cs, {}, subcontext);
    var escapes, total := arena.symbols[subcontext].escapes, arena.symbols[subcontext].total;
    var under, count;
    ok, value, symbol, under, count := arena.ContextDecode(subcontext, slot - escapes, update, minimum, cs, {});
    if ok {
      SearchFinds(cs, top, start, whole, k, r, rest, value);
      newLow, newRange, newCode, newTaken, newRest :=
        DecodeRange(low, range, code, Op(escapes as int + under as int, count, total), input, taken, rest);
      if Child(k, value) !in cs {
        NoPending(symbol);
        arena.RootParent(CountRaised(cs, k, value), symbol, value);
      }
      arena.ContextAdapt(subcontext, count, update, minimum, value, cs, {});
    }
  }

  lemma NoPending(symbol: int)
    ensures {} + {symbol} == {symbol}
  {
  }

  /** Finds the context the next byte was coded in, and counts the byte there. */
  method Search(arena: Arena, predicted: nat, low: uint32, range: uint32, code: uint32, input: array<byte>, taken: nat,
                ghost rest: seq<byte>, ghost m: Model)
    returns (outcome: Outcome, subcontext: nat, value: byte, symbol: nat,
             newLow: uint32, newRange: uint32, newCode: uint32, newTaken: nat, ghost newRest: seq<byte>, ghost k: Key)
    requires Searching(m.contexts, m.predicted, Range(low, range), rest, m.predicted, Range(low, range), rest)
    requires arena.Holds(m.contexts, {}) && predicted < |arena.keys| && arena.keys[predicted] == m.predicted
    requires |arena.keys| + |m.predicted| < SYMBOLS && Reads(input[..], taken, code, rest)
    requires ReadSymbol(m.contexts, m.predicted, Range(low, range), rest) != Gap
    modifies arena, arena.symbols
    ensures var reading := ReadSymbol(m.contexts, m.predicted, Range(low, range), rest);
            && (outcome == Ended ==> reading == End)
            && (outcome == Failed ==> reading == Corrupt)
            && (outcome == Decoded ==> reading == Symbol(value, |k|, Range(newLow, newRange), newRest))
    ensures outcome == Decoded ==>
              && Linked(m.contexts) && Chained(m.contexts, m.predicted) && StopsAt(m.contexts, m.predicted, |k|, value)
              && |k| <= |m.predicted| && Suffix(m.predicted, |k|) == k && k in m.contexts && Good(k, m.contexts[k])
              && Reads(input[..], newTaken, newCode, newRest) && Ready(Range(newLow, newRange))
              && arena.Holds(Touch(m.contexts, k, value), {})
              && old(arena.keys) <= arena.keys && |arena.keys| <= |old(arena.keys)| + (if k == [] then 1 else 0)
              && subcontext < |arena.keys| && arena.keys[subcontext] == k
              && symbol < |arena.keys| && arena.keys[symbol] == Child(k, value)
  {
    hide *;
    ghost var cs, start := m.contexts, Range(low, range);
    k := m.predicted;
    outcome, subcontext, value, symbol := Decoded, predicted, 0, 0;
    newLow, newRange, newCode, newTaken, newRest := low, range, code, taken, rest;
    arena.HoldsFacts(cs, {});
    arena.ContextRead(cs, {}, subcontext);
    while subcontext != 0
      invariant subcontext < |arena.keys| && arena.keys[subcontext] == k && (subcontext == 0 <==> k == [])
      invariant Searching(cs, m.predicted, start, rest, k, Range(newLow, newRange), newRest)
      invariant Reads(input[..], newTaken, newCode, newRest)
      invariant arena.Holds(cs, {}) && arena.keys == old(arena.keys) && outcome == Decoded
      decreases |k|
    {
      ghost var r := Range(newLow, newRange);
      arena.ContextRead(cs, {}, subcontext);
      SearchFacts(cs, m.predicted, start, rest, k, r, newRest);
      var escapes, total := arena.symbols[subcontext].escapes, arena.symbols[subcontext].total;
      if escapes <= 0 || escapes >= total {
        SearchSkips(cs, m.predicted, start, rest, k, r, newRest);
      } else {
        ReadsCode(input[..], newTaken, newCode, newRest);
        var slot := ReadSlot(newLow, newRange, newCode, total, newRest);
        if slot >= escapes {
          var ok;
          ok, value, symbol, newLow, newRange, newCode, newTaken, newRest :=
            DecodeIn(arena, subcontext, slot, DELTA, 0, newLow, newRange, newCode, input, newTaken, newRest, cs, m.predicted, start, rest, k);
          outcome := if ok then Decoded else Failed;
          return;
        }
        SearchEscapes(cs, m.predicted, start, rest, k, r, newRest);
        newLow, newRange, newCode, newTaken, newRest := DecodeRange(newLow, newRange, newCode, Op(0, escapes, total), input, newTaken, newRest);
      }
      subcontext := arena.symbols[subcontext].parent;
      k := k[1..];
      arena.ContextRead(cs, {}, subcontext);
    }
    ghost var r := Range(newLow, newRange);
    arena.ContextRead(cs, {}, 0);
    SearchFacts(cs, m.predicted, start, rest, k, r, newRest);
    var escapes, total := arena.symbols[0].escapes, arena.symbols[0].total;
    ReadsCode(input[..], newTaken, newCode, newRest);
    var slot := ReadSlot(newLow, newRange, newCode, total, newRest);
    SearchMisses(cs, m.predicted, start, rest, k, r, newRest);
    if slot < escapes {
      newLow, newRange, newCode, newTaken, newRest := DecodeRange(newLow, newRange, newCode, Op(0, escapes, total), input, newTaken, newRest);
      outcome := Ended;
      return;
    }
    var ok;
    ok, value, symbol, newLow, newRange, newCode, newTaken, newRest :=
      DecodeIn(arena, 0, slot, ROOT_DELTA, 1, newLow, newRange, newCode, input, newTaken, newRest, cs, m.predicted, start, rest, k);
    outcome := if ok then Decoded else Failed;
  }

  /** The contexts longer than the stopping context j are being patched; context k is next. */
  ghost predicate Patching(cs: Contexts, top: Key, j: Key, v: byte, current: Contexts, k: Key) {
    && Linked(cs) && Chained(cs, top) && StopsAt(cs, top, |j|, v)
    && Linked(current) && Chained(current, k) && StopsAt(current, k, |j|, v)
    && |j| <= |k| && Suffix(k, |j|) == j
    && Learn(current, k, |j|, v) == Learn(cs, top, |j|, v)
  }

  lemma {:induction false} SuffixChained(cs: Contexts, k: Key, n: nat)
    requires Chained(cs, k) && n <= |k|
    ensures Suffix(k, n) in cs && |Suffix(k, n)| == n && Chained(cs, Suffix(k, n))
    decreases |k|
  {
    if |k| > n { SuffixChained(cs, k[1..], n); }
  }

  lemma PatchFacts(cs: Contexts, top: Key, j: Key, v: byte, current: Contexts, k: Key)
    requires Patching(cs, top, j, v, current, k)
    ensures j in current && k in current && Good(j, current[j]) && Linked(Touch(current, j, v))
    ensures |j| <= |k| && (k == j <==> |k| == |j|)
    ensures |k| == |j| ==> Touch(current, j, v) == Learn(cs, top, |j|, v)
    ensures |k| != |j| ==> k != [] && k != j && Codable(Touch(current, j, v), k)
    ensures Child(k, v) != [] && Child(k, v) != k && (k != [] ==> Child(k, v)[1..] == Child(k[1..], v))
    ensures k != [] ==> Minimum(k) == 0 && Delta(k) == DELTA
  {
    hide Touch, Good, Sum;
    SuffixChained(current, k, |j|);
    TouchLinked(current, j, v);
    LinkedCodable(Touch(current, j, v), k);
    ChildInjective(k, v, k, v);
  }

  lemma PatchStep(cs: Contexts, top: Key, j: Key, v: byte, current: Contexts, k: Key)
    requires Patching(cs, top, j, v, current, k) && |k| > |j|
    ensures k in current && j in current && Good(k, current[k]) && Good(j, current[j])
    ensures Patching(cs, top, j, v, Touch(current, k, v), k[1..])
    ensures j in Touch(current, k, v) && k in Touch(current, j, v)
    ensures Linked(Touch(current, k, v)) && Linked(Touch(current, j, v))
    ensures Touch(Touch(current, j, v), k, v) == Touch(Touch(current, k, v), j, v)
  {
    hide Touch, Good, Sum;
    SuffixChained(current, k, |j|);
    TouchStops(current, k, v, k[1..], |j|);
    TouchCommutes(current, k, j, v);
  }

  /** Counts the byte in the contexts longer than the one it was read from, and links them. */
  method Patch(arena: Arena, predicted: nat, subcontext: nat, bottom: nat, value: byte,
               ghost cs: Contexts, ghost top: Key, ghost j: Key)
    returns (newPredicted: nat)
    requires Patching(cs, top, j, value, cs, top)
    requires j in cs && Good(j, cs[j]) && arena.Holds(Touch(cs, j, value), {}) && |arena.keys| + |top| <= SYMBOLS + |j|
    requires predicted < |arena.keys| && arena.keys[predicted] == top
    requires subcontext < |arena.keys| && arena.keys[subcontext] == j
    requires bottom < |arena.keys| && arena.keys[bottom] == Child(j, value)
    modifies arena, arena.symbols
    ensures Linked(cs) && Chained(cs, top) && StopsAt(cs, top, |j|, value)
    ensures arena.Holds(Learn(cs, top, |j|, value), {})
    ensures newPredicted < |arena.keys| && arena.keys[newPredicted] == Child(top, value)
  {
    hide *;
    newPredicted := 0;
    var patch: nat, link: int := predicted, -1;
    ghost var current, k := cs, top;
    PatchFacts(cs, top, j, value, current, k);
    arena.SameSlot(Touch(cs, j, value), {}, patch, subcontext);
    PendingNone();
    while patch != subcontext
      invariant patch < |arena.keys| && arena.keys[patch] == k && (patch == subcontext <==> |k| == |j|)
      invariant subcontext < |arena.keys| && arena.keys[subcontext] == j
      invariant bottom < |arena.keys| && arena.keys[bottom] == Child(j, value)
      invariant Patching(cs, top, j, value, current, k)
      invariant j in current && Good(j, current[j]) && arena.Holds(Touch(current, j, value), Pending(link))
      invariant |arena.keys| + |k| <= SYMBOLS + |j|
      invariant -1 <= link < |arena.keys| && newPredicted < |arena.keys|
      invariant 0 <= link ==> arena.keys[link] != [] && arena.keys[link][1..] == Child(k, value)
      invariant if link < 0 then k == top else arena.keys[newPredicted] == Child(top, value)
      decreases |k|
    {
      ghost var touched := Touch(current, j, value);
      PatchFacts(cs, top, j, value, current, k);
      PatchStep(cs, top, j, value, current, k);
      var symbol, under, count := CountAndLink(arena, patch, value, DELTA, 0, link, touched, k);
      if link < 0 {
        newPredicted := symbol;
      }
      link := symbol;
      ghost var pending := if k == [] || Child(k, value) in touched then {} else {symbol as int};
      RaisedTotals(touched, k, value);
      arena.ContextAdapt(patch, count, DELTA, 0, value, touched, pending);
      current := Touch(current, k, value);
      k := k[1..];
      PatchFacts(cs, top, j, value, current, k);
      arena.MorePending(Touch(current, j, value), pending, Pending(link));
      arena.ContextRead(Touch(current, j, value), Pending(link), patch);
      patch := arena.symbols[patch].parent;
      arena.SameSlot(Touch(current, j, value), Pending(link), patch, subcontext);
    }
    PatchFacts(cs, top, j, value, current, k);
    PatchProps(cs, top, j, value, current, k);
    if link < 0 {
      newPredicted := bottom;
    } else {
      PendingShrinks(link, bottom, arena.keys, arena.keys, j, value);
      arena.SetParent(link, bottom, Touch(current, j, value), Pending(link));
    }
  }

  lemma PatchStarts(cs: Contexts, top: Key, j: Key, v: byte)
    requires Linked(cs) && Chained(cs, top) && StopsAt(cs, top, |j|, v) && |j| <= |top| && Suffix(top, |j|) == j
    ensures Patching(cs, top, j, v, cs, top)
  {
  }

  lemma PatchProps(cs: Contexts, top: Key, j: Key, v: byte, current: Contexts, k: Key)
    requires Patching(cs, top, j, v, current, k)
    ensures Linked(cs) && Chained(cs, top) && StopsAt(cs, top, |j|, v)
  {
  }

  // ---- All bytes

  function Prepend(done: seq<byte>, d: Decoded): Decoded {
    if d.Text? then Text(done + d.text) else d
  }

  /** What remains to be decoded, with what is decoded, is the whole. */
  ghost predicate Decompressing(m: Model, r: Range, s: seq<byte>, room: nat, done: seq<byte>, whole: Decoded) {
    && Valid(m) && Chained(m.contexts, m.predicted) && Ready(r)
    && Prepend(done, DecodeFrom(m, r, s, room)) == whole
  }

  lemma DecompressingStarts(s: seq<byte>, room: nat)
    ensures Decompressing(Start(), Range(0, 0xFFFF_FFFF), s, room, [], Decode(s, room)) && Start().predicted == []
  {
    StartValid();
    ValidChained(Start());
    var d := DecodeFrom(Start(), INITIAL, s, room);
    assert d.Text? ==> [] + d.text == d.text;
  }

  lemma DecompressingStep(m: Model, r: Range, s: seq<byte>, room: nat, done: seq<byte>, whole: Decoded)
    requires Decompressing(m, r, s, room, done, whole)
    ensures Searching(m.contexts, m.predicted, r, s, m.predicted, r, s) && |m.contexts| + |m.predicted| < SYMBOLS
    ensures var reading := ReadSymbol(m.contexts, m.predicted, r, s);
            && (reading.End? ==> whole == Text(done))
            && (reading.Corrupt? ==> whole == Unreadable)
            && (reading.Gap? ==> whole == Undefined)
            && (reading.Symbol? && room == 0 ==> whole == Overflow)
            && (reading.Symbol? && room > 0 ==>
                  && StopsAt(m.contexts, m.predicted, reading.order, reading.value)
                  && Decompressing(After(m, reading.order, reading.value), reading.range, reading.rest, room - 1,
                                   done + [reading.value], whole))
  {
    hide ReadSymbol, Learn, Linked;
    SuffixChained(m.contexts, m.predicted, |m.predicted|);
    var reading := ReadSymbol(m.contexts, m.predicted, r, s);
    assert done + [] == done;
    if reading.Symbol? && room > 0 {
      DecodesSymbol(m, r, s, room);
      var after := After(m, reading.order, reading.value);
      ValidChained(after);
      var d := DecodeFrom(after, reading.range, reading.rest, room - 1);
      assert d.Text? ==> done + ([reading.value] + d.text) == done + [reading.value] + d.text;
    }
  }

  lemma AfterFacts(m: Model, n: nat, v: byte)
    requires Valid(m) && Chained(m.contexts, m.predicted) && StopsAt(m.contexts, m.predicted, n, v)
    ensures var learnt := Learn(m.contexts, m.predicted, n, v);
            After(m, n, v) == if |learnt| >= SYMBOLS - ORDER then Start() else Model(learnt, Next(m.predicted, v))
  {
  }

  /** The decoder has the model of what it has decoded, and what it still has to read is the code of the
      rest of the text. */
  ghost predicate Following(m: Model, r: Range, s: seq<byte>, done: seq<byte>, text: seq<byte>) {
    && Valid(m) && Ready(r) && done <= text
    && m == ModelOf(done) && s == Tail(r, MessageOps(m, text[|done|..]))
  }

  lemma FollowingStarts(text: seq<byte>)
    ensures Following(Start(), Range(0, 0xFFFF_FFFF), Encode(text), [], text)
  {
    StartValid();
    assert text[0..] == text;
  }

  /** It reads the next byte of the text in the context it was coded in, so that its model is the
      encoder's again. */
  lemma FollowingStep(m: Model, r: Range, s: seq<byte>, done: seq<byte>, text: seq<byte>)
    requires Following(m, r, s, done, text) && Chained(m.contexts, m.predicted)
    ensures m == ModelOf(done) && |done| <= |text|
    ensures var reading := ReadSymbol(m.contexts, m.predicted, r, s);
            if |done| == |text| then done == text && reading == End
            else
              && reading.Symbol? && reading.value == text[|done|]
              && After(m, reading.order, reading.value) == Coded(m, text[|done|])
              && Following(Coded(m, text[|done|]), reading.range, reading.rest, done + [text[|done|]], text)
  {
    hide ReadSymbol, Learn, Ops, Order, Tail, Coded, ModelOf, After, Linked, Chained, StopsAt;
    if |done| == |text| {
      assert text[|done|..] == [];
      ReadsEnd(m.contexts, m.predicted, r);
    } else {
      var v, later := text[|done|], text[|done| + 1..];
      assert text[|done|..] == [v] + later && (done + [v]) + later == text;
      CodedOps(m, v, later);
      DecoderFollows(m, v, r, MessageOps(Coded(m, v), later));
      ModelNext(done, v);
    }
  }

  lemma CodedOps(m: Model, v: byte, later: seq<byte>)
    requires Valid(m)
    ensures Linked(m.contexts) && Chained(m.contexts, m.predicted)
    ensures MessageOps(m, [v] + later) == Ops(m.contexts, m.predicted, v) + MessageOps(Coded(m, v), later)
  {
    hide Linked, Ops, Coded;
    ValidChained(m);
    assert ([v] + later)[1..] == later;
  }

  /** If the input is the code of sent, and there is room, the decoder follows and its arena is recorded. */
  ghost predicate Traced(input: seq<byte>, room: nat, sent: seq<byte>, history: seq<Snapshot>,
                         m: Model, r: Range, s: seq<byte>, done: seq<byte>)
  {
    input == Encode(sent) && |sent| <= room ==> Recorded(history, done) && Following(m, r, s, done, sent)
  }

  lemma TracedStarts(input: seq<byte>, room: nat, sent: seq<byte>, p: Snapshot)
    requires Pictures(p, Start().contexts)
    ensures Traced(input, room, sent, [p], Start(), Range(0, 0xFFFF_FFFF), input, [])
  {
    hide Pictures, Recorded, Following, Encode;
    RecordStart(p);
    FollowingStarts(sent);
  }

  lemma TracedStep(input: seq<byte>, room: nat, sent: seq<byte>, history: seq<Snapshot>, m: Model, r: Range, s: seq<byte>,
                   done: seq<byte>, p: Snapshot)
    requires Traced(input, room, sent, history, m, r, s, done) && Valid(m) && Chained(m.contexts, m.predicted) && Ready(r)
    requires var reading := ReadSymbol(m.contexts, m.predicted, r, s);
             reading.Symbol? && Pictures(p, After(m, reading.order, reading.value).contexts)
    ensures var reading := ReadSymbol(m.contexts, m.predicted, r, s);
            Traced(input, room, sent, history + [p], After(m, reading.order, reading.value), reading.range, reading.rest,
                   done + [reading.value])
  {
    hide Pictures, Recorded, Following, Encode, ReadSymbol, After, Coded, ModelOf;
    if input == Encode(sent) && |sent| <= room {
      FollowingStep(m, r, s, done, sent);
      RecordNext(history, done, ReadSymbol(m.contexts, m.predicted, r, s).value, p);
    }
  }

  lemma TracedEnds(input: seq<byte>, room: nat, sent: seq<byte>, history: seq<Snapshot>, m: Model, r: Range, s: seq<byte>, done: seq<byte>)
    requires Traced(input, room, sent, history, m, r, s, done) && Valid(m) && Chained(m.contexts, m.predicted) && Ready(r)
    requires !ReadSymbol(m.contexts, m.predicted, r, s).Symbol?
    ensures input == Encode(sent) && |sent| <= room ==> Recorded(history, sent)
  {
    hide Recorded, Following, Encode, ReadSymbol, After, Coded, ModelOf;
    if input == Encode(sent) && |sent| <= room {
      FollowingStep(m, r, s, done, sent);
    }
  }

  lemma TracedFull(input: seq<byte>, room: nat, sent: seq<byte>, history: seq<Snapshot>, m: Model, r: Range, s: seq<byte>, done: seq<byte>)
    requires Traced(input, room, sent, history, m, r, s, done) && Valid(m) && Chained(m.contexts, m.predicted) && Ready(r)
    requires ReadSymbol(m.contexts, m.predicted, r, s).Symbol? && |done| >= room
    ensures !(input == Encode(sent) && |sent| <= room)
  {
    hide Recorded, Following, Encode, ReadSymbol, After, Coded, ModelOf;
    if input == Encode(sent) && |sent| <= room {
      FollowingStep(m, r, s, done, sent);
    }
  }

  lemma DecompressingFacts(m: Model, r: Range, s: seq<byte>, room: nat, done: seq<byte>, whole: Decoded)
    requires Decompressing(m, r, s, room, done, whole)
    ensures Valid(m) && Chained(m.contexts, m.predicted) && Ready(r) && Linked(m.contexts)
  {
  }

  /** Decompresses a stream. Returns the length of the text, or 0 when it does not fit or cannot be
      read; history is what the arena goes through, if the stream is the code of sent. */
  method Decompress(arena: Arena, input: array<byte>, out: array<byte>, outLimit: nat, ghost sent: seq<byte>)
    returns (n: nat, ghost history: seq<Snapshot>)
    requires arena.symbols.Length == SYMBOLS && outLimit <= out.Length && input != out
    requires Decode(input[..], outLimit) != Undefined
    modifies arena, arena.symbols, out
    ensures n <= outLimit
    ensures match Decode(input[..], outLimit)
            case Text(text) => n == |text| && out[..n] == text
            case _ => n == 0
    ensures old(input[..]) == Encode(sent) && |sent| <= outLimit && input.Length > 0 ==> Recorded(history, sent)
  {
    hide *;
    history := [];
    if input.Length <= 0 {
      DecodeNothing(input[..], outLimit);
      return 0, [];
    }
    ghost var whole := Decode(input[..], outLimit);
    ghost var m, rest := Start(), input[..];
    var low: uint32, range: uint32 := 0, 0xFFFF_FFFF;
    var predicted: nat, order: nat := 0, 0;
    var pos: nat := 0;
    DecompressingStarts(rest, outLimit);
    arena.Reset();
    arena.SnapPictures(m.contexts);
    history := [arena.Snap()];
    assert out[..pos] == [];
    TracedStarts(input[..], outLimit, sent, arena.Snap());
    var code, taken := SeedCode(input);
    while true
      invariant pos <= outLimit && input[..] == old(input[..])
      invariant Decompressing(m, Range(low, range), rest, outLimit - pos, out[..pos], whole)
      invariant Reads(input[..], taken, code, rest)
      invariant arena.Holds(m.contexts, {}) && predicted < |arena.keys| && arena.keys[predicted] == m.predicted
      invariant order == |m.predicted| <= 2
      invariant Traced(input[..], outLimit, sent, history, m, Range(low, range), rest, out[..pos])
      decreases outLimit - pos
    {
      ghost var r, done, k := Range(low, range), out[..pos], m.predicted;
      DecompressingFacts(m, r, rest, outLimit - pos, done, whole);
      DecompressingStep(m, r, rest, outLimit - pos, done, whole);
      arena.HoldsFacts(m.contexts, {});
      ghost var reading, was, stream := ReadSymbol(m.contexts, k, r, rest), m, rest;
      var outcome, subcontext, value, symbol;
      ghost var j;
      outcome, subcontext, value, symbol, low, range, code, taken, rest, j :=
        Search(arena, predicted, low, range, code, input, taken, rest, m);
      if outcome != Decoded {
        n := if outcome == Ended then pos else 0;
        TracedEnds(input[..], outLimit, sent, history, was, r, stream, done);
        return;
      }
      PatchStarts(m.contexts, k, j, value);
      symbol := Patch(arena, predicted, subcontext, symbol, value, m.contexts, k, j);
      ghost var learnt := Learn(m.contexts, k, |j|, value);
      if pos >= outLimit {
        TracedFull(input[..], outLimit, sent, history, was, r, stream, done);
        return 0, history;
      }
      out[pos] := value;
      pos := pos + 1;
      assert out[..pos] == done + [value];
      AfterFacts(m, |j|, value);
      predicted, order, m := Advance(arena, symbol, order, k, value, learnt);
      arena.SnapPictures(m.contexts);
      TracedStep(input[..], outLimit, sent, history, was, r, stream, done, arena.Snap());
      history := history + [arena.Snap()];
    }
  }

  lemma DecodeNothing(s: seq<byte>, room: nat)
    requires s == []
    ensures Decode(s, room) == Text([])
  {
    DecodeEncode([], room);
  }
}
