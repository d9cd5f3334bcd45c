/** The order-2 PPM model that compress.c adapts while it codes, in its textbook form: a context is
    keyed by the last bytes seen (at most two), and holds a frequency for every byte. */
module Ppm {
  import opened Words
  import opened Interval

  type Key = seq<byte>

  const SYMBOLS := 4096            // slots in the arena
  const ORDER := 2
  const ESCAPE_DELTA := 5
  const TOTAL_LIMIT := BOTTOM - 0x100

  datatype Context = Context(counts: seq<nat>, escapes: nat, total: nat)

  /** A context nothing was coded in yet. */
  function Fresh(escapes: nat, minimum: nat): (t: Context)
    ensures |t.counts| == 256 && forall v :: 0 <= v < 256 ==> t.counts[v] == 0
    ensures Sum(t.counts, 0, 256) == 0
    ensures t.escapes == escapes && t.total == escapes + 256 * minimum
  {
    var counts := seq(256, _ => 0);
    SumZero(counts, 0, 256);
    Context(counts, escapes, escapes + 256 * minimum)
  }

  /** The root context gives every byte one slot of its own; the others only count what they saw. */
  function Minimum(k: Key): nat { if k == [] then 1 else 0 }

  function Delta(k: Key): nat { if k == [] then 3 else 2 }

  function CountLimit(k: Key): nat { 0xFF - 2 * Delta(k) + Minimum(k) }

  // ---- Frequencies

  function Sum(counts: seq<nat>, lo: nat, hi: nat): nat
    requires hi <= |counts|
    decreases hi
  {
    if hi <= lo then 0 else Sum(counts, lo, hi - 1) + counts[hi - 1]
  }

  lemma SumSplit(counts: seq<nat>, lo: nat, mid: nat, hi: nat)
    requires lo <= mid <= hi <= |counts|
    ensures Sum(counts, lo, hi) == Sum(counts, lo, mid) + Sum(counts, mid, hi)
    decreases hi
  {
    if mid < hi { SumSplit(counts, lo, mid, hi - 1); }
  }

  lemma SumLast(counts: seq<nat>, lo: nat, v: nat)
    requires lo <= v < |counts|
    ensures Sum(counts, lo, v + 1) == Sum(counts, lo, v) + counts[v]
  {
  }

  lemma SumSame(a: seq<nat>, b: seq<nat>, lo: nat, hi: nat)
    requires hi <= |a| && hi <= |b| && forall v :: lo <= v < hi ==> a[v] == b[v]
    ensures Sum(a, lo, hi) == Sum(b, lo, hi)
    decreases hi
  {
    if lo < hi { SumSame(a, b, lo, hi - 1); }
  }

  lemma SumUpdate(counts: seq<nat>, lo: nat, hi: nat, v: nat, n: nat)
    requires lo <= v < hi <= |counts|
    ensures Sum(counts[v := n], lo, hi) == Sum(counts, lo, hi) - counts[v] + n
    decreases hi
  {
    if v < hi - 1 {
      SumUpdate(counts, lo, hi - 1, v, n);
    } else {
      SumSame(counts, counts[v := n], lo, hi - 1);
    }
  }

  lemma SumZero(counts: seq<nat>, lo: nat, hi: nat)
    requires hi <= |counts| && forall v :: lo <= v < hi ==> counts[v] == 0
    ensures Sum(counts, lo, hi) == 0
    decreases hi
  {
    if lo < hi { SumZero(counts, lo, hi - 1); }
  }

  lemma SumCovers(counts: seq<nat>, lo: nat, hi: nat, v: nat)
    requires lo <= v < hi <= |counts|
    ensures counts[v] <= Sum(counts, lo, hi)
  {
    SumSplit(counts, lo, v, hi);
    SumSplit(counts, v, v + 1, hi);
  }

  function Halved(counts: seq<nat>): (h: seq<nat>)
    ensures |h| == |counts| && forall v :: 0 <= v < |h| ==> h[v] == counts[v] - counts[v] / 2
  {
    seq(|counts|, i requires 0 <= i < |counts| => counts[i] - counts[i] / 2)
  }

  lemma SumHalved(counts: seq<nat>, lo: nat, hi: nat)
    requires lo <= hi <= |counts|
    ensures Sum(counts, lo, hi) <= 2 * Sum(Halved(counts), lo, hi) <= Sum(counts, lo, hi) + (hi - lo)
    decreases hi
  {
    if lo < hi { SumHalved(counts, lo, hi - 1); }
  }

  // ---- One context

  function Total(k: Key, t: Context): nat
    requires |t.counts| == 256
  {
    t.escapes + Sum(t.counts, 0, 256) + 256 * Minimum(k)
  }

  /** The slots of byte v, above the escape slots, are [Under(v), Under(v + 1)). */
  function Under(k: Key, t: Context, v: nat): nat
    requires |t.counts| == 256 && v <= 256
  {
    (if k == [] then v else 0) + Sum(t.counts, 0, v)
  }

  lemma UnderNext(k: Key, t: Context, v: byte)
    requires |t.counts| == 256
    ensures Under(k, t, v + 1) == Under(k, t, v) + t.counts[v] + Minimum(k)
    ensures Total(k, t) == t.escapes + Under(k, t, 256)
  {
  }

  lemma UnderMonotone(k: Key, t: Context, v: nat, w: nat)
    requires |t.counts| == 256 && v <= w <= 256
    ensures Under(k, t, v) <= Under(k, t, w)
  {
    SumSplit(t.counts, 0, v, w);
  }

  function SymbolOp(k: Key, t: Context, v: byte): Op
    requires |t.counts| == 256
  {
    Op(t.escapes + Under(k, t, v), t.counts[v] + Minimum(k), t.total)
  }

  /** A context that has seen nothing writes no escape. */
  function EscapeOps(t: Context): seq<Op> {
    if 0 < t.escapes < t.total then [Op(0, t.escapes, t.total)] else []
  }

  function Rescaled(k: Key, t: Context): Context
    requires |t.counts| == 256
  {
    var escapes := t.escapes - t.escapes / 2;
    Context(Halved(t.counts), escapes, Sum(Halved(t.counts), 0, 256) + escapes + 256 * Minimum(k))
  }

  function Counted(k: Key, t: Context, v: byte): Context
    requires |t.counts| == 256
  {
    var escape := if k != [] && t.counts[v] == 0 then ESCAPE_DELTA else 0;
    Context(t.counts[v := t.counts[v] + Delta(k)], t.escapes + escape, t.total + escape + Delta(k))
  }

  predicate NeedsRescale(k: Key, t: Context, v: byte)
    requires |t.counts| == 256
  {
    t.counts[v] + Minimum(k) > CountLimit(k) || Counted(k, t, v).total > TOTAL_LIMIT
  }

  /** The context after it has coded, or escaped from, byte v. */
  function Adapt(k: Key, t: Context, v: byte): Context
    requires |t.counts| == 256
  {
    if NeedsRescale(k, t, v) then Rescaled(k, Counted(k, t, v)) else Counted(k, t, v)
  }

  /** What keeps every 8- and 16-bit field of the arena from overflowing, and every escape and
      every symbol codable. */
  predicate Good(k: Key, t: Context) {
    && |t.counts| == 256
    && (forall v :: 0 <= v < 256 ==> t.counts[v] <= 0xFF - Delta(k))
    && (if k == [] then t.escapes >= 1 else t.escapes == 0 ==> Sum(t.counts, 0, 256) == 0)
    && t.total == Total(k, t) <= TOTAL_LIMIT
  }

  lemma CountedTotals(k: Key, t: Context, v: byte)
    requires Good(k, t)
    ensures var c := Counted(k, t, v);
            && c.total == Total(k, c) <= TOTAL_LIMIT + 7
            && Sum(c.counts, 0, 256) == Sum(t.counts, 0, 256) + Delta(k)
  {
    hide Sum;
    SumUpdate(t.counts, 0, 256, v, t.counts[v] + Delta(k));
  }

  lemma RescaledTotals(k: Key, t: Context)
    requires |t.counts| == 256 && t.total == Total(k, t) <= TOTAL_LIMIT + 7
    ensures Rescaled(k, t).total == Total(k, Rescaled(k, t)) <= TOTAL_LIMIT
    ensures t.escapes > 0 ==> Rescaled(k, t).escapes > 0
  {
    hide Sum;
    SumHalved(t.counts, 0, 256);
  }

  lemma AdaptGood(k: Key, t: Context, v: byte)
    requires Good(k, t)
    ensures Good(k, Adapt(k, t, v))
    ensures forall w :: 0 <= w < 256 ==> (Adapt(k, t, v).counts[w] > 0 <==> w == v || t.counts[w] > 0)
  {
    hide Sum, Total, Rescaled;
    var c := Counted(k, t, v);
    CountedTotals(k, t, v);
    RescaledTotals(k, c);
    SumCovers(t.counts, 0, 256, v);
    assert Rescaled(k, c).counts == Halved(c.counts) by { AdaptedCounts(k, c); }
  }

  lemma AdaptedCounts(k: Key, t: Context)
    requires |t.counts| == 256
    ensures Rescaled(k, t).counts == Halved(t.counts)
  {
  }

  lemma OpsFit(k: Key, t: Context, v: byte)
    requires Good(k, t)
    ensures AllFit(EscapeOps(t))
    ensures k == [] || t.counts[v] > 0 ==> Fits(SymbolOp(k, t, v))
  {
    UnderNext(k, t, v);
    UnderMonotone(k, t, v + 1, 256);
  }

  // ---- All contexts

  type Contexts = map<Key, Context>

  /** The context that follows k when byte v is seen in it. */
  function Child(k: Key, v: byte): Key { k + [v] }

  lemma ChildInjective(k: Key, v: byte, j: Key, w: byte)
    ensures Child(k, v) == Child(j, w) <==> k == j && v == w
    ensures Child(k, v) != k && Child(k, v) != []
  {
    assert Child(k, v)[..|Child(k, v)| - 1] == k && Child(k, v)[|Child(k, v)| - 1] == v;
    assert Child(j, w)[..|Child(j, w)| - 1] == j && Child(j, w)[|Child(j, w)| - 1] == w;
  }

  /** A byte has been counted in context k exactly when the longer context Child(k, v) exists. */
  ghost predicate Linked(cs: Contexts) {
    && [] in cs
    && (forall k :: k in cs ==> Good(k, cs[k]))
    && (forall k, v: byte :: k in cs ==> (cs[k].counts[v] > 0 <==> Child(k, v) in cs))
    && (forall k, v: byte :: Child(k, v) in cs ==> k in cs)
  }

  /** Dropping the first byte of a context gives a context, unless it gives the one exception. */
  ghost predicate SuffixClosedBut(keys: set<Key>, exception: Key) {
    forall k {:trigger k[1..]} :: k in keys && k != [] ==> k[1..] in keys || k[1..] == exception
  }

  ghost predicate SuffixClosed(keys: set<Key>) {
    forall k {:trigger k[1..]} :: k in keys && k != [] ==> k[1..] in keys
  }

  /** Every suffix of k is a context. */
  predicate Chained(cs: Contexts, k: Key) {
    k in cs && (k != [] ==> Chained(cs, k[1..]))
  }

  lemma ChainedSuffixes(cs: Contexts, k: Key)
    requires SuffixClosed(cs.Keys) && k in cs
    ensures Chained(cs, k)
  {
  }

  /** Byte v is coded in the first context, from the longest down, that knows it; else in the root. */
  predicate Stops(cs: Contexts, k: Key, v: byte)
    requires k in cs && Good(k, cs[k])
  {
    k == [] || cs[k].counts[v] > 0
  }

  /** The length of that context. */
  ghost function Order(cs: Contexts, k: Key, v: byte): (n: nat)
    requires Linked(cs) && Chained(cs, k)
    ensures StopsAt(cs, k, n, v)
    decreases |k|
  {
    if Stops(cs, k, v) then |k| else Order(cs, k[1..], v)
  }

  /** The suffix of k of length n can code byte v. */
  ghost predicate StopsAt(cs: Contexts, k: Key, n: nat, v: byte)
    requires Linked(cs) && Chained(cs, k)
    decreases |k|
  {
    if |k| <= n then |k| == n && Stops(cs, k, v) else StopsAt(cs, k[1..], n, v)
  }

  ghost function Ops(cs: Contexts, k: Key, v: byte): (ops: seq<Op>)
    requires Linked(cs) && Chained(cs, k)
    ensures AllFit(ops)
    decreases |k|
  {
    OpsFit(k, cs[k], v);
    if Stops(cs, k, v) then [SymbolOp(k, cs[k], v)]
    else EscapeOps(cs[k]) + Ops(cs, k[1..], v)
  }

  function Touch(cs: Contexts, k: Key, v: byte): Contexts
    requires k in cs && Good(k, cs[k])
  {
    Replace(cs, k, v, Adapt(k, cs[k], v))
  }

  lemma TouchLinked(cs: Contexts, k: Key, v: byte)
    requires Linked(cs) && k in cs
    ensures Linked(Touch(cs, k, v))
    ensures Touch(cs, k, v).Keys == cs.Keys + {Child(k, v)}
  {
    AdaptGood(k, cs[k], v);
    ReplaceLinked(cs, k, v, Adapt(k, cs[k], v));
  }

  function Replace(cs: Contexts, k: Key, v: byte, t: Context): Contexts {
    if Child(k, v) in cs then cs[k := t] else cs[k := t][Child(k, v) := Fresh(0, 0)]
  }

  lemma FreshGood(k: Key)
    requires k != []
    ensures Good(k, Fresh(0, 0))
  {
    hide Fresh, Sum;
  }

  lemma ReplaceLinked(cs: Contexts, k: Key, v: byte, t: Context)
    requires Linked(cs) && k in cs && Good(k, t)
    requires forall w: byte :: t.counts[w] > 0 <==> w == v || cs[k].counts[w] > 0
    ensures Linked(Replace(cs, k, v, t))
    ensures Replace(cs, k, v, t).Keys == cs.Keys + {Child(k, v)}
  {
    hide Sum, Total;
    var after := Replace(cs, k, v, t);
    ChildInjective(k, v, k, v);
    FreshGood(Child(k, v));
    forall j | j in after
      ensures Good(j, after[j])
    {
      hide Good;
    }
    forall j, w: byte | j in after
      ensures after[j].counts[w] > 0 <==> Child(j, w) in after
    {
      ChildInjective(k, v, j, w);
    }
    forall j, w: byte | Child(j, w) in after
      ensures j in after
    {
      ChildInjective(k, v, j, w);
    }
  }

  lemma TouchChained(cs: Contexts, k: Key, v: byte, other: Key)
    requires Linked(cs) && k in cs && Chained(cs, other)
    ensures Chained(Touch(cs, k, v), other)
  {
  }

  lemma TouchElsewhere(cs: Contexts, k: Key, v: byte, other: Key)
    requires Linked(cs) && k in cs && other in cs && |other| < |k|
    ensures other in Touch(cs, k, v) && Touch(cs, k, v)[other] == cs[other]
  {
  }

  lemma {:induction false} TouchStops(cs: Contexts, k: Key, v: byte, other: Key, n: nat)
    requires Linked(cs) && k in cs && Chained(cs, other) && |other| < |k|
    ensures Linked(Touch(cs, k, v)) && Chained(Touch(cs, k, v), other)
    ensures StopsAt(Touch(cs, k, v), other, n, v) == StopsAt(cs, other, n, v)
    ensures Ops(Touch(cs, k, v), other, v) == Ops(cs, other, v)
    ensures Order(Touch(cs, k, v), other, v) == Order(cs, other, v)
    decreases |other|
  {
    hide Good, Touch;
    TouchLinked(cs, k, v);
    TouchChained(cs, k, v, other);
    TouchElsewhere(cs, k, v, other);
    if other != [] {
      TouchStops(cs, k, v, other[1..], n);
    }
  }

  /** Every context from k down to its suffix of length n adapts. */
  ghost function Learn(cs: Contexts, k: Key, n: nat, v: byte): (cs': Contexts)
    requires Linked(cs) && Chained(cs, k) && StopsAt(cs, k, n, v)
    ensures Linked(cs')
    decreases |k|
  {
    TouchLinked(cs, k, v);
    if |k| <= n then Touch(cs, k, v)
    else
      TouchStops(cs, k, v, k[1..], n);
      Learn(Touch(cs, k, v), k[1..], n, v)
  }

  lemma {:induction false} LearnCloses(cs: Contexts, k: Key, n: nat, v: byte)
    requires Linked(cs) && Chained(cs, k) && StopsAt(cs, k, n, v) && SuffixClosedBut(cs.Keys, Child(k, v))
    ensures SuffixClosed(Learn(cs, k, n, v).Keys) && Child(k, v) in Learn(cs, k, n, v)
    ensures cs.Keys <= Learn(cs, k, n, v).Keys
    ensures |Learn(cs, k, n, v)| <= |cs| + |k| + 1
    decreases |k|
  {
    TouchLinked(cs, k, v);
    TouchGrows(cs, k, v);
    TouchCloses(cs.Keys, k, v);
    if |k| > n {
      TouchStops(cs, k, v, k[1..], n);
      LearnCloses(Touch(cs, k, v), k[1..], n, v);
    } else {
      assert cs[k].counts[v] > 0 <==> Child(k, v) in cs;
    }
  }

  lemma TouchCloses(keys: set<Key>, k: Key, v: byte)
    requires SuffixClosedBut(keys, Child(k, v)) && k in keys && [] in keys
    ensures k == [] || Child(k, v) in keys ==> SuffixClosed(keys + {Child(k, v)})
    ensures k != [] ==> SuffixClosedBut(keys + {Child(k, v)}, Child(k[1..], v))
  {
    if k == [] {
      assert Child(k, v)[1..] == [];
    } else {
      assert Child(k, v)[1..] == Child(k[1..], v);
    }
    if Child(k, v) in keys {
      assert keys + {Child(k, v)} == keys;
    }
  }

  lemma TouchGrows(cs: Contexts, k: Key, v: byte)
    requires Linked(cs) && k in cs
    ensures |Touch(cs, k, v)| <= |cs| + 1
  {
    TouchLinked(cs, k, v);
    assert |Touch(cs, k, v).Keys| <= |cs.Keys + {Child(k, v)}|;
  }

  /** The suffix of k of length n. */
  function Suffix(k: Key, n: nat): Key
    decreases |k|
  {
    if |k| <= n then k else Suffix(k[1..], n)
  }

  /** Adapting two different contexts can be done in either order. */
  lemma TouchCommutes(cs: Contexts, k: Key, j: Key, v: byte)
    requires Linked(cs) && k in cs && j in cs && |j| < |k|
    ensures Linked(Touch(cs, j, v)) && Linked(Touch(cs, k, v)) && k in Touch(cs, j, v) && j in Touch(cs, k, v)
    ensures Touch(Touch(cs, j, v), k, v) == Touch(Touch(cs, k, v), j, v)
  {
    hide Adapt, Fresh, Sum;
    TouchLinked(cs, j, v);
    TouchLinked(cs, k, v);
    TouchOnly(cs, j, v, k);
    TouchOnly(cs, k, v, j);
    ReplaceCommutes(cs, k, Adapt(k, cs[k], v), j, Adapt(j, cs[j], v), v);
  }

  lemma TouchOnly(cs: Contexts, k: Key, v: byte, other: Key)
    requires Linked(cs) && k in cs && other in cs && other != k
    ensures other in Touch(cs, k, v) && Touch(cs, k, v)[other] == cs[other] && Good(other, cs[other])
  {
    hide Good, Adapt, Fresh;
  }

  lemma ReplaceCommutes(cs: Contexts, k: Key, t: Context, j: Key, u: Context, v: byte)
    requires k in cs && j in cs && k != j
    ensures Replace(Replace(cs, k, v, t), j, v, u) == Replace(Replace(cs, j, v, u), k, v, t)
  {
    hide Fresh;
    ChildInjective(k, v, j, v);
    ChildInjective(j, v, k, v);
  }

  // ---- The model, byte by byte

  /** predicted is the context of the bytes seen last. */
  datatype Model = Model(contexts: Contexts, predicted: Key)

  function Start(): Model {
    Model(map[[] := Fresh(1, 1)], [])
  }

  ghost predicate Valid(m: Model) {
    && Linked(m.contexts) && SuffixClosed(m.contexts.Keys)
    && m.predicted in m.contexts && |m.predicted| <= ORDER
    && |m.contexts| < SYMBOLS - ORDER
  }

  lemma StartValid()
    ensures Valid(Start())
  {
    hide Fresh, Sum;
  }

  function Next(k: Key, v: byte): Key {
    if |k| >= ORDER then Child(k, v)[1..] else Child(k, v)
  }

  lemma ValidChained(m: Model)
    requires Valid(m)
    ensures Chained(m.contexts, m.predicted)
  {
    ChainedSuffixes(m.contexts, m.predicted);
  }

  /** The model after byte v was coded in its context of length n. When the arena is nearly full
      everything is forgotten. */
  ghost function After(m: Model, n: nat, v: byte): (m': Model)
    requires Valid(m) && Chained(m.contexts, m.predicted) && StopsAt(m.contexts, m.predicted, n, v)
    ensures Valid(m')
  {
    LearnPredicts(m, n, v);
    StartValid();
    var contexts := Learn(m.contexts, m.predicted, n, v);
    if |contexts| >= SYMBOLS - ORDER then Start() else Model(contexts, Next(m.predicted, v))
  }

  lemma LearnPredicts(m: Model, n: nat, v: byte)
    requires Valid(m) && Chained(m.contexts, m.predicted) && StopsAt(m.contexts, m.predicted, n, v)
    ensures var contexts := Learn(m.contexts, m.predicted, n, v);
            |contexts| < SYMBOLS - ORDER ==> Valid(Model(contexts, Next(m.predicted, v)))
  {
    hide Linked, Learn, StopsAt;
    LearnCloses(m.contexts, m.predicted, n, v);
  }

  ghost function Coded(m: Model, v: byte): (m': Model)
    requires Valid(m)
    ensures Valid(m')
  {
    ValidChained(m);
    After(m, Order(m.contexts, m.predicted, v), v)
  }

  /** The model after a text was coded. */
  ghost function ModelOf(text: seq<byte>): (m: Model)
    ensures Valid(m)
  {
    StartValid();
    if text == [] then Start() else Coded(ModelOf(text[..|text| - 1]), text[|text| - 1])
  }

  lemma ModelNext(text: seq<byte>, v: byte)
    ensures ModelOf(text + [v]) == Coded(ModelOf(text), v)
  {
    assert (text + [v])[..|text|] == text;
  }

  ghost function MessageOps(m: Model, text: seq<byte>): (ops: seq<Op>)
    requires Valid(m)
    ensures AllFit(ops)
    decreases |text|
  {
    if text == [] then [] else
      ValidChained(m);
      Ops(m.contexts, m.predicted, text[0]) + MessageOps(Coded(m, text[0]), text[1..])
  }

  /** The compressed form of a text. */
  ghost function Encode(text: seq<byte>): seq<byte> {
    StartValid();
    Tail(INITIAL, MessageOps(Start(), text))
  }
}
