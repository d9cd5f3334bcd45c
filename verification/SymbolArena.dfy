/** The symbol arena of compress.c and the operations its encoder and decoder share. The arena
    refines the contexts of the PPM model: slot j holds the context keys[j]. */
module SymbolArena {
  import opened Words
  import opened Sets
  import opened Interval
  import opened Ppm
  import opened SymbolTree
  import opened RoundTrip

  ghost predicate ContextAt(ns: seq<Node>, keys: seq<Key>, j: int, k: Key, t: Context)
    requires |keys| <= |ns| && 0 <= j < |ns|
  {
    && |t.counts| == 256
    && ns[j].escapes == t.escapes && ns[j].total == t.total
    && Branch(ns, keys, k, j, ns[j].symbols, 0, 256, t.counts)
  }

  /** The nodes hold exactly the given contexts, one slot for each. */
  ghost predicate Represents(ns: seq<Node>, keys: seq<Key>, cs: Contexts) {
    && 0 < |keys| <= |ns| == SYMBOLS && keys[0] == []
    && |cs| == |keys| && Distinct(keys)
    && (forall j :: 0 <= j < |keys| ==> keys[j] in cs && ContextAt(ns, keys, j, keys[j], cs[keys[j]]))
  }

  /** The parent of every node that is not pending is the context without the first byte. */
  ghost predicate Parented(ns: seq<Node>, keys: seq<Key>, pending: set<int>) {
    && |keys| <= |ns|
    && forall j :: 0 < j < |keys| && j !in pending ==>
         keys[j] != [] && ns[j].parent < |keys| && keys[ns[j].parent] == keys[j][1..]
  }

  predicate SameContext(n: Node, m: Node) {
    n.symbols == m.symbols && n.escapes == m.escapes && n.total == m.total && n.parent == m.parent
  }

  /** Only the tree of the context at slot c has changed, and perhaps the link to it. */
  ghost predicate OnlyTreeChanged(ns: seq<Node>, ms: seq<Node>, keys: seq<Key>, c: int) {
    && 0 <= c < |keys| <= |ns| == |ms|
    && (forall j :: 0 <= j < |keys| && !Owns(keys, j, keys[c], 0, 256) ==> SameSymbol(ns[j], ms[j]))
    && (forall j :: 0 <= j < |keys| ==>
          if j == c then SameContext(ns[j].(symbols := 0), ms[j].(symbols := 0)) else SameContext(ns[j], ms[j]))
  }

  lemma ContextKept(ns: seq<Node>, ms: seq<Node>, keys: seq<Key>, more: seq<Key>, c: int, j: int, t: Context)
    requires OnlyTreeChanged(ns, ms, keys, c) && Distinct(keys)
    requires |keys| <= |more| <= |ms| && more[..|keys|] == keys
    requires 0 <= j < |keys| && j != c && ContextAt(ns, keys, j, keys[j], t)
    ensures ContextAt(ms, more, j, keys[j], t)
  {
    assert keys[j] != keys[c];
    assert Agree(ns, ms, keys, more, keys[j], 0, 256);
    BranchFrame(ns, ms, keys, more, keys[j], j, ns[j].symbols, 0, 256, t.counts, t.counts);
  }

  lemma CountsReplaced(ns: seq<Node>, ms: seq<Node>, keys: seq<Key>, cs: Contexts, c: int, counts: seq<nat>)
    requires Represents(ns, keys, cs) && |counts| == 256
    requires OnlyTreeChanged(ns, ms, keys, c)
    requires Branch(ms, keys, keys[c], c, ms[c].symbols, 0, 256, counts)
    ensures Represents(ms, keys, cs[keys[c] := cs[keys[c]].(counts := counts)])
  {
    hide Branch;
    var k := keys[c];
    var after := cs[k := cs[k].(counts := counts)];
    assert keys[..|keys|] == keys;
    assert ContextAt(ns, keys, c, k, cs[k]) && SameContext(ns[c].(symbols := 0), ms[c].(symbols := 0));
    forall j | 0 <= j < |keys|
      ensures ContextAt(ms, keys, j, keys[j], after[keys[j]])
    {
      if j != c {
        ContextKept(ns, ms, keys, keys, c, j, cs[keys[j]]);
      }
    }
  }

  lemma CountsGrown(ns: seq<Node>, ms: seq<Node>, keys: seq<Key>, cs: Contexts, c: int, v: byte, counts: seq<nat>)
    requires Represents(ns, keys, cs) && |counts| == 256 && |keys| < |ns|
    requires OnlyTreeChanged(ns, ms, keys, c)
    requires Child(keys[c], v) !in cs
    requires Branch(ms, keys + [Child(keys[c], v)], keys[c], c, ms[c].symbols, 0, 256, counts)
    requires SameContext(ms[|keys|], NewNode(0, 0))
    ensures Represents(ms, keys + [Child(keys[c], v)],
                       cs[keys[c] := cs[keys[c]].(counts := counts)][Child(keys[c], v) := Fresh(0, 0)])
  {
    hide Branch, Fresh, Sum;
    var k, child := keys[c], Child(keys[c], v);
    ChildInjective(k, v, k, v);
    var after := cs[k := cs[k].(counts := counts)][child := Fresh(0, 0)];
    var more := keys + [child];
    assert more[..|keys|] == keys;
    assert ContextAt(ns, keys, c, k, cs[k]) && SameContext(ns[c].(symbols := 0), ms[c].(symbols := 0));
    forall j | 0 <= j < |more|
      ensures ContextAt(ms, more, j, more[j], after[more[j]])
    {
      if j == |keys| {
        FreshAt(ms, more, child, j);
      } else if j != c {
        ContextKept(ns, ms, keys, more, c, j, cs[keys[j]]);
      }
    }
  }

  lemma FreshAt(ns: seq<Node>, keys: seq<Key>, k: Key, j: int)
    requires |keys| <= |ns| && 0 <= j < |ns|
    requires SameContext(ns[j], NewNode(0, 0))
    ensures ContextAt(ns, keys, j, k, Fresh(0, 0))
  {
    hide Fresh;
  }

  /** Trees look at no field that a context's own totals or parent are kept in. */
  lemma FieldsReplaced(ns: seq<Node>, ms: seq<Node>, keys: seq<Key>, cs: Contexts, after: Contexts)
    requires Represents(ns, keys, cs) && |ns| == |ms| && cs.Keys == after.Keys
    requires forall j :: 0 <= j < |keys| ==> SameSymbol(ns[j], ms[j]) && ns[j].symbols == ms[j].symbols
    requires forall j :: 0 <= j < |keys| ==>
               && after[keys[j]].counts == cs[keys[j]].counts
               && ms[j].escapes == after[keys[j]].escapes && ms[j].total == after[keys[j]].total
    ensures Represents(ms, keys, after)
  {
    hide Branch;
    assert |cs| == |cs.Keys| == |after.Keys| == |after|;
    assert keys[..|keys|] == keys;
    forall j | 0 <= j < |keys|
      ensures ContextAt(ms, keys, j, keys[j], after[keys[j]])
    {
      var k, t := keys[j], cs[keys[j]];
      assert ContextAt(ns, keys, j, k, t);
      assert Agree(ns, ms, keys, keys, k, 0, 256);
      BranchFrame(ns, ms, keys, keys, k, j, ns[j].symbols, 0, 256, t.counts, t.counts);
    }
  }

  lemma ParentsKept(ns: seq<Node>, ms: seq<Node>, keys: seq<Key>, pending: set<int>)
    requires Parented(ns, keys, pending) && |ns| == |ms|
    requires forall j :: 0 <= j < |keys| ==> ms[j].parent == ns[j].parent
    ensures Parented(ms, keys, pending)
  {
  }

  lemma ParentsGrown(ns: seq<Node>, ms: seq<Node>, keys: seq<Key>, key: Key, pending: set<int>)
    requires Parented(ns, keys, pending) && |keys| < |ns| == |ms|
    requires forall j :: 0 <= j < |keys| ==> ms[j].parent == ns[j].parent
    ensures Parented(ms, keys + [key], pending + {|keys|})
  {
  }

  lemma SymbolChanged(ns: seq<Node>, ms: seq<Node>, keys: seq<Key>, c: int, j: int, n: Node, v: byte)
    requires OnlyTreeChanged(ns, ms, keys, c) && 0 <= j < |keys|
    requires keys[j] == Child(keys[c], v) && SameContext(n, ms[j])
    ensures OnlyTreeChanged(ns, ms[j := n], keys, c)
  {
    ChildInjective(keys[c], v, keys[c], v);
    OwnsChild(keys, j, keys[c], v, 0, 256);
  }

  lemma SlotFilled(ns: seq<Node>, ms: seq<Node>, keys: seq<Key>, c: int, n: Node)
    requires OnlyTreeChanged(ns, ms, keys, c) && |keys| < |ms|
    ensures OnlyTreeChanged(ns, ms[|keys| := n], keys, c)
  {
  }

  /** The contexts after byte v has been counted in the tree of context k, but not yet in its totals. */
  ghost function CountRaised(cs: Contexts, k: Key, v: byte): Contexts
    requires k in cs && |cs[k].counts| == 256
  {
    Replace(cs, k, v, cs[k].(counts := Raised(cs[k].counts, v, Delta(k))))
  }

  /** What the operations on context k may rely on. */
  ghost predicate Codable(cs: Contexts, k: Key) {
    && k in cs && Good(k, cs[k])
    && forall v: byte :: cs[k].counts[v] > 0 <==> Child(k, v) in cs
  }

  lemma RaisedFits(k: Key, t: Context, v: byte)
    requires Good(k, t)
    ensures Sum(Raised(t.counts, v, Delta(k)), 0, 256) < WORD16
    ensures t.counts[v] + Delta(k) <= 0xFF
    ensures Under(k, t, v) + t.counts[v] + Minimum(k) <= Under(k, t, 256) < WORD16
  {
    hide Sum;
    CountedTotals(k, t, v);
    UnderNext(k, t, v);
    UnderMonotone(k, t, v + 1, 256);
  }

  lemma FinishKnown(ns: seq<Node>, ms: seq<Node>, keys: seq<Key>, cs: Contexts, c: int, v: byte, pending: set<int>)
    requires Represents(ns, keys, cs) && Parented(ns, keys, pending)
    requires OnlyTreeChanged(ns, ms, keys, c) && Codable(cs, keys[c]) && Child(keys[c], v) in cs
    requires ms[c].symbols != 0
    requires Tree(ms, keys, keys[c], c + ms[c].symbols, 0, 256, Raised(cs[keys[c]].counts, v, Delta(keys[c])))
    ensures Represents(ms, keys, CountRaised(cs, keys[c], v)) && Parented(ms, keys, pending)
  {
    hide Tree, Represents;
    CountsReplaced(ns, ms, keys, cs, c, Raised(cs[keys[c]].counts, v, Delta(keys[c])));
    ParentsKept(ns, ms, keys, pending) by { ParentFields(ns, ms, keys, c); }
  }

  lemma ParentFields(ns: seq<Node>, ms: seq<Node>, keys: seq<Key>, c: int)
    requires OnlyTreeChanged(ns, ms, keys, c)
    ensures forall j :: 0 <= j < |keys| ==> ms[j].parent == ns[j].parent
  {
    assert SameContext(ns[c].(symbols := 0), ms[c].(symbols := 0));
  }

  lemma FinishGrown(ns: seq<Node>, ms: seq<Node>, keys: seq<Key>, cs: Contexts, c: int, v: byte, pending: set<int>)
    requires Represents(ns, keys, cs) && Parented(ns, keys, pending) && |keys| < |ns|
    requires OnlyTreeChanged(ns, ms, keys, c) && Codable(cs, keys[c]) && Child(keys[c], v) !in cs
    requires ms[c].symbols != 0 && SameContext(ms[|keys|], NewNode(0, 0))
    requires Tree(ms, keys + [Child(keys[c], v)], keys[c], c + ms[c].symbols, 0, 256,
                  Raised(cs[keys[c]].counts, v, Delta(keys[c])))
    ensures Represents(ms, keys + [Child(keys[c], v)], CountRaised(cs, keys[c], v))
    ensures Parented(ms, keys + [Child(keys[c], v)], pending + {|keys|})
  {
    hide Tree, Represents;
    CountsGrown(ns, ms, keys, cs, c, v, Raised(cs[keys[c]].counts, v, Delta(keys[c])));
    ParentsGrown(ns, ms, keys, Child(keys[c], v), pending) by { ParentFields(ns, ms, keys, c); }
  }

  lemma RootGrown(ns: seq<Node>, keys: seq<Key>, cs: Contexts, c: int, v: byte)
    requires Represents(ns, keys, cs) && 0 <= c < |keys| < |ns| && Codable(cs, keys[c]) && ns[c].symbols == 0
    ensures var update := Delta(keys[c]);
            var more := keys + [Child(keys[c], v)];
            var ms := ns[c := ns[c].(symbols := |keys| - c)][|keys| := NewNode(v, update)];
            && OnlyTreeChanged(ns, ms, keys, c) && Child(keys[c], v) !in cs
            && Tree(ms, more, keys[c], |keys|, 0, 256, Raised(cs[keys[c]].counts, v, update))
    ensures Sum(cs[keys[c]].counts, 0, v) == 0 == cs[keys[c]].counts[v]
  {
    hide Sum;
    var k, counts := keys[c], cs[keys[c]].counts;
    assert ContextAt(ns, keys, c, k, cs[k]);
    var ms := ns[c := ns[c].(symbols := |keys| - c)][|keys| := NewNode(v, Delta(k))];
    SumZero(counts, 0, v);
    SingleTree(ms, keys + [Child(k, v)], k, |keys|, 0, 256, Raised(counts, v, Delta(k)), v);
  }

  /** A walk that ends in a new node. */
  lemma Grown(ns: seq<Node>, ms: seq<Node>, last: seq<Node>, keys: seq<Key>, cs: Contexts, c: int, j: int, v: byte, pending: set<int>)
    requires Represents(ns, keys, cs) && Parented(ns, keys, pending) && |keys| < |ns|
    requires OnlyTreeChanged(ns, ms, keys, c) && Codable(cs, keys[c])
    requires ms[c].symbols != 0 && 0 <= j < |keys| && keys[j] == Child(keys[c], ms[j].value)
    requires cs[keys[c]].counts[v] == 0
    requires |last| == |ms| && last == ms[j := last[j]][|keys| := NewNode(v, Delta(keys[c]))] && SameContext(ms[j], last[j])
    requires Tree(last, keys + [Child(keys[c], v)], keys[c], c + ms[c].symbols, 0, 256,
                  Raised(cs[keys[c]].counts, v, Delta(keys[c])))
    ensures Represents(last, keys + [Child(keys[c], v)], CountRaised(cs, keys[c], v))
    ensures Parented(last, keys + [Child(keys[c], v)], pending + {|keys|})
  {
    hide Tree, Represents, Good, Parented;
    ChildInjective(keys[c], ms[j].value, keys[c], v);
    SymbolChanged(ns, ms, keys, c, j, last[j], ms[j].value);
    SlotFilled(ns, ms[j := last[j]], keys, c, NewNode(v, Delta(keys[c])));
    assert last[c].symbols == ms[c].symbols;
    FinishGrown(ns, last, keys, cs, c, v, pending);
  }

  lemma StartWalk(ns: seq<Node>, keys: seq<Key>, cs: Contexts, c: int, v: byte)
    requires Represents(ns, keys, cs) && 0 <= c < |keys| && Codable(cs, keys[c]) && ns[c].symbols != 0
    ensures Walking(ns, keys, keys[c], c + ns[c].symbols, cs[keys[c]].counts, v, Delta(keys[c]), c + ns[c].symbols, 0, 256)
    ensures OnlyTreeChanged(ns, ns, keys, c) && Sum(cs[keys[c]].counts, 0, 0) == 0
  {
    RaisedFits(keys[c], cs[keys[c]], v);
    assert ContextAt(ns, keys, c, keys[c], cs[keys[c]]);
  }

  lemma UnderSoFar(k: Key, t: Context, v: byte, w: nat)
    requires Good(k, t) && w <= v
    ensures v * Minimum(k) == if k == [] then v else 0
    ensures v * Minimum(k) + Sum(t.counts, 0, w) <= Under(k, t, v) < WORD16
  {
    hide Sum;
    RaisedFits(k, t, v);
    SumSplit(t.counts, 0, w, v);
  }

  lemma CodableFacts(cs: Contexts, k: Key, v: byte)
    requires Codable(cs, k)
    ensures k in cs && |cs[k].counts| == 256 && Good(k, cs[k])
    ensures cs[k].counts[v] > 0 <==> Child(k, v) in cs
    ensures v * Minimum(k) == if k == [] then v else 0
    ensures v * Minimum(k) < WORD16
    ensures cs[k].counts[v] + Delta(k) <= 0xFF
    ensures Under(k, cs[k], v) == v * Minimum(k) + Sum(cs[k].counts, 0, v)
    ensures Sum(cs[k].counts, 0, 0) == 0
  {
    RaisedFits(k, cs[k], v);
  }

  lemma EmptyUnder(ns: seq<Node>, keys: seq<Key>, cs: Contexts, c: int, v: byte)
    requires Represents(ns, keys, cs) && 0 <= c < |keys| && Codable(cs, keys[c]) && ns[c].symbols == 0
    ensures cs[keys[c]].counts[v] == 0 == Sum(cs[keys[c]].counts, 0, v)
    ensures Under(keys[c], cs[keys[c]], 0) == 0
    ensures Under(keys[c], cs[keys[c]], 256) == 256 * Minimum(keys[c])
  {
    var t := cs[keys[c]];
    assert ContextAt(ns, keys, c, keys[c], t);
    SumZero(t.counts, 0, v);
    SumZero(t.counts, 0, 256);
  }

  // The arithmetic of the search, over multiples of minimum.

  function SlotsEnd(under: nat, n: Node, minimum: nat): int {
    under + n.under + (n.value + 1) * minimum
  }

  function ValueAbove(w: int, distance: nat, minimum: nat): int
    requires minimum > 0
  {
    w + 1 + distance / minimum
  }

  function ValueBelow(w: int, distance: nat, minimum: nat): int
    requires minimum > 0
  {
    w - 1 - distance / minimum
  }

  function SlotStart(code: int, distance: nat, minimum: nat): int
    requires minimum > 0
  {
    code - distance % minimum
  }

  /** In a gap between seen bytes every byte owns one slot. */
  lemma UnseenOwner(t: Context, code: nat, owner: byte, w: int)
    requires |t.counts| == 256 && t.counts[owner] == 0 && 0 <= w <= 256
    requires Under([], t, owner) <= code < Under([], t, owner + 1)
    requires Sum(t.counts, 0, owner) == Sum(t.counts, 0, w)
    ensures var start := Under([], t, w);
            && (w <= owner ==>
                  && ValueAbove(w - 1, code - start, 1) == owner
                  && SlotStart(code, code - start, 1) == Under([], t, owner))
            && (owner < w ==>
                  && ValueBelow(w, start - code - 1, 1) == owner
                  && SlotStart(code, start - code - 1, 1) == Under([], t, owner))
  {
    hide Sum;
    SumLast(t.counts, 0, owner);
  }

  /** Comparing a slot with the slots of a node's byte is comparing its owner with that byte. */
  lemma SlotOrder(k: Key, t: Context, code: nat, owner: byte, known: bool, n: Node, under: nat)
    requires Good(k, t)
    requires if known then Under(k, t, owner) <= code < Under(k, t, owner + 1) else code >= Under(k, t, 256)
    requires Sum(t.counts, 0, n.value + 1) == under + n.under && n.count == t.counts[n.value]
    ensures var after, width := SlotsEnd(under, n, Minimum(k)), n.count + Minimum(k);
            && under + n.under <= after == Under(k, t, n.value + 1) < WORD16
            && after - width == Under(k, t, n.value)
            && (code >= after <==> !known || owner > n.value)
            && (code < after - width <==> known && owner < n.value)
  {
    hide Sum;
    var w: int := n.value;
    RaisedFits(k, t, w);
    UnderNext(k, t, w);
    UnderMonotone(k, t, w + 1, 256);
    if known {
      if owner > w { UnderMonotone(k, t, w + 1, owner); } else { UnderMonotone(k, t, owner + 1, w + 1); }
      if owner < w { UnderMonotone(k, t, owner + 1, w); } else { UnderMonotone(k, t, w, owner); }
    }
  }

  predicate SameShape(n: Node, m: Node) {
    n == m.(count := n.count, under := n.under)
  }

  /** Only the counts of the tree over [lo, hi) of context k have changed. */
  ghost predicate OnlyRescaled(ns: seq<Node>, ms: seq<Node>, keys: seq<Key>, k: Key, lo: int, hi: int) {
    && |ns| == |ms|
    && forall j :: 0 <= j < |ns| ==> SameShape(ns[j], ms[j]) && (!Owns(keys, j, k, lo, hi) ==> ns[j] == ms[j])
  }

  lemma OnlyRescaledRefl(ns: seq<Node>, keys: seq<Key>, k: Key, lo: int, hi: int)
    ensures OnlyRescaled(ns, ns, keys, k, lo, hi)
  {
  }

  lemma HoleHere(ns: seq<Node>, keys: seq<Key>, k: Key, j: int, lo: int, hi: int, counts: seq<nat>)
    requires |keys| <= |ns| && |counts| == 256
    ensures Hole(ns, keys, k, j, lo, hi, counts, j, lo, hi)
  {
  }

  lemma TreeFacts(ns: seq<Node>, keys: seq<Key>, k: Key, j: int, lo: int, hi: int, counts: seq<nat>)
    requires |keys| <= |ns| && |counts| == 256 && Tree(ns, keys, k, j, lo, hi, counts)
    ensures 0 < j < |keys| && 0 <= lo <= ns[j].value < hi <= 256 && keys[j] == Child(k, ns[j].value)
    ensures ns[j].count == counts[ns[j].value] > 0
    ensures ns[j].left != 0 ==> Tree(ns, keys, k, j + ns[j].left, lo, ns[j].value, counts)
    ensures ns[j].left == 0 ==> Sum(Halved(counts), lo, ns[j].value) == 0
    ensures ns[j].left == 0 ==> Branch(ns, keys, k, j, 0, lo, ns[j].value, Halved(counts))
  {
    assert Branch(ns, keys, k, j, ns[j].left, lo, ns[j].value, counts);
    if ns[j].left == 0 { SumZero(Halved(counts), lo, ns[j].value); }
  }

  lemma RescaledOutside(ns: seq<Node>, ms: seq<Node>, keys: seq<Key>, k: Key, lo: int, hi: int, j: int)
    requires OnlyRescaled(ns, ms, keys, k, lo, hi) && 0 <= j < |keys| <= |ns|
    requires keys[j] == Child(k, ns[j].value) && !(lo <= ns[j].value < hi)
    ensures ms[j] == ns[j] && |ms| == |ns|
  {
    OwnsChild(keys, j, k, ns[j].value, lo, hi);
  }

  lemma HalvedBounds(counts: seq<nat>, lo: int, v: int)
    requires |counts| == 256 && 0 <= lo <= v < 256
    requires Sum(Halved(counts), 0, 256) < WORD16
    ensures Sum(Halved(counts), lo, v) + counts[v] - counts[v] / 2 == Sum(Halved(counts), lo, v + 1)
    ensures Sum(Halved(counts), 0, lo) + Sum(Halved(counts), lo, v + 1) < WORD16
  {
    hide Sum;
    var halved := Halved(counts);
    SumLast(halved, lo, v);
    SumSplit(halved, 0, lo, v + 1);
    SumSplit(halved, 0, v + 1, 256);
  }

  lemma RescaleOne(ns: seq<Node>, ms: seq<Node>, keys: seq<Key>, k: Key, lo: int, hi: int, j: int, n: Node)
    requires OnlyRescaled(ns, ms, keys, k, lo, hi) && 0 <= j < |keys| <= |ns|
    requires keys[j] == Child(k, ms[j].value) && lo <= ms[j].value < hi && SameShape(ms[j], n)
    ensures OnlyRescaled(ns, ms[j := n], keys, k, lo, hi)
  {
    OwnsChild(keys, j, k, ms[j].value, lo, hi);
  }

  lemma RescaledTwice(ns: seq<Node>, ms: seq<Node>, ps: seq<Node>, keys: seq<Key>, k: Key, lo: int, hi: int, lo1: int, hi1: int)
    requires OnlyRescaled(ns, ms, keys, k, lo, hi) && OnlyRescaled(ms, ps, keys, k, lo1, hi1)
    requires lo <= lo1 && hi1 <= hi
    ensures OnlyRescaled(ns, ps, keys, k, lo, hi)
  {
  }

  lemma RescaledAgrees(ns: seq<Node>, ms: seq<Node>, keys: seq<Key>, k: Key, lo: int, hi: int, a: int, b: int)
    requires OnlyRescaled(ns, ms, keys, k, lo, hi) && |keys| <= |ns| && (b <= lo || hi <= a)
    ensures Agree(ns, ms, keys, keys, k, a, b)
  {
    assert keys[..|keys|] == keys;
  }

  lemma SpineStep(ns: seq<Node>, ms: seq<Node>, keys: seq<Key>, k: Key, root: int, rlo: int, counts: seq<nat>,
                  j: int, lo: int, hi: int)
    requires |keys| <= |ns| && |counts| == 256
    requires Hole(ns, keys, k, root, rlo, hi, Halved(counts), j, lo, hi)
    requires Tree(ns, keys, k, j, lo, hi, counts)
    requires OnlyRescaled(ns, ms, keys, k, lo, ns[j].value + 1)
    requires ms[j].count == ns[j].count - ns[j].count / 2
    requires ms[j].under == Sum(Halved(counts), lo, ns[j].value + 1)
    requires Branch(ms, keys, k, j, ns[j].left, lo, ns[j].value, Halved(counts))
    ensures ns[j].right == 0 ==> Tree(ms, keys, k, root, rlo, hi, Halved(counts))
    ensures ns[j].right == 0 ==> Sum(Halved(counts), lo, hi) == ms[j].under
    ensures ns[j].right != 0 ==>
              && ns[j].value + 1 < hi && 0 < j + ns[j].right < |keys|
              && Hole(ms, keys, k, root, rlo, hi, Halved(counts), j + ns[j].right, ns[j].value + 1, hi)
              && Tree(ms, keys, k, j + ns[j].right, ns[j].value + 1, hi, counts)
  {
    hide Sum, Halved, Hole;
    assert SameShape(ns[j], ms[j]);
    RescaledAgrees(ns, ms, keys, k, lo, ns[j].value + 1, rlo, lo);
    RescaledAgrees(ns, ms, keys, k, lo, ns[j].value + 1, ns[j].value + 1, hi);
    RescaleNode(ns, ms, keys, k, root, rlo, counts, j, lo, hi);
  }

  lemma ContextFacts(ns: seq<Node>, keys: seq<Key>, cs: Contexts, c: int)
    requires Represents(ns, keys, cs) && 0 <= c < |keys|
    ensures var t := cs[keys[c]];
            && |t.counts| == 256 && ns[c].escapes == t.escapes && ns[c].total == t.total
            && Branch(ns, keys, keys[c], c, ns[c].symbols, 0, 256, t.counts)
            && (ns[c].symbols != 0 ==> Tree(ns, keys, keys[c], c + ns[c].symbols, 0, 256, t.counts))
  {
    assert ContextAt(ns, keys, c, keys[c], cs[keys[c]]);
  }

  lemma RescaledTree(ns: seq<Node>, ms: seq<Node>, keys: seq<Key>, cs: Contexts, c: int, pending: set<int>)
    requires Represents(ns, keys, cs) && Parented(ns, keys, pending) && 0 <= c < |keys|
    requires keys[c] in cs && |cs[keys[c]].counts| == 256
    requires OnlyRescaled(ns, ms, keys, keys[c], 0, 256) && ns[c].symbols != 0
    requires Tree(ms, keys, keys[c], c + ns[c].symbols, 0, 256, Halved(cs[keys[c]].counts))
    ensures Represents(ms, keys, cs[keys[c] := cs[keys[c]].(counts := Halved(cs[keys[c]].counts))])
    ensures Parented(ms, keys, pending) && ms[c] == ns[c].(count := ms[c].count, under := ms[c].under)
  {
    hide Tree, Represents, Halved;
    assert SameShape(ns[c], ms[c]);
    assert OnlyTreeChanged(ns, ms, keys, c) by { hide Parented; RescaledIsTreeChange(ns, ms, keys, c); }
    CountsReplaced(ns, ms, keys, cs, c, Halved(cs[keys[c]].counts));
    ParentsKept(ns, ms, keys, pending);
  }

  lemma RescaledIsTreeChange(ns: seq<Node>, ms: seq<Node>, keys: seq<Key>, c: int)
    requires 0 <= c < |keys| <= |ns| && OnlyRescaled(ns, ms, keys, keys[c], 0, 256)
    ensures OnlyTreeChanged(ns, ms, keys, c)
  {
    forall j | 0 <= j < |keys|
      ensures SameContext(ns[j], ms[j])
    {
      assert SameShape(ns[j], ms[j]);
    }
  }

  lemma UnrescaledTree(ns: seq<Node>, keys: seq<Key>, cs: Contexts, c: int)
    requires Represents(ns, keys, cs) && 0 <= c < |keys| && ns[c].symbols == 0
    ensures |cs[keys[c]].counts| == 256
    ensures Sum(Halved(cs[keys[c]].counts), 0, 256) == 0
    ensures Represents(ns, keys, cs[keys[c] := cs[keys[c]].(counts := Halved(cs[keys[c]].counts))])
  {
    var t := cs[keys[c]];
    ContextFacts(ns, keys, cs, c);
    SumZero(Halved(t.counts), 0, 256);
    assert t.counts == Halved(t.counts);
  }

  lemma TotalsReplaced(ns: seq<Node>, keys: seq<Key>, cs: Contexts, c: int, escapes: uint16, total: uint16, pending: set<int>)
    requires Represents(ns, keys, cs) && Parented(ns, keys, pending) && 0 <= c < |keys|
    ensures keys[c] in cs
    ensures var ms := ns[c := ns[c].(escapes := escapes, total := total)];
            && Represents(ms, keys, cs[keys[c] := cs[keys[c]].(escapes := escapes, total := total)])
            && Parented(ms, keys, pending)
  {
    hide ContextAt, Tree;
    var ms := ns[c := ns[c].(escapes := escapes, total := total)];
    var after := cs[keys[c] := cs[keys[c]].(escapes := escapes, total := total)];
    forall j | 0 <= j < |keys|
      ensures ms[j].escapes == after[keys[j]].escapes && ms[j].total == after[keys[j]].total
    {
      ContextFacts(ns, keys, cs, j);
    }
    FieldsReplaced(ns, ms, keys, cs, after);
    ParentsKept(ns, ms, keys, pending);
  }

  lemma RaisedIsCounted(k: Key, t: Context, v: byte)
    requires Good(k, t)
    ensures Raised(t.counts, v, Delta(k)) == Counted(k, t, v).counts && |Counted(k, t, v).counts| == 256
    ensures k == [] || t.counts[v] > 0 ==> Counted(k, t, v).escapes == t.escapes && Counted(k, t, v).total == t.total + Delta(k)
    ensures k != [] && t.counts[v] == 0 ==>
              Counted(k, t, v).escapes == t.escapes + 5 && Counted(k, t, v).total == t.total + 5 + Delta(k)
    ensures t.escapes <= t.total <= TOTAL_LIMIT
  {
  }

  /** What an arena holds at some moment. */
  datatype Snapshot = Snapshot(nodes: seq<Node>, keys: seq<Key>)

  ghost predicate Pictures(p: Snapshot, cs: Contexts) {
    Represents(p.nodes, p.keys, cs) && Parented(p.nodes, p.keys, {})
  }

  ghost predicate PictureAfter(p: Snapshot, text: seq<byte>) {
    Pictures(p, ModelOf(text).contexts)
  }

  /** One snapshot before the text and one after each of its bytes, each of the model at that place. */
  ghost predicate Recorded(history: seq<Snapshot>, text: seq<byte>) {
    |history| == |text| + 1 && forall i :: 0 <= i <= |text| ==> PictureAfter(history[i], text[..i])
  }

  lemma RecordStart(p: Snapshot)
    requires Pictures(p, Start().contexts)
    ensures Recorded([p], []) && ModelOf([]) == Start()
  {
    hide Pictures;
    var none: seq<byte> := [];
    assert none[..0] == none;
  }

  lemma RecordNext(history: seq<Snapshot>, text: seq<byte>, v: byte, p: Snapshot)
    requires Recorded(history, text) && Pictures(p, Coded(ModelOf(text), v).contexts)
    ensures Recorded(history + [p], text + [v]) && ModelOf(text + [v]) == Coded(ModelOf(text), v)
  {
    hide Pictures, Coded, ModelOf;
    ModelNext(text, v);
    RecordMore(history, text, v, p);
  }

  lemma RecordMore(history: seq<Snapshot>, text: seq<byte>, v: byte, p: Snapshot)
    requires Recorded(history, text) && PictureAfter(p, text + [v])
    ensures Recorded(history + [p], text + [v])
  {
    hide PictureAfter;
    var more := text + [v];
    assert more[..|more|] == more;
    forall i | 0 <= i <= |text| ensures more[..i] == text[..i] {
    }
  }

  class Arena {
    const symbols: array<Node>
    var nextSymbol: nat
    ghost var keys: seq<Key>

    /** The arena represents the contexts; the parents of the pending nodes are still to be set. */
    ghost predicate Holds(cs: Contexts, pending: set<int>)
      reads this, symbols
    {
      && symbols.Length == SYMBOLS && nextSymbol == |keys|
      && Represents(symbols[..], keys, cs)
      && Parented(symbols[..], keys, pending)
    }

    ghost function Snap(): Snapshot
      reads this, symbols
    {
      Snapshot(symbols[..], keys)
    }

    lemma SnapPictures(cs: Contexts)
      requires Holds(cs, {})
      ensures Pictures(Snap(), cs)
    {
      hide Represents, Parented;
    }

    constructor ()
      ensures symbols.Length == SYMBOLS && fresh(symbols)
    {
      symbols := new Node[SYMBOLS](_ => NewNode(0, 0));
      nextSymbol := 0;
      keys := [];
    }

    /** Forgets everything and creates the root context. */
    method Reset()
      requires symbols.Length == SYMBOLS
      modifies this, symbols
      ensures Holds(Start().contexts, {}) && keys == [[]]
    {
      hide Fresh, Sum;
      symbols[0] := NewNode(0, 0).(escapes := 1, total := 1 + 256);
      nextSymbol := 1;
      keys := [[]];
    }

    /** Some symbol gets the next slot. */
    method CreateSymbol(value: byte, count: byte) returns (symbol: nat)
      requires symbols.Length == SYMBOLS && nextSymbol < SYMBOLS
      modifies this`nextSymbol, symbols
      ensures symbol == old(nextSymbol) && nextSymbol == symbol + 1
      ensures symbols[..] == old(symbols[..])[symbol := NewNode(value, count)]
    {
      symbol := nextSymbol;
      nextSymbol := nextSymbol + 1;
      symbols[symbol] := NewNode(value, count);
    }

    /** A walk in progress for byte value in the tree of a context, standing at a node whose subtree
        covers [lo, hi); ns is the arena before the walk. */
    ghost predicate MidWalk(ns: seq<Node>, cs: Contexts, pending: set<int>, context: nat, value: byte, node: nat, lo: int, hi: int)
      reads this, symbols
    {
      && symbols.Length == SYMBOLS == |ns| && context < nextSymbol == |keys| <= SYMBOLS && 0 <= lo <= hi <= 256
      && Represents(ns, keys, cs) && Parented(ns, keys, pending)
      && keys[context] in cs && |cs[keys[context]].counts| == 256 && Codable(cs, keys[context])
      && OnlyTreeChanged(ns, symbols[..], keys, context)
      && symbols[context].symbols != 0
      && Walking(symbols[..], keys, keys[context], context + symbols[context].symbols, cs[keys[context]].counts, value,
                 Delta(keys[context]), node, lo, hi)
    }

    lemma MidWalkFacts(ns: seq<Node>, cs: Contexts, pending: set<int>, context: nat, value: byte, node: nat, lo: int, hi: int)
      requires MidWalk(ns, cs, pending, context, value, node, lo, hi)
      ensures 0 < node < |keys| && lo <= value < hi && lo <= symbols[node].value < hi
    {
      hide Represents, Parented, OnlyTreeChanged, Codable, Walking;
      var k := keys[context];
      WalkFacts(symbols[..], keys, k, context + symbols[context].symbols, cs[k].counts, value, Delta(k), node, lo, hi);
    }

    /** The first symbol of a context. */
    method Plant(context: nat, value: byte, update: byte, ghost cs: Contexts, ghost pending: set<int>) returns (symbol: nat)
      requires Holds(cs, pending) && context < nextSymbol < SYMBOLS && Codable(cs, keys[context])
      requires update == Delta(keys[context]) && symbols[context].symbols == 0
      modifies this, symbols
      ensures var k := old(keys[context]);
              && Sum(cs[k].counts, 0, value) == 0 == cs[k].counts[value] && Child(k, value) !in cs
              && symbol == old(nextSymbol) && keys == old(keys) + [Child(k, value)]
              && Holds(CountRaised(cs, k, value), pending + {symbol}) && symbols[symbol].parent == 0
    {
      hide Represents, Sum, Good, OnlyTreeChanged, Codable, Tree, Parented, CountRaised;
      HoldsFacts(cs, pending);
      ghost var ns, before := symbols[..], keys;
      RootGrown(ns, before, cs, context, value);
      symbol := CreateSymbol(value, update);
      symbols[context] := symbols[context].(symbols := symbol - context);
      keys := keys + [Child(before[context], value)];
      assert symbols[..] == ns[context := ns[context].(symbols := |before| - context)][|before| := NewNode(value, update)];
      FinishGrown(ns, symbols[..], before, cs, context, value, pending);
    }

    lemma MidWalkStarts(cs: Contexts, pending: set<int>, context: nat, value: byte)
      requires Holds(cs, pending) && context < nextSymbol && Codable(cs, keys[context])
      requires symbols[context].symbols != 0
      ensures MidWalk(symbols[..], cs, pending, context, value, context + symbols[context].symbols, 0, 256)
    {
      StartWalk(symbols[..], keys, cs, context, value);
    }

    /** One step of a walk to the left. */
    method StepLeft(context: nat, node: nat, ghost value: byte, update: byte,
                    ghost ns: seq<Node>, ghost cs: Contexts, ghost pending: set<int>, ghost lo: int, ghost hi: int)
      requires MidWalk(ns, cs, pending, context, value, node, lo, hi) && update == Delta(keys[context])
      requires node < symbols.Length && value < symbols[node].value && symbols[node].left != 0
      modifies symbols
      ensures MidWalk(ns, cs, pending, context, value, node + old(symbols[node].left), lo, old(symbols[node].value))
      ensures symbols[context].symbols == old(symbols[context].symbols)
    {
      hide Represents, Sum, Good, OnlyTreeChanged, Codable, Tree, Hole, Parented, Walking, CountRaised, Under;
      ghost var k, ms := keys[context], symbols[..];
      ghost var root := context + symbols[context].symbols;
      var n := symbols[node];
      MidWalkFacts(ns, cs, pending, context, value, node, lo, hi);
      WalkFacts(ms, keys, k, root, cs[k].counts, value, update, node, lo, hi);
      GoLeft(ms, keys, k, root, cs[k].counts, value, update, node, lo, hi);
      ChildInjective(k, n.value, k, value);
      symbols[node] := n.(under := n.under + update);
      SymbolChanged(ns, ms, keys, context, node, symbols[node], n.value);
      assert symbols[..] == ms[node := symbols[node]];
    }

    /** A walk that ends in a new node, to the left or to the right. */
    method Attach(context: nat, node: nat, value: byte, update: byte,
                  ghost ns: seq<Node>, ghost cs: Contexts, ghost pending: set<int>, ghost lo: int, ghost hi: int)
      returns (symbol: nat)
      requires MidWalk(ns, cs, pending, context, value, node, lo, hi) && update == Delta(keys[context])
      requires node < symbols.Length && nextSymbol < SYMBOLS
      requires if value < symbols[node].value then symbols[node].left == 0
               else value > symbols[node].value && symbols[node].right == 0
      modifies this, symbols
      ensures var k := old(keys[context]);
              && Child(k, value) !in cs && symbol == old(nextSymbol) && keys == old(keys) + [Child(k, value)]
              && Holds(CountRaised(cs, k, value), pending + {symbol}) && symbols[symbol].parent == 0
    {
      hide Represents, Sum, Good, OnlyTreeChanged, Codable, Tree, Hole, Parented, Walking, CountRaised, Under;
      ghost var k, before, ms := keys[context], keys, symbols[..];
      ghost var root := context + symbols[context].symbols;
      var n := symbols[node];
      MidWalkFacts(ns, cs, pending, context, value, node, lo, hi);
      WalkFacts(ms, keys, k, root, cs[k].counts, value, update, node, lo, hi);
      CodableFacts(cs, k, value);
      symbol := CreateSymbol(value, update);
      if value < n.value {
        GrowLeft(ms, keys, k, root, cs[k].counts, value, update, node, lo, hi);
        symbols[node] := n.(under := n.under + update, left := symbol - node);
      } else {
        GrowRight(ms, keys, k, root, cs[k].counts, value, update, node, lo, hi);
        symbols[node] := n.(right := symbol - node);
      }
      Grown(ns, ms, symbols[..], before, cs, context, node, value, pending);
      keys := keys + [Child(k, value)];
    }

    /** A walk that ends at the node of the byte. */
    method CountHere(context: nat, node: nat, value: byte, update: byte,
                     ghost ns: seq<Node>, ghost cs: Contexts, ghost pending: set<int>, ghost lo: int, ghost hi: int)
      requires MidWalk(ns, cs, pending, context, value, node, lo, hi) && update == Delta(keys[context])
      requires node < symbols.Length && value == symbols[node].value
      modifies symbols
      ensures var k := keys[context];
              Child(k, value) in cs && keys[node] == Child(k, value) && Holds(CountRaised(cs, k, value), pending)
    {
      hide Represents, Sum, Good, OnlyTreeChanged, Codable, Tree, Hole, Parented, Walking, CountRaised, Under;
      ghost var k, ms := keys[context], symbols[..];
      ghost var root := context + symbols[context].symbols;
      var n := symbols[node];
      MidWalkFacts(ns, cs, pending, context, value, node, lo, hi);
      WalkFacts(ms, keys, k, root, cs[k].counts, value, update, node, lo, hi);
      CodableFacts(cs, k, value);
      Arrive(ms, keys, k, root, cs[k].counts, value, update, node, lo, hi);
      symbols[node] := n.(under := n.under + update, count := n.count + update);
      ChildInjective(k, n.value, k, value);
      SymbolChanged(ns, ms, keys, context, node, symbols[node], n.value);
      assert symbols[..] == ms[node := symbols[node]];
      FinishKnown(ns, symbols[..], keys, cs, context, value, pending);
    }

    /** Looks byte value up in the tree of a context and counts it there, creating its node when it
        is new. */
    method ContextEncode(context: nat, value: byte, update: byte, minimum: uint16, ghost cs: Contexts, ghost pending: set<int>)
      returns (symbol: nat, under: uint16, count: uint16)
      requires Holds(cs, pending) && context < nextSymbol < SYMBOLS
      requires Codable(cs, keys[context])
      requires update == Delta(keys[context]) && minimum == Minimum(keys[context])
      modifies this, symbols
      ensures var k := old(keys[context]);
              && under == Under(k, cs[k], value) && count == cs[k].counts[value] + minimum
              && nextSymbol == |keys| && symbol < |keys| && keys[symbol] == Child(k, value)
              && keys == (if Child(k, value) in cs then old(keys) else old(keys) + [Child(k, value)])
              && symbol < symbols.Length && (Child(k, value) !in cs ==> symbol == old(nextSymbol) && symbols[symbol].parent == 0)
              && Holds(CountRaised(cs, k, value), if Child(k, value) in cs then pending else pending + {symbol})
    {
      hide Represents, Sum, Good, OnlyTreeChanged, Codable, Tree, Hole, Parented, Walking, CountRaised, Under;
      CodableFacts(cs, keys[context], value);
      assert context < symbols.Length by { HoldsFacts(cs, pending); }
      ghost var k, before, ns := keys[context], keys, symbols[..];
      ghost var counts := cs[k].counts;
      under := value * minimum;
      count := minimum;
      if symbols[context].symbols == 0 {
        symbol := Plant(context, value, update, cs, pending);
        return;
      }
      MidWalkStarts(cs, pending, context, value);
      var node: nat := context + symbols[context].symbols;
      ghost var root, lo, hi := node, 0, 256;
      while true
        invariant MidWalk(ns, cs, pending, context, value, node, lo, hi)
        invariant symbols[context].symbols == ns[context].symbols
        invariant keys == before && nextSymbol < SYMBOLS
        invariant under == value * minimum + Sum(counts, 0, lo) && count == minimum
        decreases hi - lo
      {
        ghost var ms := symbols[..];
        MidWalkFacts(ns, cs, pending, context, value, node, lo, hi);
        WalkFacts(ms, keys, k, root, counts, value, update, node, lo, hi);
        var n := symbols[node];
        if value < n.value {
          if n.left != 0 {
            StepLeft(context, node, value, update, ns, cs, pending, lo, hi);
            node, hi := node + n.left, n.value;
            continue;
          }
          GrowLeft(ms, keys, k, root, counts, value, update, node, lo, hi);
          symbol := Attach(context, node, value, update, ns, cs, pending, lo, hi);
        } else if value > n.value {
          UnderSoFar(k, cs[k], value, n.value + 1);
          under := under + n.under;
          if n.right != 0 {
            GoRight(ms, keys, k, root, counts, value, update, node, lo, hi);
            node, lo := node + n.right, n.value + 1;
            continue;
          }
          GrowRight(ms, keys, k, root, counts, value, update, node, lo, hi);
          symbol := Attach(context, node, value, update, ns, cs, pending, lo, hi);
        } else {
          UnderSoFar(k, cs[k], value, value);
          count := count + n.count;
          under := under + n.under - n.count;
          CountHere(context, node, value, update, ns, cs, pending, lo, hi);
          symbol := node;
        }
        return;
      }
    }

    /** Finds the byte that owns slot code of a context and counts it. Without slots for unseen bytes
        the search fails on a slot past the last symbol; with them it creates the missing node. */
    method ContextDecode(context: nat, code: uint16, update: byte, minimum: uint16, ghost cs: Contexts, ghost pending: set<int>)
      returns (ok: bool, value: byte, symbol: nat, under: uint16, count: uint16)
      requires Holds(cs, pending) && context < nextSymbol < SYMBOLS
      requires Codable(cs, keys[context])
      requires update == Delta(keys[context]) && minimum == Minimum(keys[context])
      requires keys[context] == [] ==> code < Under([], cs[[]], 256)
      modifies this, symbols
      ensures var k := old(keys[context]);
              && (ok <==> code < Under(k, cs[k], 256))
              && (ok ==>
                && Under(k, cs[k], value) <= code < Under(k, cs[k], value + 1)
                && under == Under(k, cs[k], value) && count == cs[k].counts[value] + minimum
                && nextSymbol == |keys| && symbol < |keys| && keys[symbol] == Child(k, value)
                && keys == (if Child(k, value) in cs then old(keys) else old(keys) + [Child(k, value)])
                && symbol < symbols.Length && (Child(k, value) !in cs ==> symbol == old(nextSymbol) && symbols[symbol].parent == 0)
                && Holds(CountRaised(cs, k, value), if Child(k, value) in cs then pending else pending + {symbol}))
    {
      hide Represents, Sum, Good, OnlyTreeChanged, Codable, Tree, Hole, Parented, Walking, CountRaised, Under, SlotsEnd, ValueAbove, ValueBelow, SlotStart, Owner;
      HoldsFacts(cs, pending);
      ghost var k, before, ns := keys[context], keys, symbols[..];
      CodableFacts(cs, k, 0);
      ghost var counts := cs[k].counts;
      ghost var known := code < Under(k, cs[k], 256);
      ghost var owner: byte := if known then Owner(k, cs[k], code, 0) else 0xFF;
      CodableFacts(cs, k, owner);
      UnderNext(k, cs[k], owner);
      ok, value, symbol, under, count := true, 0, 0, 0, minimum;
      if symbols[context].symbols == 0 {
        EmptyUnder(ns, keys, cs, context, owner);
        if minimum == 0 {
          ok := false;
          return;
        }
        UnseenOwner(cs[k], code, owner, 0);
        value := ValueAbove(-1, code, minimum);
        under := SlotStart(code, code, minimum);
        assert value == owner && under == Under(k, cs[k], owner);
        symbol := Plant(context, value, update, cs, pending);
        return;
      }
      MidWalkStarts(cs, pending, context, owner);
      var node: nat := context + symbols[context].symbols;
      ghost var root, lo, hi := node, 0, 256;
      while true
        invariant MidWalk(ns, cs, pending, context, owner, node, lo, hi)
        invariant symbols[context].symbols == ns[context].symbols
        invariant keys == before && nextSymbol < SYMBOLS
        invariant under == Sum(counts, 0, lo) && count == minimum && ok
        decreases hi - lo
      {
        ghost var ms := symbols[..];
        MidWalkFacts(ns, cs, pending, context, owner, node, lo, hi);
        WalkFacts(ms, keys, k, root, counts, owner, update, node, lo, hi);
        var n := symbols[node];
        SlotOrder(k, cs[k], code, owner, known, n, under);
        var after := SlotsEnd(under, n, minimum);
        var width := n.count + minimum;
        if code >= after {
          if n.right != 0 {
            under := under + n.under;
            GoRight(ms, keys, k, root, counts, owner, update, node, lo, hi);
            node, lo := node + n.right, n.value + 1;
            continue;
          }
          if known { GrowRight(ms, keys, k, root, counts, owner, update, node, lo, hi); }
          if minimum == 0 {
            ok := false;
            return;
          }
          UnseenOwner(cs[k], code, owner, n.value as int + 1);
          value := ValueAbove(n.value, code - after, minimum);
          under := SlotStart(code, code - after, minimum);
          assert value == owner && under == Under(k, cs[k], owner);
          symbol := Attach(context, node, value, update, ns, cs, pending, lo, hi);
        } else if code < after - width {
          if n.left != 0 {
            StepLeft(context, node, owner, update, ns, cs, pending, lo, hi);
            node, hi := node + n.left, n.value;
            continue;
          }
          // A byte never seen owns the slot, so the context has slots for such bytes.
          GrowLeft(ms, keys, k, root, counts, owner, update, node, lo, hi);
          UnseenOwner(cs[k], code, owner, n.value);
          value := ValueBelow(n.value, after - width - code - 1, minimum);
          under := SlotStart(code, after - width - code - 1, minimum);
          assert value == owner && under == Under(k, cs[k], owner);
          symbol := Attach(context, node, value, update, ns, cs, pending, lo, hi);
        } else {
          value := n.value;
          count := count + n.count;
          under := after - width;
          assert value == owner && under == Under(k, cs[k], owner);
          CountHere(context, node, value, update, ns, cs, pending, lo, hi);
          symbol := node;
        }
        return;
      }
    }

    /** Halves the counts of a subtree: down its right spine in a loop, into its left subtrees by
        recursion. */
    method SymbolRescale(start: nat, ghost k: Key, ghost lo: int, ghost hi: int, ghost counts: seq<nat>) returns (total: uint16)
      requires symbols.Length == SYMBOLS >= |keys| && |counts| == 256
      requires Tree(symbols[..], keys, k, start, lo, hi, counts)
      requires Sum(Halved(counts), 0, 256) < WORD16
      modifies symbols
      ensures Tree(symbols[..], keys, k, start, lo, hi, Halved(counts))
      ensures total == Sum(Halved(counts), lo, hi)
      ensures OnlyRescaled(old(symbols[..]), symbols[..], keys, k, lo, hi)
      decreases hi - lo
    {
      hide Tree, Hole, Sum, Halved, OnlyRescaled;
      ghost var ns, halved := symbols[..], Halved(counts);
      TreeFacts(ns, keys, k, start, lo, hi, counts);
      OnlyRescaledRefl(ns, keys, k, lo, hi);
      HoleHere(ns, keys, k, start, lo, hi, halved);
      SumZero(halved, lo, lo);
      var symbol: nat := start;
      ghost var slo := lo;
      total := 0;
      while true
        invariant symbol < |keys| && 0 <= lo <= slo < hi <= 256
        invariant Hole(symbols[..], keys, k, start, lo, hi, halved, symbol, slo, hi)
        invariant Tree(symbols[..], keys, k, symbol, slo, hi, counts)
        invariant total == Sum(halved, lo, slo)
        invariant OnlyRescaled(ns, symbols[..], keys, k, lo, hi)
        decreases hi - slo
      {
        ghost var ms := symbols[..];
        var n := symbols[symbol];
        TreeFacts(ms, keys, k, symbol, slo, hi, counts);
        var half := n.count - n.count / 2;
        symbols[symbol] := n.(count := half, under := half);
        ghost var started := symbols[..];
        assert started == ms[symbol := symbols[symbol]];
        OnlyRescaledRefl(ms, keys, k, slo, n.value + 1);
        RescaleOne(ms, ms, keys, k, slo, n.value + 1, symbol, symbols[symbol]);
        if n.left != 0 {
          UpdateAgrees(ms, keys, symbol, symbols[symbol], k, slo, n.value);
          TreeFrame(ms, started, keys, keys, k, symbol + n.left, slo, n.value, counts, counts);
          var below := SymbolRescale(symbol + n.left, k, slo, n.value, counts);
          ghost var between := symbols[..];
          RescaledOutside(started, between, keys, k, slo, n.value, symbol);
          RescaledTwice(ms, started, between, keys, k, slo, n.value + 1, slo, n.value);
          HalvedBounds(counts, slo, n.value);
          symbols[symbol] := symbols[symbol].(under := symbols[symbol].under + below);
          assert symbols[..] == between[symbol := symbols[symbol]];
          RescaleOne(ms, between, keys, k, slo, n.value + 1, symbol, symbols[symbol]);
          UpdateAgrees(between, keys, symbol, symbols[symbol], k, slo, n.value);
          TreeFrame(between, symbols[..], keys, keys, k, symbol + n.left, slo, n.value, halved, halved);
        }
        HalvedBounds(counts, slo, n.value);
        HalvedBounds(counts, lo, n.value);
        SumSplit(halved, lo, slo, n.value + 1);
        total := total + symbols[symbol].under;
        RescaledTwice(ns, ms, symbols[..], keys, k, lo, hi, slo, n.value + 1);
        SpineStep(ms, symbols[..], keys, k, start, lo, counts, symbol, slo, hi);
        if n.right == 0 {
          SumSplit(halved, lo, slo, hi);
          return;
        }
        symbol, slo := symbol + n.right, n.value + 1;
      }
    }

    /** Halves a context's counts and escapes and recomputes its total. */
    method ContextRescale(context: nat, minimum: uint16, ghost cs: Contexts, ghost pending: set<int>)
      requires Holds(cs, pending) && context < nextSymbol && minimum == Minimum(keys[context])
      requires keys[context] in cs && |cs[keys[context]].counts| == 256
      requires cs[keys[context]].total == Total(keys[context], cs[keys[context]]) <= TOTAL_LIMIT + 7
      modifies symbols
      ensures Holds(cs[keys[context] := Rescaled(keys[context], cs[keys[context]])], pending)
    {
      hide Represents, Sum, Good, OnlyTreeChanged, Tree, Hole, Parented, Halved, OnlyRescaled;
      ghost var k, t, ns := keys[context], cs[keys[context]], symbols[..];
      HoldsFacts(cs, pending);
      ContextFacts(ns, keys, cs, context);
      SumHalved(t.counts, 0, 256);
      var total: uint16 := 0;
      if symbols[context].symbols != 0 {
        total := SymbolRescale(context + symbols[context].symbols, k, 0, 256, t.counts);
        RescaledTree(ns, symbols[..], keys, cs, context, pending);
      } else {
        UnrescaledTree(ns, keys, cs, context);
      }
      ghost var halfway := symbols[..];
      ghost var middle := cs[k := t.(counts := Halved(t.counts))];
      var escapes := symbols[context].escapes - symbols[context].escapes / 2;
      symbols[context] := symbols[context].(escapes := escapes, total := total + escapes + 256 * minimum);
      TotalsReplaced(halfway, keys, middle, context, symbols[context].escapes, symbols[context].total, pending);
      assert symbols[..] == halfway[context := symbols[context]];
      assert middle[k := middle[k].(escapes := symbols[context].escapes, total := symbols[context].total)]
          == cs[k := Rescaled(k, t)];
    }

    /** What every context does after it has coded, or escaped from, byte v: the escapes and the total
        grow, and are halved with the counts when they have grown too far. */
    method ContextAdapt(context: nat, count: uint16, update: byte, minimum: uint16,
                        ghost v: byte, ghost cs: Contexts, ghost pending: set<int>)
      requires context < |keys| && Codable(cs, keys[context]) && Holds(CountRaised(cs, keys[context], v), pending)
      requires update == Delta(keys[context]) && minimum == Minimum(keys[context])
      requires count == cs[keys[context]].counts[v] + minimum
      modifies symbols
      ensures Holds(Touch(cs, keys[context], v), pending)
    {
      hide Represents, Sum, Parented, Halved, Rescaled, Fresh, Raised;
      ghost var k, raised, ns := keys[context], CountRaised(cs, keys[context], v), symbols[..];
      ghost var t := cs[k];
      HoldsFacts(raised, pending);
      ContextFacts(ns, keys, raised, context);
      ChildInjective(k, v, k, v);
      CountedTotals(k, t, v);
      RaisedIsCounted(k, t, v);
      var escape := if count == 0 then ESCAPE_DELTA else 0;
      symbols[context] := symbols[context].(escapes := symbols[context].escapes + escape,
                                            total := symbols[context].total + escape + update);
      TotalsReplaced(ns, keys, raised, context, symbols[context].escapes, symbols[context].total, pending);
      assert symbols[..] == ns[context := symbols[context]];
      ghost var counted := Replace(cs, k, v, Counted(k, t, v));
      assert raised[k := raised[k].(escapes := symbols[context].escapes, total := symbols[context].total)] == counted;
      if count > 0xFF - 2 * update + minimum || symbols[context].total > BOTTOM - 0x100 {
        ContextRescale(context, minimum, counted, pending);
        assert counted[k := Rescaled(k, counted[k])] == Touch(cs, k, v);
      }
    }

    /** Sets the parent of a node whose parent was pending. */
    method SetParent(node: nat, parent: nat, ghost cs: Contexts, ghost pending: set<int>)
      requires Holds(cs, pending) && node < |keys| && parent < |keys|
      requires keys[node] != [] && keys[parent] == keys[node][1..]
      modifies symbols
      ensures Holds(cs, pending - {node})
      ensures forall j :: 0 <= j < symbols.Length && j != node ==> symbols[j] == old(symbols[j])
    {
      hide ContextAt, Tree;
      ghost var ns := symbols[..];
      HoldsFacts(cs, pending);
      symbols[node] := symbols[node].(parent := parent);
      ghost var ms := symbols[..];
      assert ms == ns[node := symbols[node]];
      forall j | 0 <= j < |keys|
        ensures ms[j].escapes == cs[keys[j]].escapes && ms[j].total == cs[keys[j]].total
      {
        ContextFacts(ns, keys, cs, j);
      }
      FieldsReplaced(ns, ms, keys, cs, cs);
    }

    /** The parent of a symbol of the root is the root, which is what new nodes point to. */
    lemma RootParent(cs: Contexts, symbol: nat, v: byte)
      requires Holds(cs, {symbol as int}) && symbol < |keys| && keys[symbol] == Child([], v)
      requires symbol < symbols.Length && symbols[symbol].parent == 0
      ensures Holds(cs, {})
    {
      hide ContextAt;
      assert Child([], v)[1..] == [];
    }

    lemma SameSlot(cs: Contexts, pending: set<int>, a: nat, b: nat)
      requires Holds(cs, pending) && a < |keys| && b < |keys|
      ensures keys[a] == keys[b] <==> a == b
    {
      hide ContextAt;
    }

    lemma MorePending(cs: Contexts, pending: set<int>, more: set<int>)
      requires Holds(cs, pending) && pending <= more
      ensures Holds(cs, more)
    {
      hide Represents;
    }

    /** What the context at a slot holds, and where its parent is. */
    lemma ContextRead(cs: Contexts, pending: set<int>, context: nat)
      requires Holds(cs, pending) && context < |keys|
      ensures symbols.Length == SYMBOLS && context < SYMBOLS && keys[context] in cs
      ensures symbols[context].escapes == cs[keys[context]].escapes
      ensures symbols[context].total == cs[keys[context]].total
      ensures keys[context] == [] <==> context == 0
      ensures context !in pending && context != 0 ==>
                symbols[context].parent < |keys| && keys[symbols[context].parent] == keys[context][1..]
    {
      hide Tree;
      ContextFacts(symbols[..], keys, cs, context);
    }

    lemma HoldsFacts(cs: Contexts, pending: set<int>)
      requires Holds(cs, pending)
      ensures 0 < nextSymbol == |keys| == |cs| <= SYMBOLS && keys[0] == [] && Represents(symbols[..], keys, cs) && Parented(symbols[..], keys, pending)
    {
    }
  }
}
