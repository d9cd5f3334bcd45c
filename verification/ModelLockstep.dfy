/** The encoder's arena and the decoder's hold the same model after every byte, although they fill
    their slots in different orders. */
module ModelLockstep {
  import opened Words
  import opened Sets
  import opened Ppm
  import opened SymbolTree
  import opened SymbolArena

  /** A byte that was counted has a node. */
  lemma {:induction false} CountedNode(ns: seq<Node>, keys: seq<Key>, k: Key, j: int, lo: int, hi: int, counts: seq<nat>, v: byte)
    returns (x: nat)
    requires |keys| <= |ns| && |counts| == 256 && Tree(ns, keys, k, j, lo, hi, counts)
    requires lo <= v < hi && counts[v] > 0
    ensures x < |keys| && keys[x] == Child(k, v) && ns[x].value == v && ns[x].count == counts[v]
    decreases hi - lo
  {
    hide Sum;
    if v == ns[j].value {
      x := j;
    } else if v < ns[j].value {
      x := CountedNode(ns, keys, k, j + ns[j].left, lo, ns[j].value, counts, v);
    } else {
      x := CountedNode(ns, keys, k, j + ns[j].right, ns[j].value + 1, hi, counts, v);
    }
  }

  lemma {:induction false} KeysCount(keys: seq<Key>)
    requires Distinct(keys)
    ensures |set k | k in keys| == |keys|
  {
    if keys != [] {
      var n := |keys| - 1;
      KeysCount(keys[..n]);
      assert keys == keys[..n] + [keys[n]];
      assert (set k | k in keys) == (set k | k in keys[..n]) + {keys[n]};
    }
  }

  /** Every context has a slot. */
  lemma SlotOf(p: Snapshot, cs: Contexts, k: Key) returns (j: nat)
    requires Pictures(p, cs) && k in cs
    ensures j < |p.keys| && p.keys[j] == k
  {
    hide ContextAt;
    KeysCount(p.keys);
    if k !in p.keys {
      var used := set k | k in p.keys;
      SubsetSize(used, cs.Keys - {k});
    }
    j :| j < |p.keys| && p.keys[j] == k;
  }

  lemma PictureFacts(p: Snapshot, cs: Contexts, i: nat)
    requires Pictures(p, cs) && i < |p.keys|
    ensures |p.keys| <= |p.nodes| == SYMBOLS && |p.keys| == |cs| && p.keys[0] == [] && Distinct(p.keys) && p.keys[i] in cs
    ensures p.nodes[i].escapes == cs[p.keys[i]].escapes && p.nodes[i].total == cs[p.keys[i]].total
    ensures i > 0 ==> p.keys[i] != [] && p.nodes[i].parent < |p.keys| && p.keys[p.nodes[i].parent] == p.keys[i][1..]
  {
    hide Tree;
    ContextFacts(p.nodes, p.keys, cs, i);
  }

  /** The node of a longer context shows how often its last byte was counted in the context before it. */
  lemma NodeCount(p: Snapshot, cs: Contexts, j: nat, k: Key, v: byte)
    requires Pictures(p, cs) && Linked(cs) && j < |p.keys| && p.keys[j] == Child(k, v)
    ensures k in cs && j < |p.nodes|
    ensures p.nodes[j].value == v && p.nodes[j].count == cs[k].counts[v]
  {
    hide Tree, Sum, Good, Represents, Parented;
    PictureFacts(p, cs, j);
    var c := SlotOf(p, cs, k);
    ContextFacts(p.nodes, p.keys, cs, c);
    var x := CountedNode(p.nodes, p.keys, k, c + p.nodes[c].symbols, 0, 256, cs[k].counts, v);
    SameKey(p.keys, x, j);
  }

  lemma SameKey(keys: seq<Key>, x: nat, j: nat)
    requires Distinct(keys) && x < |keys| && j < |keys| && keys[x] == keys[j]
    ensures x == j
  {
  }

  /** Slot i of one arena and slot j of the other hold the same context: the same byte, count, escapes
      and total, and a parent for the same context. */
  ghost predicate SameSlot(a: Snapshot, i: nat, b: Snapshot, j: nat) {
    && i < |a.keys| <= |a.nodes| && j < |b.keys| <= |b.nodes| && a.keys[i] == b.keys[j] && (i == 0 <==> j == 0)
    && a.nodes[i].escapes == b.nodes[j].escapes && a.nodes[i].total == b.nodes[j].total
    && (i > 0 ==>
          && a.nodes[i].value == b.nodes[j].value && a.nodes[i].count == b.nodes[j].count
          && a.nodes[i].parent < |a.keys| && b.nodes[j].parent < |b.keys|
          && a.keys[a.nodes[i].parent] == b.keys[b.nodes[j].parent])
  }

  ghost predicate HasCounterpart(a: Snapshot, i: nat, b: Snapshot) {
    exists j: nat :: SameSlot(a, i, b, j)
  }

  /** Both use equally many slots, never more than there are, and each slot has its counterpart. */
  ghost predicate Alike(a: Snapshot, b: Snapshot) {
    && |a.keys| == |b.keys| <= SYMBOLS == |a.nodes| == |b.nodes|
    && (forall i: nat :: i < |a.keys| ==> HasCounterpart(a, i, b))
    && (forall j: nat :: j < |b.keys| ==> HasCounterpart(b, j, a))
  }

  /** Two arenas that hold the same model are isomorphic, whatever order their slots were filled in. */
  lemma Isomorphic(a: Snapshot, b: Snapshot, cs: Contexts)
    requires Pictures(a, cs) && Pictures(b, cs) && Linked(cs)
    ensures Alike(a, b)
  {
    hide Pictures, SameSlot;
    HasRoot(a, cs);
    HasRoot(b, cs);
    PictureFacts(a, cs, 0);
    PictureFacts(b, cs, 0);
    forall i: nat | i < |a.keys| ensures HasCounterpart(a, i, b) {
      var j := Counterpart(a, b, cs, i);
    }
    forall j: nat | j < |b.keys| ensures HasCounterpart(b, j, a) {
      var i := Counterpart(b, a, cs, j);
    }
  }

  lemma HasRoot(p: Snapshot, cs: Contexts)
    requires Pictures(p, cs)
    ensures |p.keys| > 0
  {
  }

  lemma Counterpart(a: Snapshot, b: Snapshot, cs: Contexts, i: nat) returns (j: nat)
    requires Pictures(a, cs) && Pictures(b, cs) && Linked(cs) && i < |a.keys|
    ensures SameSlot(a, i, b, j)
  {
    hide Pictures, Good;
    PictureFacts(a, cs, i);
    j := SlotOf(b, cs, a.keys[i]);
    PictureFacts(b, cs, j);
    HasRoot(b, cs);
    if i > 0 {
      var n := |a.keys[i]| - 1;
      var k, v := a.keys[i][..n], a.keys[i][n];
      assert a.keys[i] == Child(k, v);
      NodeCount(a, cs, i, k, v);
      NodeCount(b, cs, j, k, v);
    } else {
      SameKey(b.keys, 0, j);
    }
  }

  /** The compressor's arena while it codes a text, and the decompressor's while it decodes it, are
      isomorphic after every byte, and are emptied at the same bytes. */
  lemma Lockstep(a: seq<Snapshot>, b: seq<Snapshot>, text: seq<byte>)
    requires Recorded(a, text) && Recorded(b, text)
    ensures |a| == |b| == |text| + 1
    ensures forall i :: 0 <= i <= |text| ==> Alike(a[i], b[i]) && (a[i].keys == [[]] <==> b[i].keys == [[]])
  {
    hide ModelOf, Pictures, Alike;
    forall i | 0 <= i <= |text| ensures Alike(a[i], b[i]) && (a[i].keys == [[]] <==> b[i].keys == [[]]) {
      var cs := ModelOf(text[..i]).contexts;
      LinkedModel(text[..i]);
      Isomorphic(a[i], b[i], cs);
      EmptyTogether(a[i], b[i], cs);
    }
  }

  lemma LinkedModel(text: seq<byte>)
    ensures Linked(ModelOf(text).contexts)
  {
    hide Linked;
  }

  lemma EmptyTogether(a: Snapshot, b: Snapshot, cs: Contexts)
    requires Pictures(a, cs) && Pictures(b, cs)
    ensures a.keys == [[]] <==> b.keys == [[]]
  {
    hide Parented, ContextAt;
  }
}
