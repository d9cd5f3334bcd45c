/** The frequency trees of compress.c. All nodes live in one arena; links are offsets to a later
    slot, 0 for none. A node is at once a symbol of its context's tree and the context that
    follows that symbol. */
module SymbolTree {
  import opened Words
  import opened Ppm

  datatype Node = Node(
    value: byte, count: byte, under: uint16, left: uint16, right: uint16,
    symbols: uint16, escapes: uint16, total: uint16, parent: uint16)

  function NewNode(value: byte, count: byte): Node {
    Node(value, count, count, 0, 0, 0, 0, 0, 0)
  }

  /** Slot j belongs to the tree of context k, with a value in [lo, hi). */
  ghost predicate Owns(keys: seq<Key>, j: int, k: Key, lo: int, hi: int) {
    0 <= j < |keys| && keys[j] != []
    && keys[j][..|keys[j]| - 1] == k && lo <= keys[j][|keys[j]| - 1] as int < hi
  }

  lemma OwnsChild(keys: seq<Key>, j: int, k: Key, v: byte, lo: int, hi: int)
    requires 0 <= j < |keys| && keys[j] == Child(k, v)
    ensures Owns(keys, j, k, lo, hi) <==> lo <= v < hi
  {
    assert Child(k, v)[..|Child(k, v)| - 1] == k;
  }

  /** The subtree at node j is a search tree over [lo, hi) that holds exactly the nonzero counts;
      each node's under is its own count plus that of its left subtree. */
  ghost predicate Tree(ns: seq<Node>, keys: seq<Key>, k: Key, j: int, lo: int, hi: int, counts: seq<nat>)
    requires |keys| <= |ns| && |counts| == 256
    decreases hi - lo, 0
  {
    && 0 < j < |keys| && 0 <= lo <= ns[j].value < hi <= 256
    && keys[j] == Child(k, ns[j].value)
    && ns[j].count == counts[ns[j].value] > 0
    && ns[j].under == Sum(counts, lo, ns[j].value + 1)
    && Branch(ns, keys, k, j, ns[j].left, lo, ns[j].value, counts)
    && Branch(ns, keys, k, j, ns[j].right, ns[j].value + 1, hi, counts)
  }

  ghost predicate Branch(ns: seq<Node>, keys: seq<Key>, k: Key, j: int, offset: uint16, lo: int, hi: int, counts: seq<nat>)
    requires |keys| <= |ns| && |counts| == 256 && 0 <= lo && hi <= 256
    decreases hi - lo, 1
  {
    if offset == 0 then forall v :: lo <= v < hi ==> counts[v] == 0
    else Tree(ns, keys, k, j + offset, lo, hi, counts)
  }

  /** The same for the subtree at node a, except that the subtree at node j, which covers
      [lo, hi), is left out. */
  ghost predicate Hole(ns: seq<Node>, keys: seq<Key>, k: Key, a: int, alo: int, ahi: int, counts: seq<nat>,
                       j: int, lo: int, hi: int)
    requires |keys| <= |ns| && |counts| == 256
    decreases ahi - alo
  {
    if a == j then alo == lo && ahi == hi
    else
      && 0 < a < |keys| && 0 <= alo <= ns[a].value < ahi <= 256
      && keys[a] == Child(k, ns[a].value)
      && ns[a].count == counts[ns[a].value] > 0
      && ns[a].under == Sum(counts, alo, ns[a].value + 1)
      && (if hi <= ns[a].value
          then && ns[a].left != 0 && Hole(ns, keys, k, a + ns[a].left, alo, ns[a].value, counts, j, lo, hi)
               && Branch(ns, keys, k, a, ns[a].right, ns[a].value + 1, ahi, counts)
          else && ns[a].value < lo
               && ns[a].right != 0 && Hole(ns, keys, k, a + ns[a].right, ns[a].value + 1, ahi, counts, j, lo, hi)
               && Branch(ns, keys, k, a, ns[a].left, alo, ns[a].value, counts))
  }

  predicate SameSymbol(n: Node, m: Node) {
    n.value == m.value && n.count == m.count && n.under == m.under && n.left == m.left && n.right == m.right
  }

  /** Nothing a tree over [lo, hi) of context k looks at differs. */
  ghost predicate Agree(ns: seq<Node>, ms: seq<Node>, keys: seq<Key>, more: seq<Key>, k: Key, lo: int, hi: int) {
    && |keys| <= |ns| && |keys| <= |more| <= |ms| && more[..|keys|] == keys
    && forall j :: Owns(keys, j, k, lo, hi) ==> SameSymbol(ns[j], ms[j])
  }

  lemma {:induction false} TreeFrame(ns: seq<Node>, ms: seq<Node>, keys: seq<Key>, more: seq<Key>, k: Key,
                                     j: int, lo: int, hi: int, counts: seq<nat>, others: seq<nat>)
    requires |counts| == |others| == 256
    requires Agree(ns, ms, keys, more, k, lo, hi)
    requires forall v :: lo <= v < hi && 0 <= v < 256 ==> counts[v] == others[v]
    requires Tree(ns, keys, k, j, lo, hi, counts)
    ensures Tree(ms, more, k, j, lo, hi, others)
    decreases hi - lo
  {
    var n := ns[j];
    OwnsChild(keys, j, k, n.value, lo, hi);
    assert SameSymbol(n, ms[j]);
    assert more[j] == more[..|keys|][j] == keys[j];
    SumSame(counts, others, lo, n.value + 1);
    if n.left != 0 {
      TreeFrame(ns, ms, keys, more, k, j + n.left, lo, n.value, counts, others);
    }
    if n.right != 0 {
      TreeFrame(ns, ms, keys, more, k, j + n.right, n.value + 1, hi, counts, others);
    }
  }

  lemma BranchFrame(ns: seq<Node>, ms: seq<Node>, keys: seq<Key>, more: seq<Key>, k: Key,
                    j: int, offset: uint16, lo: int, hi: int, counts: seq<nat>, others: seq<nat>)
    requires |counts| == |others| == 256 && 0 <= lo && hi <= 256
    requires Agree(ns, ms, keys, more, k, lo, hi)
    requires forall v :: lo <= v < hi ==> counts[v] == others[v]
    requires Branch(ns, keys, k, j, offset, lo, hi, counts)
    ensures Branch(ms, more, k, j, offset, lo, hi, others)
  {
    if offset != 0 {
      TreeFrame(ns, ms, keys, more, k, j + offset, lo, hi, counts, others);
    }
  }

  lemma {:induction false} HoleFrame(ns: seq<Node>, ms: seq<Node>, keys: seq<Key>, more: seq<Key>, k: Key,
                                     a: int, alo: int, ahi: int, counts: seq<nat>, j: int, lo: int, hi: int)
    requires |counts| == 256 && lo <= hi
    requires Agree(ns, ms, keys, more, k, alo, lo) && Agree(ns, ms, keys, more, k, hi, ahi)
    requires Hole(ns, keys, k, a, alo, ahi, counts, j, lo, hi)
    ensures Hole(ms, more, k, a, alo, ahi, counts, j, lo, hi)
    decreases ahi - alo
  {
    if a != j {
      var n := ns[a];
      OwnsChild(keys, a, k, n.value, alo, lo);
      OwnsChild(keys, a, k, n.value, hi, ahi);
      assert SameSymbol(n, ms[a]);
      assert more[a] == more[..|keys|][a] == keys[a];
      if hi <= n.value {
        HoleFrame(ns, ms, keys, more, k, a + n.left, alo, n.value, counts, j, lo, hi);
        BranchFrame(ns, ms, keys, more, k, a, n.right, n.value + 1, ahi, counts, counts);
      } else {
        HoleFrame(ns, ms, keys, more, k, a + n.right, n.value + 1, ahi, counts, j, lo, hi);
        BranchFrame(ns, ms, keys, more, k, a, n.left, alo, n.value, counts, counts);
      }
    }
  }

  /** Filling the hole gives a tree. */
  lemma {:induction false} Plug(ns: seq<Node>, keys: seq<Key>, k: Key, a: int, alo: int, ahi: int, counts: seq<nat>,
                                j: int, lo: int, hi: int)
    requires |keys| <= |ns| && |counts| == 256
    requires Hole(ns, keys, k, a, alo, ahi, counts, j, lo, hi)
    requires Tree(ns, keys, k, j, lo, hi, counts)
    ensures Tree(ns, keys, k, a, alo, ahi, counts)
    decreases ahi - alo
  {
    if a != j {
      var n := ns[a];
      if hi <= n.value {
        Plug(ns, keys, k, a + n.left, alo, n.value, counts, j, lo, hi);
      } else {
        Plug(ns, keys, k, a + n.right, n.value + 1, ahi, counts, j, lo, hi);
      }
    }
  }

  /** A hole within the hole is a hole. */
  lemma {:induction false} Descend(ns: seq<Node>, keys: seq<Key>, k: Key, a: int, alo: int, ahi: int, counts: seq<nat>,
                                   j: int, lo: int, hi: int, c: int, clo: int, chi: int)
    requires |keys| <= |ns| && |counts| == 256
    requires Hole(ns, keys, k, a, alo, ahi, counts, j, lo, hi)
    requires Hole(ns, keys, k, j, lo, hi, counts, c, clo, chi) && lo <= clo <= chi <= hi
    requires c != j && j <= c
    ensures Hole(ns, keys, k, a, alo, ahi, counts, c, clo, chi) && a < c
    decreases ahi - alo
  {
    if a != j {
      var n := ns[a];
      if hi <= n.value {
        Descend(ns, keys, k, a + n.left, alo, n.value, counts, j, lo, hi, c, clo, chi);
      } else {
        Descend(ns, keys, k, a + n.right, n.value + 1, ahi, counts, j, lo, hi, c, clo, chi);
      }
    }
  }

  // ---- Walking down a tree to count one more occurrence of byte v

  function Raised(counts: seq<nat>, v: byte, update: nat): seq<nat>
    requires |counts| == 256
  {
    counts[v := counts[v] + update]
  }

  /** The walk stands at node j: the nodes above it already count the update, the subtree at j does
      not yet. */
  ghost predicate Walking(ns: seq<Node>, keys: seq<Key>, k: Key, root: int, counts: seq<nat>, v: byte, update: nat,
                          j: int, lo: int, hi: int)
  {
    && |keys| <= |ns| && |counts| == 256
    && lo <= v < hi
    && Tree(ns, keys, k, j, lo, hi, counts)
    && Hole(ns, keys, k, root, 0, 256, Raised(counts, v, update), j, lo, hi)
    && Sum(Raised(counts, v, update), 0, 256) < WORD16
  }

  lemma WalkFacts(ns: seq<Node>, keys: seq<Key>, k: Key, root: int, counts: seq<nat>, v: byte, update: nat,
                  j: int, lo: int, hi: int)
    requires Walking(ns, keys, k, root, counts, v, update, j, lo, hi)
    ensures 0 < j < |keys| <= |ns| && |counts| == 256 && keys[j] == Child(k, ns[j].value)
    ensures 0 <= lo <= ns[j].value < hi <= 256 && lo <= v < hi
    ensures ns[j].count == counts[ns[j].value] > 0
    ensures ns[j].under == Sum(counts, lo, ns[j].value + 1)
    ensures Sum(counts, 0, ns[j].value + 1) == Sum(counts, 0, lo) + ns[j].under
    ensures Sum(counts, 0, ns[j].value) == Sum(counts, 0, ns[j].value + 1) - ns[j].count
    ensures ns[j].right != 0 ==> ns[j].value + 1 < hi
    ensures ns[j].left == 0 ==> ns[j].under == ns[j].count
  {
    hide Sum;
    var n := ns[j];
    SumSplit(counts, 0, lo, n.value + 1);
    SumLast(counts, 0, n.value);
    assert Branch(ns, keys, k, j, n.left, lo, n.value, counts);
    assert Branch(ns, keys, k, j, n.right, n.value + 1, hi, counts);
    if n.left == 0 {
      SumLast(counts, lo, n.value);
      SumZero(counts, lo, n.value);
    }
  }

  lemma UpdateAgrees(ns: seq<Node>, keys: seq<Key>, j: int, n: Node, k: Key, lo: int, hi: int)
    requires |keys| <= |ns| && 0 <= j < |keys|
    requires keys[j] == Child(k, ns[j].value) && !(lo <= ns[j].value < hi)
    ensures Agree(ns, ns[j := n], keys, keys, k, lo, hi)
  {
    OwnsChild(keys, j, k, ns[j].value, lo, hi);
  }

  lemma RaisedUnder(counts: seq<nat>, v: byte, update: nat, lo: nat, w: byte)
    requires |counts| == 256 && lo <= v <= w
    requires Sum(Raised(counts, v, update), 0, 256) < WORD16
    ensures Sum(Raised(counts, v, update), lo, w + 1) == Sum(counts, lo, w + 1) + update < WORD16
  {
    var raised := Raised(counts, v, update);
    SumUpdate(counts, lo, w + 1, v, counts[v] + update);
    SumSplit(raised, 0, lo, 256);
    SumSplit(raised, lo, w + 1, 256);
  }

  lemma GoLeft(ns: seq<Node>, keys: seq<Key>, k: Key, root: int, counts: seq<nat>, v: byte, update: nat,
               j: int, lo: int, hi: int)
    requires Walking(ns, keys, k, root, counts, v, update, j, lo, hi)
    requires v < ns[j].value && ns[j].left != 0
    ensures ns[j].under + update < WORD16
    ensures var ms := ns[j := ns[j].(under := ns[j].under + update)];
            Walking(ms, keys, k, root, counts, v, update, j + ns[j].left, lo, ns[j].value)
  {
    hide Agree, Sum;
    var n, raised := ns[j], Raised(counts, v, update);
    assert Branch(ns, keys, k, j, n.left, lo, n.value, counts);
    assert Branch(ns, keys, k, j, n.right, n.value + 1, hi, counts);
    RaisedUnder(counts, v, update, lo, n.value);
    var ms := ns[j := n.(under := n.under + update)];
    UpdateAgrees(ns, keys, j, ms[j], k, 0, lo);
    UpdateAgrees(ns, keys, j, ms[j], k, hi, 256);
    HoleFrame(ns, ms, keys, keys, k, root, 0, 256, raised, j, lo, hi);
    UpdateAgrees(ns, keys, j, ms[j], k, lo, n.value);
    TreeFrame(ns, ms, keys, keys, k, j + n.left, lo, n.value, counts, counts);
    UpdateAgrees(ns, keys, j, ms[j], k, n.value + 1, hi);
    BranchFrame(ns, ms, keys, keys, k, j, n.right, n.value + 1, hi, counts, raised);
    Descend(ms, keys, k, root, 0, 256, raised, j, lo, hi, j + n.left, lo, n.value);
  }

  lemma GoRight(ns: seq<Node>, keys: seq<Key>, k: Key, root: int, counts: seq<nat>, v: byte, update: nat,
                j: int, lo: int, hi: int)
    requires Walking(ns, keys, k, root, counts, v, update, j, lo, hi)
    requires v > ns[j].value && ns[j].right != 0
    ensures Walking(ns, keys, k, root, counts, v, update, j + ns[j].right, ns[j].value + 1, hi)
    ensures Sum(counts, 0, ns[j].value + 1) == Sum(counts, 0, lo) + ns[j].under
  {
    hide Agree, Sum;
    var n, raised := ns[j], Raised(counts, v, update);
    assert Branch(ns, keys, k, j, n.left, lo, n.value, counts);
    assert Branch(ns, keys, k, j, n.right, n.value + 1, hi, counts);
    SumSame(counts, raised, lo, n.value + 1);
    SumSplit(counts, 0, lo, n.value + 1);
    UpdateAgrees(ns, keys, j, n, k, lo, n.value);
    assert ns[j := n] == ns;
    BranchFrame(ns, ns, keys, keys, k, j, n.left, lo, n.value, counts, raised);
    Descend(ns, keys, k, root, 0, 256, raised, j, lo, hi, j + n.right, n.value + 1, hi);
  }

  lemma Arrive(ns: seq<Node>, keys: seq<Key>, k: Key, root: int, counts: seq<nat>, v: byte, update: nat,
               j: int, lo: int, hi: int)
    requires Walking(ns, keys, k, root, counts, v, update, j, lo, hi)
    requires v == ns[j].value && ns[j].count + update <= 0xFF
    ensures ns[j].under + update < WORD16
    ensures Sum(counts, 0, v) == Sum(counts, 0, lo) + ns[j].under - ns[j].count
    ensures var ms := ns[j := ns[j].(under := ns[j].under + update, count := ns[j].count + update)];
            Tree(ms, keys, k, root, 0, 256, Raised(counts, v, update))
  {
    hide Agree, Sum;
    var n, raised := ns[j], Raised(counts, v, update);
    assert forall w :: 0 <= w < 256 && w != v ==> raised[w] == counts[w];
    assert Branch(ns, keys, k, j, n.left, lo, n.value, counts);
    assert Branch(ns, keys, k, j, n.right, n.value + 1, hi, counts);
    RaisedUnder(counts, v, update, lo, v);
    SumSplit(counts, 0, lo, v);
    SumLast(counts, lo, v);
    var ms := ns[j := n.(under := n.under + update, count := n.count + update)];
    UpdateAgrees(ns, keys, j, ms[j], k, 0, lo);
    UpdateAgrees(ns, keys, j, ms[j], k, hi, 256);
    HoleFrame(ns, ms, keys, keys, k, root, 0, 256, raised, j, lo, hi);
    UpdateAgrees(ns, keys, j, ms[j], k, lo, n.value);
    BranchFrame(ns, ms, keys, keys, k, j, n.left, lo, n.value, counts, raised);
    UpdateAgrees(ns, keys, j, ms[j], k, n.value + 1, hi);
    BranchFrame(ns, ms, keys, keys, k, j, n.right, n.value + 1, hi, counts, raised);
    Plug(ms, keys, k, root, 0, 256, raised, j, lo, hi);
  }

  /** A new node alone is a tree. */
  lemma SingleTree(ns: seq<Node>, keys: seq<Key>, k: Key, j: int, lo: int, hi: int, counts: seq<nat>, v: byte)
    requires |keys| <= |ns| && |counts| == 256
    requires 0 < j < |keys| && 0 <= lo <= v < hi <= 256 && keys[j] == Child(k, v)
    requires 0 < counts[v] <= 0xFF && forall w :: lo <= w < hi && w != v ==> counts[w] == 0
    requires SameSymbol(ns[j], NewNode(v, counts[v]))
    ensures Tree(ns, keys, k, j, lo, hi, counts)
  {
    SumZero(counts, lo, v);
  }

  lemma GrowthAgrees(ns: seq<Node>, keys: seq<Key>, j: int, n: Node, new_: Node, key: Key, k: Key, lo: int, hi: int)
    requires 0 <= j < |keys| < |ns|
    requires keys[j] == Child(k, ns[j].value) && !(lo <= ns[j].value < hi)
    ensures Agree(ns, ns[j := n][|keys| := new_], keys, keys + [key], k, lo, hi)
  {
    OwnsChild(keys, j, k, ns[j].value, lo, hi);
  }

  lemma GrowLeft(ns: seq<Node>, keys: seq<Key>, k: Key, root: int, counts: seq<nat>, v: byte, update: nat,
                 j: int, lo: int, hi: int)
    requires Walking(ns, keys, k, root, counts, v, update, j, lo, hi)
    requires v < ns[j].value && ns[j].left == 0 && |keys| < |ns| <= SYMBOLS && 0 < update <= 0xFF
    ensures ns[j].under + update < WORD16 && counts[v] == 0
    ensures Sum(counts, 0, v) == Sum(counts, 0, lo)
    ensures var ms := ns[j := ns[j].(under := ns[j].under + update, left := |keys| - j)][|keys| := NewNode(v, update)];
            Tree(ms, keys + [Child(k, v)], k, root, 0, 256, Raised(counts, v, update))
  {
    hide Agree, Sum;
    var n, raised, next := ns[j], Raised(counts, v, update), |keys|;
    assert Branch(ns, keys, k, j, n.left, lo, n.value, counts);
    assert Branch(ns, keys, k, j, n.right, n.value + 1, hi, counts);
    var more := keys + [Child(k, v)];
    SumSplit(counts, 0, lo, v);
    SumZero(counts, lo, v);
    RaisedUnder(counts, v, update, lo, n.value);
    var m := n.(under := n.under + update, left := next - j);
    var ms := ns[j := m][next := NewNode(v, update)];
    SingleTree(ms, more, k, next, lo, n.value, raised, v);
    GrowthAgrees(ns, keys, j, m, ms[next], Child(k, v), k, 0, lo);
    GrowthAgrees(ns, keys, j, m, ms[next], Child(k, v), k, hi, 256);
    HoleFrame(ns, ms, keys, more, k, root, 0, 256, raised, j, lo, hi);
    GrowthAgrees(ns, keys, j, m, ms[next], Child(k, v), k, n.value + 1, hi);
    BranchFrame(ns, ms, keys, more, k, j, n.right, n.value + 1, hi, counts, raised);
    Plug(ms, more, k, root, 0, 256, raised, j, lo, hi);
  }

  lemma GrowRight(ns: seq<Node>, keys: seq<Key>, k: Key, root: int, counts: seq<nat>, v: byte, update: nat,
                  j: int, lo: int, hi: int)
    requires Walking(ns, keys, k, root, counts, v, update, j, lo, hi)
    requires v > ns[j].value && ns[j].right == 0 && |keys| < |ns| <= SYMBOLS && 0 < update <= 0xFF
    ensures counts[v] == 0
    ensures Sum(counts, 0, v) == Sum(counts, 0, lo) + ns[j].under
    ensures var ms := ns[j := ns[j].(right := |keys| - j)][|keys| := NewNode(v, update)];
            Tree(ms, keys + [Child(k, v)], k, root, 0, 256, Raised(counts, v, update))
  {
    hide Agree, Sum;
    var n, raised, next := ns[j], Raised(counts, v, update), |keys|;
    assert Branch(ns, keys, k, j, n.left, lo, n.value, counts);
    assert Branch(ns, keys, k, j, n.right, n.value + 1, hi, counts);
    var more := keys + [Child(k, v)];
    SumSame(counts, raised, lo, n.value + 1);
    SumSplit(counts, 0, lo, v);
    SumSplit(counts, lo, n.value + 1, v);
    SumZero(counts, n.value + 1, v);
    var m := n.(right := next - j);
    var ms := ns[j := m][next := NewNode(v, update)];
    SingleTree(ms, more, k, next, n.value + 1, hi, raised, v);
    GrowthAgrees(ns, keys, j, m, ms[next], Child(k, v), k, 0, lo);
    GrowthAgrees(ns, keys, j, m, ms[next], Child(k, v), k, hi, 256);
    HoleFrame(ns, ms, keys, more, k, root, 0, 256, raised, j, lo, hi);
    GrowthAgrees(ns, keys, j, m, ms[next], Child(k, v), k, lo, n.value);
    BranchFrame(ns, ms, keys, more, k, j, n.left, lo, n.value, counts, raised);
    Plug(ms, more, k, root, 0, 256, raised, j, lo, hi);
  }

  // ---- Halving every count of a tree, along its right spine

  /** Node j and its left subtree have been rescaled; the nodes to the right have not. */
  lemma RescaleNode(ns: seq<Node>, ms: seq<Node>, keys: seq<Key>, k: Key, root: int, rlo: int, counts: seq<nat>,
                    j: int, lo: int, hi: int)
    requires |keys| <= |ns| && |counts| == 256
    requires Hole(ns, keys, k, root, rlo, hi, Halved(counts), j, lo, hi)
    requires Tree(ns, keys, k, j, lo, hi, counts)
    requires Agree(ns, ms, keys, keys, k, rlo, lo) && Agree(ns, ms, keys, keys, k, ns[j].value + 1, hi)
    requires ms[j].value == ns[j].value && ms[j].left == ns[j].left && ms[j].right == ns[j].right
    requires ms[j].count == ns[j].count - ns[j].count / 2
    requires ms[j].under == Sum(Halved(counts), lo, ns[j].value + 1)
    requires Branch(ms, keys, k, j, ns[j].left, lo, ns[j].value, Halved(counts))
    ensures ns[j].right == 0 ==> Tree(ms, keys, k, root, rlo, hi, Halved(counts))
    ensures ns[j].right == 0 ==> Sum(Halved(counts), lo, hi) == ms[j].under
    ensures ns[j].right != 0 ==>
              && Hole(ms, keys, k, root, rlo, hi, Halved(counts), j + ns[j].right, ns[j].value + 1, hi)
              && Tree(ms, keys, k, j + ns[j].right, ns[j].value + 1, hi, counts)
  {
    hide Sum, Halved;
    var n, halved := ns[j], Halved(counts);
    assert Branch(ns, keys, k, j, n.right, n.value + 1, hi, counts);
    assert Agree(ns, ms, keys, keys, k, hi, hi);
    HoleFrame(ns, ms, keys, keys, k, root, rlo, hi, halved, j, lo, hi);
    if n.right == 0 {
      SumSplit(halved, lo, n.value + 1, hi);
      SumZero(halved, n.value + 1, hi);
      Plug(ms, keys, k, root, rlo, hi, halved, j, lo, hi);
    } else {
      TreeFrame(ns, ms, keys, keys, k, j + n.right, n.value + 1, hi, counts, counts);
      Descend(ms, keys, k, root, rlo, hi, halved, j, lo, hi, j + n.right, n.value + 1, hi);
    }
  }
}
