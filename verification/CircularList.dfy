/** The circular doubly linked lists of list.c. A list is a ring of nodes, one of them its sentinel; where
    a ring is cut open does not matter. */
module CircularList {
  import opened Sets

  class Node {
    var next: Node
    var previous: Node

    constructor ()
      ensures next == this && previous == this
    {
      next, previous := this, this;
    }
  }

  ghost function Nodes(s: seq<Node>): (nodes: set<Node>)
    ensures forall i :: 0 <= i < |s| ==> s[i] in nodes
  {
    set n | n in s
  }

  /** Each node of s is linked with the one before it. */
  ghost predicate Chain(s: seq<Node>)
    reads s
  {
    forall i: nat {:trigger s[i].previous} :: 0 < i < |s| ==> s[i - 1].next == s[i] && s[i].previous == s[i - 1]
  }

  ghost predicate Joined(a: Node, b: Node)
    reads a, b
  {
    a.next == b && b.previous == a
  }

  /** The nodes of s, in this order and back to the first, are linked in both directions. */
  ghost predicate Ring(s: seq<Node>)
    reads s
  {
    s != [] && Distinct(s) && Chain(s) && Joined(s[|s| - 1], s[0])
  }

  lemma SplitChain(a: seq<Node>, b: seq<Node>)
    requires Chain(a + b) && a != [] && b != []
    ensures Chain(a) && Chain(b) && Joined(a[|a| - 1], b[0])
  {
    var s := a + b;
    assert s[|a|] == b[0] && s[|a| - 1] == a[|a| - 1] && s[|a|].previous == s[|a| - 1];
    forall i: nat | 0 < i < |a| ensures a[i - 1].next == a[i] && a[i].previous == a[i - 1] {
      assert s[i] == a[i] && s[i - 1] == a[i - 1] && s[i].previous == s[i - 1];
    }
    forall i: nat | 0 < i < |b| ensures b[i - 1].next == b[i] && b[i].previous == b[i - 1] {
      assert s[|a| + i] == b[i] && s[|a| + i - 1] == b[i - 1] && s[|a| + i].previous == s[|a| + i - 1];
    }
  }

  lemma JoinChain(a: seq<Node>, b: seq<Node>)
    requires Chain(a) && Chain(b) && a != [] && b != [] && Joined(a[|a| - 1], b[0])
    ensures Chain(a + b)
  {
    var s := a + b;
    forall i: nat | 0 < i < |s| ensures s[i - 1].next == s[i] && s[i].previous == s[i - 1] {
      if i < |a| {
        assert a[i].previous == a[i - 1];
      } else if i > |a| {
        assert b[i - |a|].previous == b[i - |a| - 1];
      }
    }
  }

  lemma DistinctParts(a: seq<Node>, b: seq<Node>)
    requires Distinct(a + b)
    ensures Distinct(a) && Distinct(b) && Distinct(b + a)
    ensures forall i, j :: 0 <= i < |a| && 0 <= j < |b| ==> a[i] != b[j]
  {
    var s := a + b;
    assert forall i :: 0 <= i < |a| ==> s[i] == a[i];
    assert forall i :: 0 <= i < |b| ==> s[|a| + i] == b[i];
  }

  /** A ring can be cut open anywhere. */
  lemma Rotate(a: seq<Node>, b: seq<Node>)
    requires Ring(a + b)
    ensures Ring(b + a)
  {
    DistinctParts(a, b);
    if a == [] {
      assert b + a == a + b;
    } else if b == [] {
      assert b + a == a + b;
    } else {
      SplitChain(a, b);
      JoinChain(b, a);
    }
  }

  /** A list with nothing in it. */
  method Clear(sentinel: Node)
    modifies sentinel
    ensures Ring([sentinel])
  {
    sentinel.next := sentinel;
    sentinel.previous := sentinel;
  }

  /** Puts a node before a position of a ring. */
  method Insert(position: Node, node: Node, ghost before: seq<Node>, ghost rest: seq<Node>)
    requires Ring(before + [position] + rest) && node !in before + [position] + rest
    modifies Nodes(before + [position] + rest), node
    ensures Ring(before + [node, position] + rest)
  {
    ghost var s := [position] + (rest + before);
    RotateTo(before, [position], rest);
    assert s[0] == position && s[|s| - 1] == position.previous;
    node.previous := position.previous;
    node.next := position;
    node.previous.next := node;
    position.previous := node;
    forall i: nat | 0 < i < |s| ensures s[i - 1].next == s[i] && s[i].previous == s[i - 1] {
      assert s[i - 1] != s[|s| - 1] && s[i] != s[0];
      assert old(s[i].previous) == s[i - 1];
    }
    JoinChain(s, [node]);
    RotateBack([position], rest, before, [node]);
    assert before + [node] + [position] + rest == before + [node, position] + rest;
  }

  /** Takes a node out of a ring that has another one. */
  method Remove(position: Node, ghost before: seq<Node>, ghost rest: seq<Node>)
    requires Ring(before + [position] + rest) && before + rest != []
    modifies Nodes(before + [position] + rest)
    ensures Ring(before + rest)
  {
    ghost var others := rest + before;
    RotateTo(before, [position], rest);
    SplitChain([position], others);
    DistinctParts([position], others);
    ghost var s := [position] + others;
    assert s[|s| - 1] == others[|others| - 1] && position.next == others[0] == s[1];
    assert [position][0] != others[|others| - 1];
    assert s[0] == position;
    position.previous.next := position.next;
    position.next.previous := position.previous;
    forall i: nat | 0 < i < |others| ensures others[i - 1].next == others[i] && others[i].previous == others[i - 1] {
      assert others[i - 1] != others[|others| - 1] && others[i] != others[0];
      assert old(others[i].previous) == others[i - 1];
    }
    Rotate(rest, before);
  }

  /** Moves the stretch from first to last out of one ring and before a position of another. */
  method MoveBetween(position: Node, first: Node, last: Node, ghost ahead: seq<Node>, ghost block: seq<Node>, ghost behind: seq<Node>,
                     ghost before: seq<Node>, ghost rest: seq<Node>)
    requires block != [] && first == block[0] && last == block[|block| - 1] && ahead + behind != []
    requires Ring(ahead + block + behind) && Ring(before + [position] + rest)
    requires forall n :: n in ahead + block + behind ==> n !in before + [position] + rest
    modifies Nodes(ahead + block + behind), Nodes(before + [position] + rest)
    ensures Ring(ahead + behind) && Ring(before + block + [position] + rest)
  {
    ghost var others := behind + ahead;
    RotateTo(ahead, block, behind);
    RotateTo(before, [position], rest);
    SameNodes(ahead, block, behind, before, [position], rest);
    Splice(position, first, last, block, others, rest + before);
    Rotate(behind, ahead);
    RotateBack([position], rest, before, block);
  }

  lemma SameNodes(a: seq<Node>, b: seq<Node>, c: seq<Node>, d: seq<Node>, e: seq<Node>, f: seq<Node>)
    requires forall n :: n in a + b + c ==> n !in d + e + f
    ensures forall n :: n in b + (c + a) ==> n !in e + (f + d)
  {
    forall n | n in b + (c + a) ensures n !in e + (f + d) {
      assert n in a + b + c;
    }
  }

  /** The same, with both rings seen from where they are changed. */
  method Splice(position: Node, first: Node, last: Node, ghost block: seq<Node>, ghost others: seq<Node>, ghost rest: seq<Node>)
    requires block != [] && first == block[0] && last == block[|block| - 1] && others != []
    requires Ring(block + others) && Ring([position] + rest)
    requires forall n :: n in block + others ==> n !in [position] + rest
    modifies Nodes(block + others), Nodes([position] + rest)
    ensures Ring(others) && Ring([position] + rest + block)
  {
    ghost var t := [position] + rest;
    SplitChain(block, others);
    DistinctParts(block, others);
    KeptApart(block, others, t);
    ghost var u := block + others;
    assert t[0] == position && t[|t| - 1] == position.previous;
    assert u[0] == first && u[|block| - 1] == last && u[|block|] == last.next && u[|u| - 1] == first.previous;
    first.previous.next := last.next;
    last.next.previous := first.previous;
    first.previous := position.previous;
    last.next := position;
    first.previous.next := first;
    position.previous := last;
    forall i: nat | 0 < i < |t| ensures t[i - 1].next == t[i] && t[i].previous == t[i - 1] {
      assert t[i - 1] != t[|t| - 1] && t[i] != t[0];
      assert old(t[i].previous) == t[i - 1];
    }
    forall i: nat | 0 < i < |block| ensures block[i - 1].next == block[i] && block[i].previous == block[i - 1] {
      assert block[i - 1] != last && block[i] != first;
      assert old(block[i].previous) == block[i - 1];
    }
    forall i: nat | 0 < i < |others| ensures others[i - 1].next == others[i] && others[i].previous == others[i - 1] {
      assert others[i - 1] != others[|others| - 1] && others[i] != others[0];
      assert old(others[i].previous) == others[i - 1];
    }
    JoinChain(t, block);
  }

  /** Seen from the middle part. */
  lemma RotateTo(a: seq<Node>, b: seq<Node>, c: seq<Node>)
    requires Ring(a + b + c)
    ensures Ring(b + (c + a))
    ensures Nodes(b + (c + a)) == Nodes(a + b + c)
  {
    assert a + (b + c) == a + b + c && b + c + a == b + (c + a);
    Rotate(a, b + c);
  }

  /** And back, with d behind the last part. */
  lemma RotateBack(b: seq<Node>, c: seq<Node>, a: seq<Node>, d: seq<Node>)
    requires Ring(b + (c + a) + d)
    ensures Ring(a + d + b + c)
  {
    assert b + (c + a) + d == (b + c) + (a + d) && (a + d) + (b + c) == a + d + b + c;
    Rotate(b + c, a + d);
  }

  lemma KeptApart(block: seq<Node>, others: seq<Node>, t: seq<Node>)
    requires forall n :: n in block + others ==> n !in t
    requires Distinct(block) && Distinct(t)
    ensures forall i, j :: 0 <= i < |block| && 0 <= j < |t| ==> block[i] != t[j]
    ensures forall i, j :: 0 <= i < |others| && 0 <= j < |t| ==> others[i] != t[j]
    ensures Distinct(t + block)
  {
    forall i, j | 0 <= i < |block| && 0 <= j < |t| ensures block[i] != t[j] {
      assert block[i] in block + others;
    }
    forall i, j | 0 <= i < |others| && 0 <= j < |t| ensures others[i] != t[j] {
      assert others[i] in block + others;
    }
  }
}
