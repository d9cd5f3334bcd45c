/** Reliable packets, and the commands they are cut into. */
module Packets {
  import opened Words
  import opened SequenceNumbers

  const MAXIMUM_FRAGMENTS := 1024 * 1024

  /** limit is the largest fragment the peer's transfer unit has room for. */
  datatype Packet = Packet(data: seq<byte>, limit: nat)

  predicate Sendable(p: Packet) {
    p.limit > 0 && Count(p) <= MAXIMUM_FRAGMENTS
  }

  /** The number of fragments; 0 if the packet is sent whole. */
  function Count(p: Packet): nat
    requires p.limit > 0
  {
    if |p.data| <= p.limit then 0 else (|p.data| + p.limit - 1) / p.limit
  }

  /** The number of commands, each with a sequence number of its own. */
  function Units(p: Packet): nat
    requires p.limit > 0
  {
    if Count(p) == 0 then 1 else Count(p)
  }

  /** What is sent: the number of the command, that of the first fragment, the number of fragments
      (0 for a whole packet), which of them this is, its place and the length of the packet. */
  datatype Command = Command(number: uint16, start: uint16, count: nat, fragment: nat, offset: nat, total: nat, payload: seq<byte>)

  function Offset(p: Packet, i: nat): nat {
    i * p.limit
  }

  function EndOffset(p: Packet, i: nat): nat {
    if Offset(p, i) + p.limit < |p.data| then Offset(p, i) + p.limit else |p.data|
  }

  lemma Offsets(p: Packet, i: nat)
    requires p.limit > 0 && i < Units(p)
    ensures Offset(p, i) <= EndOffset(p, i) <= |p.data|
    ensures Count(p) > 0 ==> Offset(p, i) < |p.data|
    ensures Offset(p, i + 1) == Offset(p, i) + p.limit
    ensures i + 1 < Units(p) <==> Offset(p, i) + p.limit < |p.data|
    ensures i + 1 < Units(p) ==> EndOffset(p, i) == Offset(p, i + 1)
    ensures Offset(p, 0) == 0
  {
    if Count(p) > 0 {
      Rounded(|p.data|, p.limit, i);
      Rounded(|p.data|, p.limit, i + 1);
    }
  }

  lemma Rounded(n: nat, limit: nat, i: nat)
    requires limit > 0
    ensures i < (n + limit - 1) / limit <==> i * limit < n
  {
    var q, r := (n + limit - 1) / limit, (n + limit - 1) % limit;
    assert n + limit - 1 == q * limit + r;
    if i < q {
      Multiple(i + 1, q, limit);
    } else {
      Multiple(q, i, limit);
    }
  }

  lemma Multiple(a: nat, b: nat, k: nat)
    requires a <= b
    ensures a * k <= b * k && (a + 1) * k == a * k + k
  {
  }

  /** Fragment i of a packet whose first command is number first. */
  function Fragment(p: Packet, first: nat, i: nat): Command
    requires p.limit > 0 && i < Units(p)
  {
    Offsets(p, i);
    Command(Low(first + i), Low(first), Count(p), i, Offset(p, i), |p.data|, p.data[Offset(p, i)..EndOffset(p, i)])
  }

  function Fragments(p: Packet, first: nat): (s: seq<Command>)
    requires p.limit > 0
    ensures |s| == Units(p)
  {
    seq(Units(p), i requires 0 <= i < Units(p) => Fragment(p, first, i))
  }

  /** Number of the last command of the first k packets. */
  function EndOf(packets: seq<Packet>, k: nat): nat
    requires k <= |packets| && forall i :: 0 <= i < |packets| ==> packets[i].limit > 0
  {
    if k == 0 then 0 else EndOf(packets, k - 1) + Units(packets[k - 1])
  }

  predicate Stream(packets: seq<Packet>) {
    forall i :: 0 <= i < |packets| ==> Sendable(packets[i])
  }

  lemma {:induction false} EndMonotone(packets: seq<Packet>, j: nat, k: nat)
    requires Stream(packets) && j <= k <= |packets|
    ensures EndOf(packets, j) <= EndOf(packets, k)
    ensures j < k ==> EndOf(packets, j) + Units(packets[j]) <= EndOf(packets, k)
    ensures j < k ==> EndOf(packets, j) < EndOf(packets, k)
  {
    if j < k { EndMonotone(packets, j, k - 1); }
  }

  lemma {:induction false} EndOfPrefix(packets: seq<Packet>, more: seq<Packet>, k: nat)
    requires Stream(packets) && Stream(more) && packets <= more && k <= |packets|
    ensures EndOf(more, k) == EndOf(packets, k)
  {
    if k > 0 { EndOfPrefix(packets, more, k - 1); }
  }

  function DataOf(packets: seq<Packet>): (d: seq<seq<byte>>)
    ensures |d| == |packets| && forall i :: 0 <= i < |packets| ==> d[i] == packets[i].data
  {
    seq(|packets|, i requires 0 <= i < |packets| => packets[i].data)
  }

  /** The first n payloads in a row. */
  function Joined(p: Packet, n: nat): seq<byte>
    requires p.limit > 0 && n <= Units(p)
  {
    if n == 0 then [] else Joined(p, n - 1) + Fragment(p, 0, n - 1).payload
  }

  /** The fragments tile the packet. */
  lemma FragmentsTile(p: Packet)
    requires p.limit > 0
    ensures Joined(p, Units(p)) == p.data
  {
    hide Units, Count, Offset, EndOffset, Joined;
    UnitsPositive(p);
    JoinedPrefix(p, Units(p));
    LastEnds(p, Units(p) - 1);
  }

  lemma {:induction false} JoinedPrefix(p: Packet, n: nat)
    requires p.limit > 0 && 0 < n <= Units(p)
    ensures EndOffset(p, n - 1) <= |p.data| && Joined(p, n) == p.data[..EndOffset(p, n - 1)]
  {
    hide Units, Count, Offset, EndOffset;
    Offsets(p, n - 1);
    if n == 1 {
      Offsets(p, 0);
    } else {
      JoinedPrefix(p, n - 1);
      Offsets(p, n - 2);
    }
  }

  lemma UnitsPositive(p: Packet)
    requires p.limit > 0
    ensures Units(p) > 0
    ensures Count(p) > 0 ==> Units(p) == Count(p) > 1
    ensures Count(p) == 0 ==> Units(p) == 1 && EndOffset(p, 0) == |p.data|
  {
    if |p.data| > p.limit { Rounded(|p.data|, p.limit, 1); }
  }

  lemma LastEnds(p: Packet, i: nat)
    requires p.limit > 0 && i + 1 == Units(p)
    ensures EndOffset(p, i) == |p.data|
  {
    Offsets(p, i);
  }

  /** The fragment that a byte is in. */
  lemma ByteInFragment(p: Packet, b: nat) returns (i: nat)
    requires p.limit > 0 && b < |p.data|
    ensures i < Units(p) && Offset(p, i) <= b < EndOffset(p, i)
  {
    hide Units, Count;
    UnitsPositive(p);
    i := 0;
    while b >= EndOffset(p, i)
      invariant i < Units(p) && Offset(p, i) <= b
      decreases Units(p) - i
    {
      Offsets(p, i);
      if i + 1 == Units(p) { LastEnds(p, i); }
      i := i + 1;
    }
  }
}
