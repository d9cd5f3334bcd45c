/** What a reliable channel can deliver: packets exactly as long as none of them spans more than 7
    windows of numbers. */
module ReliableProgress {
  import opened Words
  import opened SequenceNumbers
  import opened Packets
  import opened Incoming
  import opened Arrival
  import opened Delivery
  import opened ReliableLink

  ghost predicate Reachable(l: Link) {
    exists ls: seq<Link>, steps: seq<Step> :: Run(ls, steps) && ls[|steps|] == l
  }

  lemma ReachableNext(l: Link, step: Step)
    requires Reachable(l) && Enabled(l, step)
    ensures Reachable(After(l, step))
  {
    hide Enabled, After, Start;
    var ls: seq<Link>, steps: seq<Step> :| Run(ls, steps) && ls[|steps|] == l;
    var more := ls + [After(l, step)];
    assert Run(more, steps + [step]) && more[|steps + [step]|] == After(l, step);
  }

  lemma ReachableStart()
    ensures Reachable(Link([], Sender(0, {}), Channel(0, [], []), {}, {}))
  {
    var l := Link([], Sender(0, {}), Channel(0, [], []), {}, {});
    assert Run([l], []) && [l][0] == l;
  }

  // ---- What was sent stays on the network

  /** Every command sent so far and every acknowledgement the sender has seen is on the network. */
  ghost predicate OnNetwork(l: Link) {
    && Stream(l.packets)
    && (forall p: nat, i: nat :: IsCommand(l.packets, p, i) && Number(l.packets, p, i) <= l.sender.first ==> (p, i) in l.commands)
    && (forall q: nat :: 0 < q <= l.sender.first && q !in l.sender.unacked ==> q in l.acks)
  }

  lemma StepOnNetwork(l: Link, step: Step, done: nat, ids: seq<nat>)
    requires OnNetwork(l) && Safe(l, done, ids) && Enabled(l, step)
    ensures OnNetwork(After(l, step))
  {
    hide EndOf, Represents, Settled, Has, Low, Units, Handle, AckRefused, First, Fragment, NotStale, MaySendNext, Deserved, Number, Acknowledge, Narrow;
    SafeSizes(l, done, ids);
    var l' := After(l, step);
    match step
    case Queue(packet) => QueuedOnNetwork(l, packet, done, ids);
    case Send(_, _) =>
      forall p: nat, i: nat | IsCommand(l'.packets, p, i) && Number(l'.packets, p, i) <= l'.sender.first ensures (p, i) in l'.commands {
        if Number(l.packets, p, i) == l.sender.first + 1 { NumberInjective(l.packets, p, i, step.p, step.i); }
      }
    case Resend(_, _) =>
    case Deliver(_, _, _, _) =>
    case DeliverAck(q) => AcknowledgeRight(l.sender, q);
  }

  lemma QueuedOnNetwork(l: Link, packet: Packet, done: nat, ids: seq<nat>)
    requires OnNetwork(l) && Safe(l, done, ids) && Sendable(packet)
    ensures OnNetwork(l.(packets := l.packets + [packet]))
  {
    hide EndOf, Represents, Settled, Has, Low, Narrow, Units, Deserved;
    var more, k := l.packets + [packet], |l.packets|;
    EndOfPrefix(l.packets, more, k);
    forall p: nat, i: nat | IsCommand(more, p, i) && Number(more, p, i) <= l.sender.first ensures (p, i) in l.commands {
      if p < k {
        EndOfPrefix(l.packets, more, p);
        assert IsCommand(l.packets, p, i);
      }
    }
  }

  lemma {:induction false} RunOnNetwork(ls: seq<Link>, steps: seq<Step>, n: nat)
    requires Run(ls, steps) && n < |ls|
    ensures OnNetwork(ls[n])
  {
    hide Safe, Enabled, After;
    if n > 0 {
      RunOnNetwork(ls, steps, n - 1);
      var done, ids := RunSafe(ls, steps, n - 1);
      StepOnNetwork(ls[n - 1], steps[n - 1], done, ids);
    } else {
      hide Number;
    }
  }

  lemma ReachableOnNetwork(l: Link)
    requires Reachable(l)
    ensures OnNetwork(l)
  {
    hide Enabled, After, Start, OnNetwork;
    var ls: seq<Link>, steps: seq<Step> :| Run(ls, steps) && ls[|steps|] == l;
    RunOnNetwork(ls, steps, |steps|);
  }

  // ---- One command

  /** Packets before k are handed on, and nothing after packet k has been sent. */
  ghost predicate AtPacket(l: Link, packets: seq<Packet>, done: nat, ids: seq<nat>, k: nat) {
    && Reachable(l) && Safe(l, done, ids) && l.packets == packets && k < |packets|
    && k <= done <= k + 1 && EndOf(packets, k) <= l.sender.first <= EndOf(packets, k + 1)
  }

  lemma AtPacketFacts(l: Link, packets: seq<Packet>, done: nat, ids: seq<nat>, k: nat)
    requires AtPacket(l, packets, done, ids, k)
    ensures Stream(packets) && l.packets == packets && k <= done <= k + 1 <= |packets| && |ids| == |l.channel.pending|
    ensures |l.channel.dispatched| == done && l.channel.current == Low(EndOf(packets, done))
    ensures Represents(l.channel, packets, done, ids) && Settled(l.channel) && Narrow(l.sender)
    ensures EndOf(packets, k) <= EndOf(packets, done) <= EndOf(packets, k + 1)
    ensures EndOf(packets, k + 1) == EndOf(packets, k) + Units(packets[k])
  {
    SafeSizes(l, done, ids);
    EndMonotone(packets, k, done);
    EndMonotone(packets, done, k + 1);
  }

  /** Nothing that was not sent has been handed on. */
  lemma NotBeyond(l: Link, packets: seq<Packet>, done: nat, ids: seq<nat>, k: nat)
    requires Safe(l, done, ids) && l.packets == packets && k < |packets| && l.sender.first <= EndOf(packets, k + 1)
    ensures done <= k + 1
  {
    hide Represents, Settled, Narrow, Low, EndOf, Deserved;
    SafeSizes(l, done, ids);
    HandedOn(l.channel, packets, done, ids, k + 1);
  }

  lemma HandedOn(ch: Channel, packets: seq<Packet>, done: nat, ids: seq<nat>, k: nat)
    requires Stream(packets) && done <= |packets| && |ids| == |ch.pending|
    ensures k < done ==> IsCommand(packets, k, 0) && Has(ch, done, ids, k, 0)
  {
    if k < done { UnitsPositive(packets[k]); }
  }

  /** The packet spans at most 7 windows, so its numbers are less than 8 windows from the receiver's. */
  lemma InSpan(packets: seq<Packet>, k: nat, q: nat)
    requires Stream(packets) && k < |packets| && !Oversized(packets, k)
    requires EndOf(packets, k) <= q <= EndOf(packets, k + 1)
    ensures SequenceNumbers.Window(EndOf(packets, k)) <= SequenceNumbers.Window(q)
         <= SequenceNumbers.Window(EndOf(packets, k + 1)) <= SequenceNumbers.Window(EndOf(packets, k)) + FREE_WINDOWS - 1
  {
    hide EndOf;
    WindowMonotone(EndOf(packets, k), q);
    WindowMonotone(q, EndOf(packets, k + 1));
  }

  /** In reach of the receiver means acknowledged: handed on, or less than 7 windows ahead. */
  ghost predicate InReach(packets: seq<Packet>, done: nat, k: nat, j: nat)
    requires Stream(packets) && k < |packets|
  {
    done == k + 1 || SequenceNumbers.Window(Number(packets, k, j)) < SequenceNumbers.Window(EndOf(packets, k)) + FREE_WINDOWS - 1
  }

  lemma NotRefused(packets: seq<Packet>, done: nat, k: nat, j: nat)
    requires IsCommand(packets, k, j) && k <= done <= k + 1 <= |packets| && !Oversized(packets, k) && InReach(packets, done, k, j)
    ensures !AckRefused(Low(Number(packets, k, j)), Low(EndOf(packets, done)))
  {
    hide Low;
    var q, r := Number(packets, k, j), EndOf(packets, done);
    InSpan(packets, k, q);
    if q >= r { AheadMeaning(q, r); } else { BehindMeaning(q, r); }
  }

  /** A command that was sent can be delivered, and its acknowledgement if there is one. */
  lemma DeliverOne(l: Link, packets: seq<Packet>, done: nat, ids: seq<nat>, k: nat, j: nat)
    returns (l': Link, done': nat, ids': seq<nat>)
    requires AtPacket(l, packets, done, ids, k) && !Oversized(packets, k)
    requires IsCommand(packets, k, j) && Number(packets, k, j) <= l.sender.first
    ensures AtPacket(l', packets, done', ids', k) && done <= done' && |ids| == |l.channel.pending| && |ids'| == |l'.channel.pending|
    ensures Has(l'.channel, done', ids', k, j)
    ensures forall i: nat :: Has(l.channel, done, ids, k, i) ==> Has(l'.channel, done', ids', k, i)
    ensures l'.sender == if InReach(packets, done', k, j) then l.sender.(unacked := l.sender.unacked - {Number(packets, k, j)}) else l.sender
  {
    hide EndOf, Represents, Settled, Has, Low, Narrow, Units, Safe, Reachable, Number, Handle, AckRefused, First;
    AtPacketFacts(l, packets, done, ids, k);
    var size := |packets[k].data|;
    var step := Deliver(k, j, size, false);
    CanDeliver(l, packets, done, ids, k, j);
    ReachableNext(l, step);
    l' := After(l, step);
    done', ids' := DeliverSafe(l, step, done, ids);
    DeliveredOne(l, packets, done, ids, k, j, l', done', ids');
    if InReach(packets, done', k, j) {
      var last := l';
      AckReached(l, packets, done, ids, k, j, last, done', ids');
      ReachableNext(last, DeliverAck(Number(packets, k, j)));
      AckSafe(last, DeliverAck(Number(packets, k, j)), done', ids');
      l' := After(last, DeliverAck(Number(packets, k, j)));
    }
  }

  lemma CanDeliver(l: Link, packets: seq<Packet>, done: nat, ids: seq<nat>, k: nat, j: nat)
    requires AtPacket(l, packets, done, ids, k) && !Oversized(packets, k)
    requires IsCommand(packets, k, j) && Number(packets, k, j) <= l.sender.first
    ensures Enabled(l, Deliver(k, j, |packets[k].data|, false))
  {
    hide EndOf, Represents, Settled, Low, Narrow, Safe, Reachable;
    AtPacketFacts(l, packets, done, ids, k);
    ReachableOnNetwork(l);
    InSpan(packets, k, EndOf(packets, done));
    WindowMonotone(EndOf(packets, k), First(packets, k));
  }

  lemma DeliveredOne(l: Link, packets: seq<Packet>, done: nat, ids: seq<nat>, k: nat, j: nat, l': Link, done': nat, ids': seq<nat>)
    requires AtPacket(l, packets, done, ids, k) && !Oversized(packets, k) && IsCommand(packets, k, j)
    requires var step := Deliver(k, j, |packets[k].data|, false);
             && Enabled(l, step) && l' == After(l, step) && Represents(l.channel, l.packets, done, ids) && Delivers(l, step, done, ids, done', ids')
    requires Reachable(l') && Safe(l', done', ids') && done <= done'
    ensures AtPacket(l', packets, done', ids', k) && |ids| == |l.channel.pending| && |ids'| == |l'.channel.pending|
    ensures l'.sender == l.sender && Has(l'.channel, done', ids', k, j)
    ensures forall i: nat :: Has(l.channel, done, ids, k, i) ==> Has(l'.channel, done', ids', k, i)
    ensures Handle(l.channel, Fragment(packets[k], First(packets, k), j), |packets[k].data|, false) == Result(l'.channel, true)
  {
    hide EndOf, Represents, Settled, Has, Low, Narrow, Units, Safe, Reachable, Handle, AckRefused, NotStale, Fragment;
    AtPacketFacts(l, packets, done, ids, k);
    SafeSizes(l', done', ids');
    NotBeyond(l', packets, done', ids', k);
    PayloadWithin(packets, k, j);
    NextWindow(EndOf(packets, k));
    WindowMonotone(EndOf(packets, k), EndOf(packets, done));
  }

  lemma PayloadWithin(packets: seq<Packet>, k: nat, j: nat)
    requires IsCommand(packets, k, j)
    ensures |Fragment(packets[k], First(packets, k), j).payload| <= |packets[k].data|
  {
    hide EndOf, Low;
    Offsets(packets[k], j);
  }

  lemma AckReached(l: Link, packets: seq<Packet>, done: nat, ids: seq<nat>, k: nat, j: nat, l': Link, done': nat, ids': seq<nat>)
    requires AtPacket(l, packets, done, ids, k) && !Oversized(packets, k) && IsCommand(packets, k, j)
    requires AtPacket(l', packets, done', ids', k) && l'.sender == l.sender && Number(packets, k, j) <= l.sender.first
    requires Enabled(l, Deliver(k, j, |packets[k].data|, false)) && l' == After(l, Deliver(k, j, |packets[k].data|, false))
    requires Handle(l.channel, Fragment(packets[k], First(packets, k), j), |packets[k].data|, false) == Result(l'.channel, true)
    requires InReach(packets, done', k, j)
    ensures var q := Number(packets, k, j);
            && Enabled(l', DeliverAck(q))
            && After(l', DeliverAck(q)) == l'.(sender := l'.sender.(unacked := l'.sender.unacked - {q}))
            && AtPacket(l', packets, done', ids', k)
  {
    hide EndOf, Represents, Settled, Low, Units, Safe, Reachable, Handle, AckRefused, NotStale, First, MaySendNext;
    AtPacketFacts(l', packets, done', ids', k);
    var q := Number(packets, k, j);
    FragmentNumber(packets, k, j);
    NotRefused(packets, done', k, j);
    NumberWithin(packets, k, j);
    InSpan(packets, k, q);
    InSpan(packets, k, l'.sender.first);
    AcknowledgeRight(l'.sender, q);
  }

  lemma NumberWithin(packets: seq<Packet>, k: nat, j: nat)
    requires IsCommand(packets, k, j)
    ensures EndOf(packets, k) < Number(packets, k, j) <= EndOf(packets, k + 1)
  {
  }

  // ---- One packet

  /** The first i commands of packet k have been sent and have arrived; only those at the end of its
      span may be unacknowledged. */
  ghost predicate PartSent(l: Link, packets: seq<Packet>, done: nat, ids: seq<nat>, k: nat, i: nat) {
    && AtPacket(l, packets, done, ids, k) && i <= Units(packets[k]) && |ids| == |l.channel.pending|
    && l.sender.first == EndOf(packets, k) + i
    && (forall j: nat :: j < i ==> Has(l.channel, done, ids, k, j))
    && (forall u: nat :: u in l.sender.unacked ==>
          u > EndOf(packets, k) && SequenceNumbers.Window(u) >= SequenceNumbers.Window(EndOf(packets, k)) + FREE_WINDOWS - 1)
  }

  lemma MayGoOn(l: Link, packets: seq<Packet>, done: nat, ids: seq<nat>, k: nat, i: nat)
    requires PartSent(l, packets, done, ids, k, i) && i < Units(packets[k]) && !Oversized(packets, k)
    ensures MaySendNext(l.sender) && Number(packets, k, i) == l.sender.first + 1
  {
    hide EndOf, Units, Safe, Reachable, Has;
    AtPacketFacts(l, packets, done, ids, k);
    var q := l.sender.first + 1;
    InSpan(packets, k, q);
    NextWindow(l.sender.first);
    if q % WINDOW_SIZE == 0 { assert l.sender.first !in l.sender.unacked; }
  }

  lemma SendOne(l: Link, packets: seq<Packet>, done: nat, ids: seq<nat>, k: nat, i: nat)
    returns (l': Link, done': nat, ids': seq<nat>)
    requires PartSent(l, packets, done, ids, k, i) && i < Units(packets[k]) && !Oversized(packets, k)
    ensures PartSent(l', packets, done', ids', k, i + 1)
  {
    hide EndOf, Units, Safe, Reachable, Has, Represents, Settled, Narrow, MaySendNext, Low, Handle;
    AtPacketFacts(l, packets, done, ids, k);
    MayGoOn(l, packets, done, ids, k, i);
    var step := Step.Send(k, i);
    ReachableNext(l, step);
    SendSafe(l, step, done, ids);
    var last := After(l, step);
    HasChannel(l, last, done, ids, k, i);
    l', done', ids' := DeliverOne(last, packets, done, ids, k, i);
    forall j: nat | j < i + 1 ensures Has(l'.channel, done', ids', k, j) {
      if j < i { assert Has(last.channel, done, ids, k, j); }
    }
  }

  lemma HasChannel(l: Link, l': Link, done: nat, ids: seq<nat>, k: nat, i: nat)
    requires l'.channel == l.channel && |ids| == |l.channel.pending|
    ensures forall j: nat :: Has(l.channel, done, ids, k, j) ==> Has(l'.channel, done, ids, k, j)
  {
  }

  lemma {:induction false} SendUpTo(l: Link, packets: seq<Packet>, done: nat, ids: seq<nat>, k: nat, i: nat, m: nat)
    returns (l': Link, done': nat, ids': seq<nat>)
    requires PartSent(l, packets, done, ids, k, i) && !Oversized(packets, k) && i <= m <= Units(packets[k])
    ensures PartSent(l', packets, done', ids', k, m)
    decreases m - i
  {
    hide AtPacket, EndOf, Units, Has, Oversized;
    AtPacketFacts(l, packets, done, ids, k);
    if i == m {
      l', done', ids' := l, done, ids;
    } else {
      l', done', ids' := SendOne(l, packets, done, ids, k, i);
      l', done', ids' := SendUpTo(l', packets, done', ids', k, i + 1, m);
    }
  }

  /** A packet that has arrived entirely is not left pending. */
  lemma Complete(ch: Channel, packets: seq<Packet>, done: nat, ids: seq<nat>)
    requires Represents(ch, packets, done, ids) && done < |packets| && |ids| == |ch.pending|
    requires forall i: nat :: i < Units(packets[done]) ==> Has(ch, done, ids, done, i)
    ensures !Settled(ch)
  {
    hide EndOf, Low, Dispatch, Partial, Units;
    UnitsPositive(packets[done]);
    assert Has(ch, done, ids, done, 0);
    var j: nat :| j < |ids| && ids[j] == done;
    LeastFirst(ids, done, j);
    EntryNumber(ch, packets, done, ids, 0);
    forall i: nat | i < Units(packets[done]) ensures Holds(ch.pending[0], i) {
      OnlyEntry(ch, packets, done, ids, i);
    }
    NoneMissing(ch.pending[0], packets[done]);
    NextInSequence(ch, packets, done, ids);
    SettledFirst(ch);
  }

  lemma OnlyEntry(ch: Channel, packets: seq<Packet>, done: nat, ids: seq<nat>, i: nat)
    requires Represents(ch, packets, done, ids) && |ids| == |ch.pending| > 0 && ids[0] == done && Has(ch, done, ids, done, i)
    ensures Holds(ch.pending[0], i)
  {
    hide EndOf, Low, IsEntry, Holds;
    var j: nat :| j < |ids| && ids[j] == done && Holds(ch.pending[j], i);
    LeastFirst(ids, done, j);
  }

  lemma LeastFirst(ids: seq<nat>, least: nat, j: nat)
    requires forall i, k :: 0 <= i < k < |ids| ==> ids[i] < ids[k]
    requires j < |ids| && ids[j] == least && forall i :: 0 <= i < |ids| ==> least <= ids[i]
    ensures j == 0
  {
    assert ids[0] <= ids[j];
  }

  lemma NoneMissing(e: Entry, p: Packet)
    requires p.limit > 0 && Partial(e, p) && forall i: nat :: i < Units(p) ==> Holds(e, i)
    ensures e.remaining <= 0
  {
    UnitsPositive(p);
    if e.count > 0 {
      ClearNone(e.marks);
      forall i: nat | i < e.count ensures e.marks[i] { assert Holds(e, i); }
    }
  }

  /** The last acknowledgements follow once the packet has been handed on. */
  lemma {:induction false} AckRest(l: Link, packets: seq<Packet>, done: nat, ids: seq<nat>, k: nat, j: nat)
    returns (l': Link, ids': seq<nat>)
    requires AtPacket(l, packets, done, ids, k) && done == k + 1 && !Oversized(packets, k) && j <= Units(packets[k])
    requires l.sender.first == EndOf(packets, k + 1)
    requires forall u: nat :: u in l.sender.unacked ==> u > EndOf(packets, k) + j
    ensures AtPacket(l', packets, done, ids', k) && l'.sender == Sender(EndOf(packets, k + 1), {})
    decreases Units(packets[k]) - j
  {
    hide EndOf, Units, Has, Oversized, Safe, Reachable, Low;
    AtPacketFacts(l, packets, done, ids, k);
    if j == Units(packets[k]) {
      NoneLeft(l.sender);
      l', ids' := l, ids;
    } else {
      NumberWithin(packets, k, j);
      var done';
      l', done', ids' := DeliverOne(l, packets, done, ids, k, j);
      l', ids' := AckRest(l', packets, done, ids', k, j + 1);
    }
  }

  lemma NoneLeft(s: Sender)
    requires Narrow(s) && forall u: nat :: u in s.unacked ==> u > s.first
    ensures s.unacked == {}
  {
    assert forall u: nat :: u in s.unacked ==> u <= s.first;
  }

  /** Everything of the first k packets has been sent, handed on and acknowledged. */
  ghost predicate AllThrough(l: Link, packets: seq<Packet>, ids: seq<nat>, k: nat) {
    && Reachable(l) && Safe(l, k, ids) && l.packets == packets && k <= |packets|
    && l.sender == Sender(EndOf(packets, k), {})
  }

  lemma PacketThrough(l: Link, packets: seq<Packet>, ids: seq<nat>, k: nat) returns (l': Link, ids': seq<nat>)
    requires AllThrough(l, packets, ids, k) && k < |packets| && !Oversized(packets, k)
    ensures AllThrough(l', packets, ids', k + 1)
  {
    hide EndOf, Units, Has, Oversized, Safe, Reachable, Low;
    SafeSizes(l, k, ids);
    EndMonotone(packets, k, k + 1);
    var done;
    l', done, ids' := SendUpTo(l, packets, k, ids, k, 0, Units(packets[k]));
    AtPacketFacts(l', packets, done, ids', k);
    if done == k { Complete(l'.channel, packets, k, ids'); }
    l', ids' := AckRest(l', packets, done, ids', k, 0);
  }

  lemma {:induction false} QueueAll(packets: seq<Packet>)
    requires Stream(packets)
    ensures Reachable(Link(packets, Sender(0, {}), Channel(0, [], []), {}, {}))
  {
    if packets == [] {
      ReachableStart();
    } else {
      hide Reachable;
      var n := |packets| - 1;
      QueueAll(packets[..n]);
      assert packets == packets[..n] + [packets[n]];
      ReachableNext(Link(packets[..n], Sender(0, {}), Channel(0, [], []), {}, {}), Queue(packets[n]));
    }
  }

  lemma {:induction false} PacketsThrough(packets: seq<Packet>, k: nat) returns (l: Link, ids: seq<nat>)
    requires Stream(packets) && k <= |packets| && forall p: nat :: p < k ==> !Oversized(packets, p)
    ensures AllThrough(l, packets, ids, k)
  {
    hide Oversized, Reachable;
    if k == 0 {
      l, ids := Link(packets, Sender(0, {}), Channel(0, [], []), {}, {}), [];
      QueueAll(packets);
      assert DataOf(packets[..0]) == [];
    } else {
      hide AllThrough;
      l, ids := PacketsThrough(packets, k - 1);
      l, ids := PacketThrough(l, packets, ids, k - 1);
    }
  }

  // ---- What can be delivered

  /** Some run hands on the first k of the packets. */
  ghost predicate Deliverable(packets: seq<Packet>, k: nat) {
    exists l: Link :: Reachable(l) && l.packets == packets && |l.channel.dispatched| >= k
  }

  /** The first k packets can be handed on exactly if none of them spans more than 7 windows. */
  lemma DeliverableExactly(packets: seq<Packet>, k: nat)
    requires Stream(packets) && k <= |packets|
    ensures Deliverable(packets, k) <==> forall p: nat :: p < k ==> !Oversized(packets, p)
  {
    hide Oversized;
    if forall p: nat :: p < k ==> !Oversized(packets, p) {
      hide Run;
      var l, ids := PacketsThrough(packets, k);
      SafeSizes(l, k, ids);
    } else {
      hide Enabled, After, Start;
      var p: nat :| p < k && Oversized(packets, p);
      if l: Link :| Reachable(l) && l.packets == packets && |l.channel.dispatched| >= k {
        var ls: seq<Link>, steps: seq<Step> :| Run(ls, steps) && ls[|steps|] == l;
        OversizedNeverDelivered(ls, steps, |steps|, packets, p);
      }
    }
  }

  /** For the first packet of a channel that is less than 32768 fragments. */
  lemma FirstPacket(p: Packet)
    requires Sendable(p)
    ensures Stream([p]) && (Deliverable([p], 1) <==> Units(p) < FREE_WINDOWS * WINDOW_SIZE)
  {
    hide Units, Deliverable;
    DeliverableExactly([p], 1);
    assert EndOf([p], 1) == EndOf([p], 0) + Units(p);
    assert Oversized([p], 0) <==> Units(p) >= FREE_WINDOWS * WINDOW_SIZE;
  }

  // ---- Inputs at the limits

  /** n equal bytes, one to a fragment. */
  function Plain(n: nat, v: byte): Packet {
    Packet(seq(n, _ => v), 1)
  }

  lemma PlainUnits(n: nat, v: byte)
    requires 0 < n <= MAXIMUM_FRAGMENTS
    ensures Sendable(Plain(n, v)) && Units(Plain(n, v)) == n && |Plain(n, v).data| == n && Plain(n, v).limit == 1
    ensures n > 1 ==> Count(Plain(n, v)) == n
  {
  }

  /** A packet of 32768 fragments may be sent and never arrives; one less, and it can. */
  lemma LongestPacket()
    ensures Sendable(Plain(0x8000, 0)) && !Deliverable([Plain(0x8000, 0)], 1)
    ensures Sendable(Plain(0x7FFF, 0)) && Deliverable([Plain(0x7FFF, 0)], 1)
  {
    hide Sendable, Units, Plain, Deliverable;
    PlainUnits(0x8000, 0);
    PlainUnits(0x7FFF, 0);
    FirstPacket(Plain(0x8000, 0));
    FirstPacket(Plain(0x7FFF, 0));
  }

  /** An acknowledgement 16 windows old, for command 1, would remove command 65537, which has not
      arrived. */
  lemma LateAcknowledgement() returns (l: Link)
    ensures Reachable(l) && 1 in l.acks && l.sender == Sender(WORD16 + 1, {WORD16 + 1})
    ensures SequenceNumbers.Window(l.sender.first) == SequenceNumbers.Window(1) + WINDOWS
    ensures Acknowledge(l.sender, Low(1)).unacked == {}
    ensures IsCommand(l.packets, 3, 0) && Number(l.packets, 3, 0) == WORD16 + 1 && !StoredOrDispatched(l.channel, l.packets, 3, 0)
  {
    hide Units, Plain, Reachable, Safe;
    var packets := [Plain(0x7000, 0), Plain(0x7000, 0), Plain(0x2000, 0), Plain(1, 0)];
    PlainUnits(0x7000, 0);
    PlainUnits(0x2000, 0);
    PlainUnits(1, 0);
    assert EndOf(packets, 1) == EndOf(packets, 0) + 0x7000;
    assert EndOf(packets, 2) == EndOf(packets, 1) + 0x7000;
    assert EndOf(packets, 3) == EndOf(packets, 2) + 0x2000;
    var ids;
    l, ids := PacketsThrough(packets, 3);
    ReachableOnNetwork(l);
    NotSentNotStored(l, ids, 3, 0);
    SendSafe(l, Step.Send(3, 0), 3, ids);
    ReachableNext(l, Step.Send(3, 0));
    l := After(l, Step.Send(3, 0));
  }

  lemma NotSentNotStored(l: Link, ids: seq<nat>, k: nat, i: nat)
    requires Safe(l, k, ids) && IsCommand(l.packets, k, i) && Number(l.packets, k, i) > l.sender.first
    ensures !StoredOrDispatched(l.channel, l.packets, k, i)
  {
    hide EndOf, Low, Settled, Narrow, Deserved, Partial, Units;
    SafeSizes(l, k, ids);
    if e :| e in l.channel.pending && e.number == Low(First(l.packets, k)) && Partial(e, l.packets[k]) && Holds(e, i) {
      var j: nat :| j < |l.channel.pending| && l.channel.pending[j] == e;
      EntryNumber(l.channel, l.packets, k, ids, j);
      EntryWindow(e, l.packets, k, ids[j]);
      NearDistance(l.packets, k, ids[j]);
      SameFirst(l.packets, k, ids[j]);
      assert Has(l.channel, k, ids, k, i);
    }
  }

  /** A packet less than 15 windows ahead with the number of the next one is the next one. */
  lemma SameFirst(packets: seq<Packet>, k: nat, p: nat)
    requires Stream(packets) && k <= p < |packets| && Low(First(packets, p)) == Low(First(packets, k))
    requires SequenceNumbers.Window(First(packets, p)) < SequenceNumbers.Window(EndOf(packets, k)) + WINDOWS - 1
    ensures p == k
  {
    hide EndOf, Low;
    EndMonotone(packets, k, p);
    WindowMonotone(EndOf(packets, k), First(packets, k));
    WindowMonotone(First(packets, k), First(packets, p));
    CloseLow(First(packets, p), First(packets, k));
  }

  lemma {:induction false} RoomFor(ids: seq<nat>, lo: nat, hi: nat)
    requires lo <= hi && forall i :: 0 <= i < |ids| ==> lo <= ids[i] < hi
    requires forall i, k :: 0 <= i < k < |ids| ==> ids[i] < ids[k]
    ensures |ids| <= hi - lo
  {
    if ids != [] { RoomFor(ids[1..], ids[0] + 1, hi); }
  }

  /** A copy only 3 windows behind, of a packet that starts 10 windows behind, is taken for new. */
  lemma LateFragment() returns (l: Link)
    ensures Reachable(l) && IsCommand(l.packets, 0, 0x6FFF) && (0, 0x6FFF) in l.commands
    ensures |l.channel.dispatched| == |l.packets| == 2 && l.channel.pending == []
    ensures SequenceNumbers.Window(EndOf(l.packets, 2)) == SequenceNumbers.Window(First(l.packets, 0)) + 10
    ensures SequenceNumbers.Window(EndOf(l.packets, 2)) == SequenceNumbers.Window(Number(l.packets, 0, 0x6FFF)) + 3
    ensures var result := Handle(l.channel, Fragment(l.packets[0], First(l.packets, 0), 0x6FFF), 0x7000, false);
            result.ok && |result.channel.pending| + |result.channel.dispatched| == 3
  {
    hide Units, Plain, Reachable, Safe, Handle;
    var packets := [Plain(0x7000, 0), Plain(0x3000, 0)];
    PlainUnits(0x7000, 0);
    PlainUnits(0x3000, 0);
    assert EndOf(packets, 1) == EndOf(packets, 0) + 0x7000;
    assert EndOf(packets, 2) == EndOf(packets, 1) + 0x3000;
    var ids;
    l, ids := PacketsThrough(packets, 2);
    ReachableOnNetwork(l);
    SafeSizes(l, 2, ids);
    RepresentsSizes(l.channel, packets, 2, ids);
    RoomFor(ids, 2, 2);
    StaleCopy(l.channel, packets, 2, ids, 0, 0x6FFF, 0x7000, false);
    SeemsNewMeaning(First(packets, 0), EndOf(packets, 2));
  }

  // ---- A packet mixed from two

  /** A packet is not handed on before its last command was sent. */
  lemma LastNotSent(l: Link, packets: seq<Packet>, done: nat, ids: seq<nat>, k: nat, i: nat)
    requires Safe(l, done, ids) && l.packets == packets && IsCommand(packets, k, i) && Number(packets, k, i) > l.sender.first
    ensures done <= k && |ids| == |l.channel.pending| && !Has(l.channel, done, ids, k, i)
  {
    hide Represents, Settled, Narrow, Low, EndOf, Deserved, Units;
    SafeSizes(l, done, ids);
    if done > k { HasDone(l.channel, done, ids, k, i); }
  }

  /** The entry of a packet of which something has arrived. */
  lemma EntryOf(l: Link, packets: seq<Packet>, done: nat, ids: seq<nat>, k: nat, i: nat) returns (at: nat)
    requires Safe(l, done, ids) && l.packets == packets && done <= k < |packets| && |ids| == |l.channel.pending|
    requires Has(l.channel, done, ids, k, i) && !Beyond(First(packets, k), EndOf(packets, done))
    ensures Known(l.channel, Low(First(packets, k))) && at == Before(l.channel.pending, l.channel.current, Low(First(packets, k)))
    ensures at < |ids| && ids[at] == k && IsEntry(l.channel.pending[at], packets, done, k)
  {
    hide EndOf, Low, Settled, Narrow, Deserved, Units, Known, IsEntry, Beyond;
    SafeSizes(l, done, ids);
    KnownEntry(l.channel, packets, done, ids, k);
    var j: nat :| j < |ids| && ids[j] == k;
    at := Before(l.channel.pending, l.channel.current, Low(First(packets, k)));
  }

  /** A copy of a fragment of packet 0 mixes into packet k if both have the same 16-bit number and size,
      and packet k lacks that fragment. */
  lemma WouldMix(l: Link, packets: seq<Packet>, done: nat, ids: seq<nat>, k: nat, at: nat, i: nat)
    requires Safe(l, done, ids) && l.packets == packets && done <= k && IsCommand(packets, k, i) && |ids| == |l.channel.pending|
    requires Low(First(packets, 0)) == Low(First(packets, k)) && Number(packets, k, i) > l.sender.first
    requires packets[0].limit == packets[k].limit && |packets[0].data| == |packets[k].data| && Count(packets[0]) > 0
    requires Known(l.channel, Low(First(packets, k))) && at == Before(l.channel.pending, l.channel.current, Low(First(packets, k)))
    requires at < |ids| && ids[at] == k && IsEntry(l.channel.pending[at], packets, done, k)
    ensures IsCommand(packets, 0, i) && MixesIn(l.channel, Fragment(packets[0], First(packets, 0), i))
    ensures l.channel.pending[at].count == Units(packets[k]) == |l.channel.pending[at].marks| && !l.channel.pending[at].marks[i]
    ensures |l.channel.pending[at].data| == |packets[k].data|
  {
    hide EndOf, Low, Settled, Narrow, Deserved, Known, Represents, Before;
    UnitsPositive(packets[0]);
    UnitsPositive(packets[k]);
    LastNotSent(l, packets, done, ids, k, i);
    if l.channel.pending[at].marks[i] { HasAt(l.channel, done, ids, at, i); }
  }

  /** Two packets of n one-byte fragments that share their 16-bit number: the old byte gets into the new
      packet. */
  lemma OldByte(e: Entry, n: nat, first: nat, i: nat)
    requires i < n <= MAXIMUM_FRAGMENTS && n > 1
    requires e.count == n == |e.marks| == |e.data| && !e.marks[i]
    ensures IsFragment(Plain(n, 1), i)
    ensures var cmd := Fragment(Plain(n, 1), first, i);
            && Fits(e, cmd) && cmd.fragment < cmd.count && cmd.offset + |cmd.payload| <= cmd.total
            && Marked(e, cmd).marks == e.marks[i := true] && |Marked(e, cmd).data| == n && Marked(e, cmd).data[i] == 1
            && Marked(e, cmd).remaining == e.remaining - 1 && Marked(e, cmd).number == e.number && Marked(e, cmd).count == n
  {
    hide Low;
    PlainUnits(n, 1);
  }

  predicate IsFragment(p: Packet, i: nat) {
    p.limit > 0 && i < Units(p)
  }

  /** 16 windows on, with all of packet 4 but its last fragment received: a copy of the last fragment of
      packet 0, which has the same 16-bit number, completes packet 4, and bytes are handed on that were
      never sent. */
  lemma WrongBytes() returns (l: Link)
    ensures Reachable(l) && IsCommand(l.packets, 0, 0xFFF) && (0, 0xFFF) in l.commands && |l.channel.dispatched| == 4
    ensures |l.packets| == 5 && Number(l.packets, 4, 0xFFF) == l.sender.first + 1
    ensures var result := Handle(l.channel, Fragment(l.packets[0], First(l.packets, 0), 0xFFF), 0x1000, false);
            |result.channel.dispatched| == 5 && result.channel.dispatched[4] != l.packets[4].data
  {
    hide Units, Plain, Reachable, Safe, Handle, SeemsNew;
    var packets := [Plain(0x1000, 1), Plain(0x7000, 0), Plain(0x7000, 0), Plain(0x1000, 0), Plain(0x1000, 0)];
    PlainUnits(0x1000, 1);
    PlainUnits(0x7000, 0);
    PlainUnits(0x1000, 0);
    assert EndOf(packets, 1) == EndOf(packets, 0) + 0x1000;
    assert EndOf(packets, 2) == EndOf(packets, 1) + 0x7000;
    assert EndOf(packets, 3) == EndOf(packets, 2) + 0x7000;
    assert EndOf(packets, 4) == EndOf(packets, 3) + 0x1000;
    assert EndOf(packets, 5) == EndOf(packets, 4) + 0x1000;
    var ids;
    l, ids := PacketsThrough(packets, 4);
    l, ids := AlmostAll(l, packets, ids, 4, 0xFFF);
    CompletesWrong(l, packets, ids);
  }

  /** All but the rest of packet k from command m on. */
  lemma AlmostAll(l: Link, packets: seq<Packet>, ids: seq<nat>, k: nat, m: nat) returns (l': Link, ids': seq<nat>)
    requires AllThrough(l, packets, ids, k) && k < |packets| && !Oversized(packets, k)
    requires packets[k].limit > 0 && m < Units(packets[k])
    ensures PartSent(l', packets, k, ids', k, m)
  {
    hide EndOf, Units, Has, Oversized, Safe, Reachable, Low;
    SafeSizes(l, k, ids);
    EndMonotone(packets, k, k + 1);
    var done;
    l', done, ids' := SendUpTo(l, packets, k, ids, k, 0, m);
    AtPacketFacts(l', packets, done, ids', k);
    LastNotSent(l', packets, done, ids', k, m);
  }

  lemma CompletesWrong(l: Link, packets: seq<Packet>, ids: seq<nat>)
    requires PartSent(l, packets, 4, ids, 4, 0xFFF) && |packets| == 5 && EndOf(packets, 4) == 0x10000 && EndOf(packets, 1) == 0x1000
    requires packets[0] == Plain(0x1000, 1) && packets[4] == Plain(0x1000, 0)
    ensures IsCommand(l.packets, 0, 0xFFF) && (0, 0xFFF) in l.commands && |l.channel.dispatched| == 4
    ensures var result := Handle(l.channel, Fragment(l.packets[0], First(l.packets, 0), 0xFFF), 0x1000, false);
            |result.channel.dispatched| == 5 && result.channel.dispatched[4] != l.packets[4].data
  {
    hide Units, Plain, Reachable, Safe, Handle, SeemsNew, EndOf, Has, Narrow, Represents, Settled, Low, Mark, Marked, MixesIn, Partial;
    PlainUnits(0x1000, 1);
    PlainUnits(0x1000, 0);
    AtPacketFacts(l, packets, 4, ids, 4);
    ReachableOnNetwork(l);
    NumberWithin(packets, 0, 0xFFF);
    RepresentsSizes(l.channel, packets, 4, ids);
    SameSixteenBits();
    NearFirst(packets, 4);
    assert Has(l.channel, 4, ids, 4, 0);
    var at := EntryOf(l, packets, 4, ids, 4, 0);
    OnlyOne(l.channel, packets, 4, ids, at);
    WouldMix(l, packets, 4, ids, 4, at, 0xFFF);
    StaleCopy(l.channel, packets, 4, ids, 0, 0xFFF, 0x1000, false);
    var e := l.channel.pending[0];
    OldByte(e, 0x1000, 1, 0xFFF);
    var cmd := Fragment(packets[0], First(packets, 0), 0xFFF);
    forall j: nat | j < 0xFFF ensures e.marks[j] {
      assert Has(l.channel, 4, ids, 4, j);
      OnlyEntry(l.channel, packets, 4, ids, j);
    }
    LastMissing(e, packets[4], 0xFFF);
    NextInSequence(l.channel, packets, 4, ids);
    FillsLast(l.channel, cmd);
    PlainByte(0x1000, 0xFFF);
  }

  /** Packet 4 starts at 65537, packet 0 at 1, and the receiver stands at 65536. */
  lemma SameSixteenBits()
    ensures Low(1) == Low(0x10001) == 1 && SeemsNew(1, 0x10000) && Low(0x10000) == 0
  {
  }

  lemma NearFirst(packets: seq<Packet>, k: nat)
    requires Stream(packets) && k < |packets|
    ensures !Beyond(First(packets, k), EndOf(packets, k))
  {
    NextWindow(EndOf(packets, k));
  }

  lemma OnlyOne(ch: Channel, packets: seq<Packet>, k: nat, ids: seq<nat>, at: nat)
    requires Represents(ch, packets, k, ids) && k + 1 == |packets| && at < |ids|
    ensures |ids| == |ch.pending| == 1 && at == 0 && ids[0] == k
  {
    hide IsEntry, Low, EndOf;
    RoomFor(ids, k, k + 1);
  }

  lemma LastMissing(e: Entry, p: Packet, i: nat)
    requires p.limit > 0 && Partial(e, p) && e.count > 0 && |e.marks| == i + 1 && !e.marks[i]
    requires forall j: nat :: j < i ==> e.marks[j]
    ensures e.remaining == 1
  {
    ClearSet(e.marks, i);
    ClearNone(e.marks[i := true]);
  }

  lemma FillsLast(ch: Channel, cmd: Command)
    requires |ch.pending| == 1 && MixesIn(ch, cmd) && cmd.offset + |cmd.payload| <= cmd.total
    requires ch.pending[0].remaining == 1 && ch.pending[0].number == Following(ch.current)
    ensures Mark(ch, cmd).dispatched == ch.dispatched + [Marked(ch.pending[0], cmd).data]
  {
    var e := Marked(ch.pending[0], cmd);
    var ch' := ch.(pending := ch.pending[0 := e]);
    assert e.number == ch.pending[0].number && e.remaining == 0;
    assert Mark(ch, cmd) == Dispatch(ch');
    var last := Channel(LastNumber(e), ch'.pending[1..], ch'.dispatched + [e.data]);
    assert Dispatch(ch') == Dispatch(last) && Dispatch(last) == last;
  }

  lemma PlainByte(n: nat, i: nat)
    requires i < n
    ensures i < |Plain(n, 0).data| && Plain(n, 0).data[i] == 0
  {
  }

  /** The last command of packet k is sent and delayed, and the first of the next packet arrives before it. */
  lemma Overtakes(l: Link, packets: seq<Packet>, ids: seq<nat>, k: nat, m: nat) returns (l': Link, ids': seq<nat>)
    requires PartSent(l, packets, k, ids, k, m) && !Oversized(packets, k) && m + 1 == Units(packets[k])
    requires k + 1 < |packets| && First(packets, k + 1) % WINDOW_SIZE != 0 && !Beyond(First(packets, k + 1), EndOf(packets, k))
    ensures Reachable(l') && Safe(l', k, ids') && l'.packets == packets && |ids'| == |l'.channel.pending|
    ensures l'.sender.first == First(packets, k + 1) && Has(l'.channel, k, ids', k + 1, 0)
  {
    hide EndOf, Units, Safe, Reachable, Has, Represents, Settled, Narrow, Low, Handle, SendNext, Oversized, Beyond;
    AtPacketFacts(l, packets, k, ids, k);
    MayGoOn(l, packets, k, ids, k, m);
    LastNotSent(l, packets, k, ids, k, m);
    UnitsPositive(packets[k + 1]);
    ReachableNext(l, Step.Send(k, m));
    SendSafe(l, Step.Send(k, m), k, ids);
    var last := After(l, Step.Send(k, m));
    SentFirst(l.sender);
    ReachableNext(last, Step.Send(k + 1, 0));
    SendSafe(last, Step.Send(k + 1, 0), k, ids);
    var next := After(last, Step.Send(k + 1, 0));
    SentFirst(last.sender);
    SafeSizes(next, k, ids);
    var step := Deliver(k + 1, 0, |packets[k + 1].data|, false);
    AheadNotStale(packets, k);
    ReachableNext(next, step);
    l' := After(next, step);
    var done';
    done', ids' := DeliverSafe(next, step, k, ids);
    SafeSizes(l', done', ids');
    NotYet(l, next, packets, ids, k, m, l', done', ids');
  }

  lemma SentFirst(s: Sender)
    ensures SendNext(s).first == s.first + 1
  {
  }

  lemma AheadNotStale(packets: seq<Packet>, k: nat)
    requires Stream(packets) && k + 1 < |packets|
    ensures NotStale(packets, k, k + 1)
  {
    UnitsPositive(packets[k]);
  }

  lemma NotYet(l: Link, next: Link, packets: seq<Packet>, ids: seq<nat>, k: nat, m: nat, l': Link, done': nat, ids': seq<nat>)
    requires next.channel == l.channel && |ids| == |l.channel.pending| && |ids'| == |l'.channel.pending| && k <= done'
    requires IsCommand(packets, k, m) && !Has(l.channel, k, ids, k, m)
    requires Gains(packets, (k + 1, 0), next.channel, k, ids, l'.channel, done', ids')
    ensures done' == k
  {
    if done' > k { HasDone(l'.channel, done', ids', k, m); }
  }

  /** A copy of a fragment of packet 0, which starts 11 windows behind, gets into packet 4, which has the
      same 16-bit number and has begun to arrive early. The true fragment has no effect any more. */
  lemma MixedIn() returns (l: Link, at: nat)
    ensures Reachable(l) && IsCommand(l.packets, 0, 5) && (0, 5) in l.commands && IsCommand(l.packets, 4, 5)
    ensures |l.channel.dispatched| == 3
    ensures SequenceNumbers.Window(EndOf(l.packets, 3)) == SequenceNumbers.Window(First(l.packets, 0)) + 11
    ensures var result := Handle(l.channel, Fragment(l.packets[0], First(l.packets, 0), 5), 0x1000, false);
            && result.ok && at < |result.channel.pending|
            && Mixed(result.channel.pending[at], l.packets[4], First(l.packets, 4), 5)
            && Handle(result.channel, Fragment(l.packets[4], First(l.packets, 4), 5), 0x1000, false) == Result(result.channel, true)
  {
    hide Units, Plain, Reachable, Safe, Handle, Has;
    var packets := [Plain(0x1000, 1), Plain(0x7000, 0), Plain(0x3000, 0), Plain(0x5000, 0), Plain(0x1000, 0)];
    PlainUnits(0x1000, 1);
    PlainUnits(0x7000, 0);
    PlainUnits(0x3000, 0);
    PlainUnits(0x5000, 0);
    PlainUnits(0x1000, 0);
    assert EndOf(packets, 1) == EndOf(packets, 0) + 0x1000;
    assert EndOf(packets, 2) == EndOf(packets, 1) + 0x7000;
    assert EndOf(packets, 3) == EndOf(packets, 2) + 0x3000;
    assert EndOf(packets, 4) == EndOf(packets, 3) + 0x5000;
    assert EndOf(packets, 5) == EndOf(packets, 4) + 0x1000;
    var ids;
    l, ids := PacketsThrough(packets, 3);
    l, ids := AlmostAll(l, packets, ids, 3, 0x4FFF);
    l, ids := Overtakes(l, packets, ids, 3, 0x4FFF);
    at := MixesEarly(l, packets, ids);
  }

  /** The entry is that of packet p, but holds a wrong byte as its fragment i. */
  ghost predicate Mixed(e: Entry, p: Packet, first: nat, i: nat) {
    && e.number == Low(first) && e.count == |e.marks| == |e.data| == |p.data|
    && i < e.count && e.marks[i] && e.data[i] != p.data[i]
  }

  lemma MixesEarly(l: Link, packets: seq<Packet>, ids: seq<nat>) returns (at: nat)
    requires Reachable(l) && Safe(l, 3, ids) && l.packets == packets && |ids| == |l.channel.pending| && |packets| == 5
    requires packets[0] == Plain(0x1000, 1) && packets[4] == Plain(0x1000, 0)
    requires EndOf(packets, 0) == 0 && EndOf(packets, 1) == 0x1000 && EndOf(packets, 3) == 0xB000 && EndOf(packets, 4) == 0x10000
    requires l.sender.first == 0x10001 && Has(l.channel, 3, ids, 4, 0)
    ensures IsCommand(packets, 0, 5) && (0, 5) in l.commands && IsCommand(packets, 4, 5) && |l.channel.dispatched| == 3
    ensures var result := Handle(l.channel, Fragment(packets[0], First(packets, 0), 5), 0x1000, false);
            && result.ok && at < |result.channel.pending|
            && Mixed(result.channel.pending[at], packets[4], First(packets, 4), 5)
            && Handle(result.channel, Fragment(packets[4], First(packets, 4), 5), 0x1000, false) == Result(result.channel, true)
  {
    hide Units, Plain, Reachable, Safe, Handle, SeemsNew, EndOf, Has, Narrow, Represents, Settled, Low, Mark, Marked, MixesIn, Partial, Known, Before, Fits;
    PlainUnits(0x1000, 1);
    PlainUnits(0x1000, 0);
    SafeSizes(l, 3, ids);
    ReachableOnNetwork(l);
    NumberWithin(packets, 0, 5);
    EarlyNumbers();
    at := EntryOf(l, packets, 3, ids, 4, 0);
    WouldMix(l, packets, 3, ids, 4, at, 5);
    WouldMix(l, packets, 3, ids, 4, at, 6);
    StaleCopy(l.channel, packets, 3, ids, 0, 5, 0x1000, false);
    var e, cmd := l.channel.pending[at], Fragment(packets[0], First(packets, 0), 5);
    OldByte(e, 0x1000, 1, 5);
    PlainByte(0x1000, 5);
    StillMissing(e, packets[4], 5, 6);
    MarkStays(l.channel, cmd, at);
    TrueIgnored(l.channel, packets, at, Marked(e, cmd));
  }

  lemma EarlyNumbers()
    ensures Low(1) == Low(0x10001) && SeemsNew(1, 0xB000) && !Beyond(0x10001, 0xB000)
  {
  }

  lemma StillMissing(e: Entry, p: Packet, i: nat, j: nat)
    requires p.limit > 0 && Partial(e, p) && e.count > 0 && i < |e.marks| && j < |e.marks| && i != j && !e.marks[i] && !e.marks[j]
    ensures e.remaining > 1
  {
    ClearSet(e.marks, i);
    ClearNone(e.marks[i := true]);
    assert !e.marks[i := true][j];
  }

  lemma MarkStays(ch: Channel, cmd: Command, at: nat)
    requires MixesIn(ch, cmd) && cmd.offset + |cmd.payload| <= cmd.total && at == Before(ch.pending, ch.current, cmd.start)
    requires at < |ch.pending| && ch.pending[at].remaining > 1
    ensures Mark(ch, cmd) == ch.(pending := ch.pending[at := Marked(ch.pending[at], cmd)])
  {
    hide Dispatch, Before;
  }

  /** With the wrong byte in place of fragment 5, the true fragment 5 is a repeat. */
  lemma TrueIgnored(ch: Channel, packets: seq<Packet>, at: nat, e: Entry)
    requires Stream(packets) && |packets| == 5 && packets[4] == Plain(0x1000, 0) && First(packets, 4) == 0x10001 && ch.current == Low(0xB000)
    requires Known(ch, Low(0x10001)) && at == Before(ch.pending, ch.current, Low(0x10001)) && at < |ch.pending|
    requires e.number == ch.pending[at].number && e.count == 0x1000 == |e.marks| == |e.data| && e.marks[5]
    ensures IsCommand(packets, 4, 5)
    ensures var ch' := ch.(pending := ch.pending[at := e]);
            Handle(ch', Fragment(packets[4], First(packets, 4), 5), 0x1000, false) == Result(ch', true)
  {
    hide Units, Plain, EndOf, Low, Dispatch, Before, Known, WellFormed;
    PlainUnits(0x1000, 0);
    var ch' := ch.(pending := ch.pending[at := e]);
    BeforeReplaced(ch.pending, ch.current, Low(0x10001), at, e);
    KnownReplaced(ch, Low(0x10001), at, e);
    var cmd := Fragment(packets[4], First(packets, 4), 5);
    WellFormedFragment(packets, 4, 5, 0x1000);
    EarlyAccepted();
    MarkSame(ch', cmd);
  }

  lemma KnownReplaced(ch: Channel, n: uint16, at: nat, e: Entry)
    requires Known(ch, n) && at == Before(ch.pending, ch.current, n) && at < |ch.pending| && e.number == ch.pending[at].number
    ensures Known(ch.(pending := ch.pending[at := e]), n)
  {
    BeforeReplaced(ch.pending, ch.current, n, at, e);
  }

  lemma EarlyAccepted()
    ensures Acceptable(Low(0x10001), Low(0xB000))
  {
  }
}
