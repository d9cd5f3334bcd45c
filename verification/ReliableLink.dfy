/** One channel between a sender and a connected receiver, over a network that loses, repeats and
    reorders commands and acknowledgements, as a machine that takes one step at a time. */
module ReliableLink {
  import opened Words
  import opened SequenceNumbers
  import opened Packets
  import opened Incoming
  import opened Arrival
  import opened Delivery

  /** first is the highest number sent so far; unacked holds the numbers sent and not acknowledged. */
  datatype Sender = Sender(first: nat, unacked: set<nat>)

  /** Every number of window w is unacknowledged. */
  ghost predicate FullWindow(s: Sender, w: nat) {
    forall q: nat :: SequenceNumbers.Window(q) == w ==> q in s.unacked
  }

  /** Before the first command of a window is sent, the window before it must not be entirely
      unacknowledged, and all unacknowledged numbers must be in the last 6 windows. */
  ghost predicate MaySendNext(s: Sender) {
    var q := s.first + 1;
    q % WINDOW_SIZE == 0 ==>
      && !FullWindow(s, SequenceNumbers.Window(q) - 1)
      && forall u: nat :: u in s.unacked ==> SequenceNumbers.Window(u) + FREE_WINDOWS - 2 >= SequenceNumbers.Window(q)
  }

  ghost function SendNext(s: Sender): Sender {
    Sender(s.first + 1, s.unacked + {s.first + 1})
  }

  /** An acknowledgement only carries the low 16 bits. */
  ghost function Acknowledge(s: Sender, n: uint16): Sender {
    s.(unacked := set u | u in s.unacked && Low(u) != n)
  }

  /** Everything sent and not acknowledged is within 7 windows. */
  ghost predicate Narrow(s: Sender) {
    forall u: nat :: u in s.unacked ==>
      0 < u <= s.first && SequenceNumbers.Window(u) + FREE_WINDOWS - 2 >= SequenceNumbers.Window(s.first)
  }

  lemma NextWindow(q: nat)
    ensures SequenceNumbers.Window(q + 1) == SequenceNumbers.Window(q) + if (q + 1) % WINDOW_SIZE == 0 then 1 else 0
  {
  }

  lemma SendNextNarrow(s: Sender)
    requires Narrow(s) && MaySendNext(s)
    ensures Narrow(SendNext(s))
  {
    NextWindow(s.first);
  }

  /** So no two of them have the same 16-bit number. */
  lemma NumbersDistinct(s: Sender, u: nat, v: nat)
    requires Narrow(s) && u in s.unacked && v in s.unacked && Low(u) == Low(v)
    ensures u == v
  {
    WindowMonotone(u, s.first);
    WindowMonotone(v, s.first);
    CloseLow(u, v);
  }

  lemma CloseLow(u: nat, v: nat)
    requires Low(u) == Low(v)
    requires SequenceNumbers.Window(u) < SequenceNumbers.Window(v) + WINDOWS
    requires SequenceNumbers.Window(v) < SequenceNumbers.Window(u) + WINDOWS
    ensures u == v
  {
    LowInjective(u, v);
  }

  /** An acknowledgement removes its own command alone exactly if no other command in flight has the
      same 16-bit number. That is so if it is for one of the last 16 windows sent. */
  lemma AcknowledgeRight(s: Sender, q: nat)
    ensures Acknowledge(s, Low(q)) == s.(unacked := s.unacked - {q}) <==>
            !exists u: nat :: u in s.unacked && u != q && Low(u) == Low(q)
    ensures Narrow(s) && q <= s.first && SequenceNumbers.Window(s.first) < SequenceNumbers.Window(q) + WINDOWS ==>
              Acknowledge(s, Low(q)) == s.(unacked := s.unacked - {q})
  {
    hide Low;
    if u: nat :| u in s.unacked && u != q && Low(u) == Low(q) {
      assert u in s.unacked - {q} && u !in Acknowledge(s, Low(q)).unacked;
      if Narrow(s) && q <= s.first && SequenceNumbers.Window(s.first) < SequenceNumbers.Window(q) + WINDOWS {
        WindowMonotone(q, s.first);
        WindowMonotone(u, s.first);
        CloseLow(u, q);
      }
    }
  }

  // ---- The machine

  /** commands and acks hold what has been put on the network, (packet, fragment) pairs and numbers.
      What is there may arrive any number of times, in any order, or never. */
  datatype Link = Link(packets: seq<Packet>, sender: Sender, channel: Channel, commands: set<(nat, nat)>, acks: set<nat>)

  datatype Step =
    | Queue(packet: Packet)
    | Send(p: nat, i: nat)
    | Resend(p: nat, i: nat)
    | Deliver(p: nat, i: nat, maximumSize: nat, full: bool)
    | DeliverAck(q: nat)

  function Number(packets: seq<Packet>, p: nat, i: nat): nat
    requires Stream(packets) && p < |packets|
  {
    First(packets, p) + i
  }

  ghost predicate Start(l: Link) {
    l == Link([], Sender(0, {}), Channel(0, [], []), {}, {})
  }

  /** A copy is delivered only if its packet does not start more than 9 windows behind the last
      number handed on, and an acknowledgement only if it is for one of the last 16 windows sent. */
  ghost predicate Enabled(l: Link, step: Step) {
    Stream(l.packets) &&
    match step
    case Queue(packet) => Sendable(packet)
    case Send(p, i) => IsCommand(l.packets, p, i) && Number(l.packets, p, i) == l.sender.first + 1 && MaySendNext(l.sender)
    case Resend(p, i) => IsCommand(l.packets, p, i) && Number(l.packets, p, i) in l.sender.unacked
    case Deliver(p, i, _, _) =>
      && (p, i) in l.commands && IsCommand(l.packets, p, i)
      && |l.channel.dispatched| <= |l.packets| && NotStale(l.packets, |l.channel.dispatched|, p)
    case DeliverAck(q) => q in l.acks && SequenceNumbers.Window(l.sender.first) < SequenceNumbers.Window(q) + WINDOWS
  }

  predicate NotStale(packets: seq<Packet>, done: nat, p: nat)
    requires Stream(packets) && done <= |packets| && p < |packets|
  {
    First(packets, p) <= EndOf(packets, done) ==>
      SequenceNumbers.Window(EndOf(packets, done)) <= SequenceNumbers.Window(First(packets, p)) + 9
  }

  ghost function After(l: Link, step: Step): Link
    requires Enabled(l, step)
  {
    match step
    case Queue(packet) => l.(packets := l.packets + [packet])
    case Send(p, i) => l.(sender := SendNext(l.sender), commands := l.commands + {(p, i)})
    case Resend(p, i) => l.(commands := l.commands + {(p, i)})
    case Deliver(p, i, maximumSize, full) =>
      var cmd := Fragment(l.packets[p], First(l.packets, p), i);
      var result := Handle(l.channel, cmd, maximumSize, full);
      l.(channel := result.channel,
         acks := if Acknowledged(result, cmd) then l.acks + {Number(l.packets, p, i)} else l.acks)
    case DeliverAck(q) => l.(sender := Acknowledge(l.sender, Low(q)))
  }

  // ---- What every step keeps

  /** The receiver has command number q: it handed it on, or stores it. */
  ghost predicate HasNumber(l: Link, done: nat, ids: seq<nat>, q: nat)
    requires Stream(l.packets) && |ids| == |l.channel.pending|
  {
    forall p: nat, i: nat :: IsCommand(l.packets, p, i) && Number(l.packets, p, i) == q ==> Has(l.channel, done, ids, p, i)
  }

  /** An acknowledgement for q is deserved, and q is less than 7 windows ahead of the receiver. */
  ghost predicate Deserved(l: Link, done: nat, ids: seq<nat>, q: nat)
    requires Stream(l.packets) && done <= |l.packets| && |ids| == |l.channel.pending|
  {
    && HasNumber(l, done, ids, q)
    && SequenceNumbers.Window(q) < SequenceNumbers.Window(EndOf(l.packets, done)) + FREE_WINDOWS - 1
  }

  /** The receiver has nothing that was not sent. */
  ghost predicate OnlySent(l: Link, done: nat, ids: seq<nat>)
    requires |ids| == |l.channel.pending|
  {
    forall p: nat, i: nat :: IsCommand(l.packets, p, i) && Has(l.channel, done, ids, p, i) ==> Number(l.packets, p, i) <= l.sender.first
  }

  ghost predicate Safe(l: Link, done: nat, ids: seq<nat>) {
    && Represents(l.channel, l.packets, done, ids) && Settled(l.channel)
    && Narrow(l.sender) && l.sender.first <= EndOf(l.packets, |l.packets|)
    && SequenceNumbers.Window(l.sender.first) <= SequenceNumbers.Window(EndOf(l.packets, done)) + FREE_WINDOWS - 1
    && (forall c :: c in l.commands ==> IsCommand(l.packets, c.0, c.1) && Number(l.packets, c.0, c.1) <= l.sender.first)
    && OnlySent(l, done, ids)
    && (forall q: nat :: q in l.acks ==> q <= l.sender.first && Deserved(l, done, ids, q))
    && (forall q: nat :: 0 < q <= l.sender.first && q !in l.sender.unacked ==> Deserved(l, done, ids, q))
  }

  lemma StartSafe(l: Link)
    requires Start(l)
    ensures Safe(l, 0, [])
  {
    assert DataOf([]) == [];
  }

  lemma SafeSizes(l: Link, done: nat, ids: seq<nat>)
    requires Safe(l, done, ids)
    ensures Stream(l.packets) && done <= |l.packets| && |ids| == |l.channel.pending|
    ensures |l.channel.dispatched| == done && l.channel.current == Low(EndOf(l.packets, done))
    ensures Represents(l.channel, l.packets, done, ids) && Settled(l.channel)
  {
  }

  // ---- Sending

  lemma SentDeserved(l: Link, done: nat, ids: seq<nat>, q: nat)
    requires Safe(l, done, ids) && 0 < q <= l.sender.first
    ensures q in l.sender.unacked
         || SequenceNumbers.Window(q) < SequenceNumbers.Window(EndOf(l.packets, done)) + FREE_WINDOWS - 1
  {
  }

  lemma LastOfWindow(q: nat, first: nat)
    requires SequenceNumbers.Window(q) == SequenceNumbers.Window(first) && (first + 1) % WINDOW_SIZE == 0
    ensures q <= first
  {
  }

  /** At the end of a window 7 ahead of the receiver, none of its numbers has been acknowledged. */
  lemma FullAhead(l: Link, done: nat, ids: seq<nat>)
    requires Safe(l, done, ids) && (l.sender.first + 1) % WINDOW_SIZE == 0
    requires SequenceNumbers.Window(l.sender.first) == SequenceNumbers.Window(EndOf(l.packets, done)) + FREE_WINDOWS - 1
    ensures FullWindow(l.sender, SequenceNumbers.Window(l.sender.first))
  {
    hide Safe, EndOf;
    forall q: nat | SequenceNumbers.Window(q) == SequenceNumbers.Window(l.sender.first) ensures q in l.sender.unacked {
      LastOfWindow(q, l.sender.first);
      SentDeserved(l, done, ids, q);
    }
  }

  /** While the receiver is 7 windows behind, the window before the next one cannot contain an
      acknowledged number, so the sender waits. */
  lemma SendSafe(l: Link, step: Step, done: nat, ids: seq<nat>)
    requires Safe(l, done, ids) && Enabled(l, step) && step.Send?
    ensures Safe(After(l, step), done, ids)
  {
    hide EndOf, Represents, Settled, Has, Low, First;
    var l' := After(l, step);
    SafeSizes(l, done, ids);
    SendNextNarrow(l.sender);
    NextWindow(l.sender.first);
    if SequenceNumbers.Window(l.sender.first) == SequenceNumbers.Window(EndOf(l.packets, done)) + FREE_WINDOWS - 1
       && (l.sender.first + 1) % WINDOW_SIZE == 0 {
      FullAhead(l, done, ids);
    }
    NumberLast(l.packets, step.p, step.i);
    forall q: nat | Deserved(l, done, ids, q) ensures Deserved(l', done, ids, q) {
      assert HasNumber(l, done, ids, q);
    }
  }

  lemma NumberLast(packets: seq<Packet>, p: nat, i: nat)
    requires IsCommand(packets, p, i)
    ensures 0 < First(packets, p) <= Number(packets, p, i) <= EndOf(packets, p + 1) <= EndOf(packets, |packets|)
  {
    hide Units;
    EndMonotone(packets, p + 1, |packets|);
  }

  lemma ResendSafe(l: Link, step: Step, done: nat, ids: seq<nat>)
    requires Safe(l, done, ids) && Enabled(l, step) && step.Resend?
    ensures Safe(After(l, step), done, ids)
  {
    hide EndOf, Represents, Settled, Has, Low, First;
    var l' := After(l, step);
    SafeSizes(l, done, ids);
    forall q: nat | Deserved(l, done, ids, q) ensures Deserved(l', done, ids, q) {
      assert HasNumber(l, done, ids, q);
    }
  }

  lemma AckSafe(l: Link, step: Step, done: nat, ids: seq<nat>)
    requires Safe(l, done, ids) && Enabled(l, step) && step.DeliverAck?
    ensures Safe(After(l, step), done, ids)
  {
    hide EndOf, Represents, Settled, Has, Low, First, Acknowledge;
    var l' := After(l, step);
    SafeSizes(l, done, ids);
    AcknowledgeRight(l.sender, step.q);
    forall q: nat | Deserved(l, done, ids, q) ensures Deserved(l', done, ids, q) {
      assert HasNumber(l, done, ids, q);
    }
  }

  // ---- Queueing

  lemma RepresentsExtends(ch: Channel, packets: seq<Packet>, more: seq<Packet>, done: nat, ids: seq<nat>)
    requires Represents(ch, packets, done, ids) && Stream(more) && packets <= more
    ensures Represents(ch, more, done, ids)
  {
    hide EndOf, Partial, Low;
    EndOfPrefix(packets, more, done);
    assert more[..done] == packets[..done];
    forall j | 0 <= j < |ids| ensures IsEntry(ch.pending[j], more, done, ids[j]) {
      EndOfPrefix(packets, more, ids[j]);
    }
  }

  lemma QueueSafe(l: Link, step: Step, done: nat, ids: seq<nat>)
    requires Safe(l, done, ids) && Enabled(l, step) && step.Queue?
    ensures Safe(After(l, step), done, ids)
  {
    hide EndOf, Represents, Settled, Has, Low, Narrow, Units;
    var l' := After(l, step);
    SafeSizes(l, done, ids);
    var k := |l.packets|;
    RepresentsExtends(l.channel, l.packets, l'.packets, done, ids);
    EndOfPrefix(l.packets, l'.packets, done);
    EndOfPrefix(l.packets, l'.packets, k);
    EndMonotone(l'.packets, k, k + 1);
    forall p: nat, i: nat | IsCommand(l.packets, p, i) ensures Number(l'.packets, p, i) == Number(l.packets, p, i) {
      EndOfPrefix(l.packets, l'.packets, p);
    }
    RepresentsSizes(l.channel, l.packets, done, ids);
    forall p: nat, i: nat | IsCommand(l'.packets, p, i) && Has(l'.channel, done, ids, p, i)
      ensures IsCommand(l.packets, p, i) && Has(l.channel, done, ids, p, i)
    {
      HasKnown(l.channel, l.packets, done, ids, p, i);
    }
    forall q: nat | q <= l.sender.first && Deserved(l, done, ids, q) ensures Deserved(l', done, ids, q) {
      forall p: nat, i: nat | IsCommand(l'.packets, p, i) && Number(l'.packets, p, i) == q
        ensures Has(l'.channel, done, ids, p, i)
      {
        assert p < k by { EndOfPrefix(l.packets, l'.packets, k); }
        assert IsCommand(l.packets, p, i);
      }
    }
  }

  lemma HasKnown(ch: Channel, packets: seq<Packet>, done: nat, ids: seq<nat>, p: nat, i: nat)
    requires |ids| == |ch.pending| && done <= |packets| && forall j :: 0 <= j < |ids| ==> ids[j] < |packets|
    requires Has(ch, done, ids, p, i)
    ensures p < |packets|
  {
  }

  // ---- Delivering

  lemma HandleArrives(ch: Channel, packets: seq<Packet>, done: nat, ids: seq<nat>, p: nat, i: nat, maximumSize: nat, full: bool)
    returns (done': nat, ids': seq<nat>)
    requires Represents(ch, packets, done, ids) && Settled(ch) && IsCommand(packets, p, i)
    requires Recent(First(packets, p), EndOf(packets, done))
    ensures var cmd := Fragment(packets[p], First(packets, p), i);
            && Arrives(ch, packets, done, ids, p, i, Handle(ch, cmd, maximumSize, full), done', ids')
            && (Handle(ch, cmd, maximumSize, full).ok <==> Welcome(packets, done, ids, p, i, maximumSize, full))
  {
    hide HandleReliable, HandleFragment, Represents, Settled, Arrives, EndOf, Recent;
    if Count(packets[p]) == 0 {
      done', ids' := ReliableArrives(ch, packets, done, ids, p, maximumSize, full);
    } else {
      done', ids' := FragmentArrives(ch, packets, done, ids, p, i, maximumSize, full);
    }
  }

  /** A command that is acknowledged is not too far ahead to be stored. */
  lemma AcknowledgedNear(packets: seq<Packet>, done: nat, p: nat, i: nat, first: nat)
    requires IsCommand(packets, p, i) && done <= |packets| && Number(packets, p, i) <= first
    requires SequenceNumbers.Window(first) <= SequenceNumbers.Window(EndOf(packets, done)) + FREE_WINDOWS - 1
    ensures Recent(First(packets, p), EndOf(packets, done)) <==> NotStale(packets, done, p)
    ensures !AckRefused(Low(Number(packets, p, i)), Low(EndOf(packets, done))) ==>
              SequenceNumbers.Window(Number(packets, p, i)) < SequenceNumbers.Window(EndOf(packets, done)) + FREE_WINDOWS - 1
  {
    hide EndOf, Low, Units;
    NumberLast(packets, p, i);
    var q, r := Number(packets, p, i), EndOf(packets, done);
    WindowMonotone(q, first);
    WindowMonotone(First(packets, p), q);
    if q > r { AheadMeaning(q, r); } else { WindowMonotone(q, r); }
  }

  lemma DeserveKept(l: Link, done: nat, ids: seq<nat>, l': Link, done': nat, ids': seq<nat>, at: (nat, nat), q: nat)
    requires Stream(l.packets) && l'.packets == l.packets && done <= done' <= |l.packets|
    requires |ids| == |l.channel.pending| && |ids'| == |l'.channel.pending|
    requires Gains(l.packets, at, l.channel, done, ids, l'.channel, done', ids') && Deserved(l, done, ids, q)
    ensures Deserved(l', done', ids', q)
  {
    hide EndOf, Has, First;
    EndMonotone(l.packets, done, done');
    WindowMonotone(EndOf(l.packets, done), EndOf(l.packets, done'));
    assert HasNumber(l, done, ids, q);
  }

  lemma NumberInjective(packets: seq<Packet>, p: nat, i: nat, q: nat, j: nat)
    requires IsCommand(packets, p, i) && IsCommand(packets, q, j) && Number(packets, p, i) == Number(packets, q, j)
    ensures p == q && i == j
  {
    hide Units;
    if p < q { EndMonotone(packets, p, q); }
    if q < p { EndMonotone(packets, q, p); }
  }

  /** What a delivered command does to the receiver, and whether it is handled. */
  ghost predicate Delivers(l: Link, step: Step, done: nat, ids: seq<nat>, done': nat, ids': seq<nat>)
    requires Represents(l.channel, l.packets, done, ids) && Enabled(l, step) && step.Deliver?
  {
    var cmd := Fragment(l.packets[step.p], First(l.packets, step.p), step.i);
    var result := Handle(l.channel, cmd, step.maximumSize, step.full);
    && Arrives(l.channel, l.packets, done, ids, step.p, step.i, result, done', ids')
    && (result.ok <==> Welcome(l.packets, done, ids, step.p, step.i, step.maximumSize, step.full))
  }

  lemma DeliverSafe(l: Link, step: Step, done: nat, ids: seq<nat>) returns (done': nat, ids': seq<nat>)
    requires Safe(l, done, ids) && Enabled(l, step) && step.Deliver?
    ensures Safe(After(l, step), done', ids') && done <= done'
    ensures Delivers(l, step, done, ids, done', ids')
  {
    hide EndOf, Represents, Settled, Has, Low, Narrow, Units, Handle, AckRefused, First, Gains, Fragment, Recent, NotStale, Beyond, Welcome;
    var l' := After(l, step);
    SafeSizes(l, done, ids);
    var p, i := step.p, step.i;
    var q := Number(l.packets, p, i);
    FragmentNumber(l.packets, p, i);
    AcknowledgedNear(l.packets, done, p, i, l.sender.first);
    done', ids' := HandleArrives(l.channel, l.packets, done, ids, p, i, step.maximumSize, step.full);
    RepresentsSizes(l'.channel, l'.packets, done', ids');
    DeliverKeeps(l, done, ids, l', done', ids', (p, i));
    var cmd := Fragment(l.packets[p], First(l.packets, p), i);
    var result := Handle(l.channel, cmd, step.maximumSize, step.full);
    if Acknowledged(result, cmd) {
      AckDeserved(l, done, ids, p, i, result, done', ids');
      assert l'.channel == result.channel && l'.packets == l.packets;
      DeservedSame(l.(channel := result.channel), l', done', ids', q);
    }
  }

  lemma FragmentNumber(packets: seq<Packet>, p: nat, i: nat)
    requires IsCommand(packets, p, i)
    ensures Fragment(packets[p], First(packets, p), i).number == Low(Number(packets, p, i))
  {
  }

  lemma DeservedSame(l: Link, l': Link, done: nat, ids: seq<nat>, q: nat)
    requires Stream(l.packets) && l'.packets == l.packets && l'.channel == l.channel && done <= |l.packets|
    requires |ids| == |l.channel.pending| && Deserved(l, done, ids, q)
    ensures Deserved(l', done, ids, q)
  {
    hide EndOf, Has, First;
    assert HasNumber(l, done, ids, q);
  }

  /** Apart from what a delivery adds, everything stays as it was. */
  lemma DeliverKeeps(l: Link, done: nat, ids: seq<nat>, l': Link, done': nat, ids': seq<nat>, at: (nat, nat))
    requires Safe(l, done, ids) && l'.packets == l.packets && l'.sender == l.sender && l'.commands == l.commands
    requires Represents(l'.channel, l'.packets, done', ids')
    requires |ids| == |l.channel.pending| && |ids'| == |l'.channel.pending|
    requires Gains(l.packets, at, l.channel, done, ids, l'.channel, done', ids')
    requires IsCommand(l.packets, at.0, at.1) && Number(l.packets, at.0, at.1) <= l.sender.first
    ensures done <= done' <= |l.packets| && OnlySent(l', done', ids')
    ensures SequenceNumbers.Window(l'.sender.first) <= SequenceNumbers.Window(EndOf(l'.packets, done')) + FREE_WINDOWS - 1
    ensures forall q: nat :: q in l.acks ==> q <= l'.sender.first && Deserved(l', done', ids', q)
    ensures forall q: nat :: 0 < q <= l'.sender.first && q !in l'.sender.unacked ==> Deserved(l', done', ids', q)
  {
    hide EndOf, Settled, Has, Low, Narrow, Units, First, Represents, Deserved;
    SafeSizes(l, done, ids);
    RepresentsSizes(l'.channel, l'.packets, done', ids');
    EndMonotone(l.packets, done, done');
    WindowMonotone(EndOf(l.packets, done), EndOf(l.packets, done'));
    forall q: nat | Deserved(l, done, ids, q) ensures Deserved(l', done', ids', q) {
      DeserveKept(l, done, ids, l', done', ids', at, q);
    }
  }

  /** What is acknowledged has arrived. */
  lemma AckDeserved(l: Link, done: nat, ids: seq<nat>, p: nat, i: nat, result: Result, done': nat, ids': seq<nat>)
    requires Safe(l, done, ids) && IsCommand(l.packets, p, i) && Number(l.packets, p, i) <= l.sender.first
    requires Represents(l.channel, l.packets, done, ids)
    requires Arrives(l.channel, l.packets, done, ids, p, i, result, done', ids')
    requires result.ok && !AckRefused(Low(Number(l.packets, p, i)), result.channel.current)
    ensures done' <= |l.packets| && |ids'| == |result.channel.pending|
    ensures Deserved(l.(channel := result.channel), done', ids', Number(l.packets, p, i))
  {
    hide EndOf, Settled, Has, Low, Narrow, Units, First, Represents, AckRefused, Gains;
    SafeSizes(l, done, ids);
    RepresentsSizes(result.channel, l.packets, done', ids');
    CurrentIs(result.channel, l.packets, done', ids');
    AdvanceWindow(l, done, ids, result, done', ids', (p, i));
    NumberLast(l.packets, p, i);
    AcknowledgedNear(l.packets, done', p, i, l.sender.first);
    WindowMonotone(First(l.packets, p), Number(l.packets, p, i));
    forall p': nat, i': nat | IsCommand(l.packets, p', i') && Number(l.packets, p', i') == Number(l.packets, p, i)
      ensures Has(result.channel, done', ids', p', i')
    {
      NumberInjective(l.packets, p, i, p', i');
    }
  }

  lemma AdvanceWindow(l: Link, done: nat, ids: seq<nat>, result: Result, done': nat, ids': seq<nat>, at: (nat, nat))
    requires Safe(l, done, ids)
    requires |ids| == |l.channel.pending| && |ids'| == |result.channel.pending| && done' <= |l.packets|
    requires Gains(l.packets, at, l.channel, done, ids, result.channel, done', ids')
    ensures Stream(l.packets)
    ensures SequenceNumbers.Window(l.sender.first) <= SequenceNumbers.Window(EndOf(l.packets, done')) + FREE_WINDOWS - 1
  {
    hide EndOf, Has;
    SafeSizes(l, done, ids);
    EndMonotone(l.packets, done, done');
    WindowMonotone(EndOf(l.packets, done), EndOf(l.packets, done'));
  }

  // ---- Runs

  lemma StepSafe(l: Link, step: Step, done: nat, ids: seq<nat>) returns (done': nat, ids': seq<nat>)
    requires Safe(l, done, ids) && Enabled(l, step)
    ensures Safe(After(l, step), done', ids') && done <= done'
  {
    hide Safe, Enabled, After;
    match step
    case Queue(_) => QueueSafe(l, step, done, ids); done', ids' := done, ids;
    case Send(_, _) => SendSafe(l, step, done, ids); done', ids' := done, ids;
    case Resend(_, _) => ResendSafe(l, step, done, ids); done', ids' := done, ids;
    case Deliver(_, _, _, _) => done', ids' := DeliverSafe(l, step, done, ids);
    case DeliverAck(_) => AckSafe(l, step, done, ids); done', ids' := done, ids;
  }

  ghost predicate Run(ls: seq<Link>, steps: seq<Step>) {
    && |ls| == |steps| + 1 && Start(ls[0])
    && forall i :: 0 <= i < |steps| ==> Enabled(ls[i], steps[i]) && ls[i + 1] == After(ls[i], steps[i])
  }

  lemma {:induction false} RunSafe(ls: seq<Link>, steps: seq<Step>, n: nat) returns (done: nat, ids: seq<nat>)
    requires Run(ls, steps) && n < |ls|
    ensures Safe(ls[n], done, ids)
  {
    hide Safe, Enabled, After, Start;
    if n == 0 {
      StartSafe(ls[0]);
      done, ids := 0, [];
    } else {
      done, ids := RunSafe(ls, steps, n - 1);
      done, ids := StepSafe(ls[n - 1], steps[n - 1], done, ids);
    }
  }

  /** Reliable delivery: what was handed on is a prefix of what was sent, in order and without repeats. */
  lemma DeliveredInOrder(ls: seq<Link>, steps: seq<Step>, n: nat)
    requires Run(ls, steps) && n < |ls|
    ensures ls[n].channel.dispatched <= DataOf(ls[n].packets)
    ensures Sorted(ls[n].channel.pending, ls[n].channel.current)
  {
    var done, ids := RunSafe(ls, steps, n);
    DataPrefix(ls[n].packets, done);
    RepresentsSorted(ls[n].channel, ls[n].packets, done, ids);
  }

  lemma DataPrefix(packets: seq<Packet>, done: nat)
    requires done <= |packets|
    ensures DataOf(packets[..done]) <= DataOf(packets)
  {
    assert DataOf(packets[..done]) == DataOf(packets)[..done];
  }

  /** Fragment i of packet p was handed on with its packet or is in the pending list. */
  ghost predicate StoredOrDispatched(ch: Channel, packets: seq<Packet>, p: nat, i: nat)
    requires IsCommand(packets, p, i)
  {
    || p < |ch.dispatched|
    || exists e :: e in ch.pending && e.number == Low(First(packets, p)) && Partial(e, packets[p]) && Holds(e, i)
  }

  /** Acknowledgement safety: every acknowledgement there is belongs to a command that the receiver
      has stored or handed on. */
  lemma AcknowledgedStored(ls: seq<Link>, steps: seq<Step>, n: nat, p: nat, i: nat)
    requires Run(ls, steps) && n < |ls| && IsCommand(ls[n].packets, p, i)
    requires Number(ls[n].packets, p, i) in ls[n].acks
    ensures StoredOrDispatched(ls[n].channel, ls[n].packets, p, i)
  {
    hide EndOf, Partial, Units, Settled, Low;
    var l := ls[n];
    var done, ids := RunSafe(ls, steps, n);
    SafeSizes(l, done, ids);
    assert Deserved(l, done, ids, Number(l.packets, p, i));
    assert Has(l.channel, done, ids, p, i);
    if p >= done {
      var j: nat :| j < |ids| && ids[j] == p && Holds(l.channel.pending[j], i);
      EntryNumber(l.channel, l.packets, done, ids, j);
    }
  }

  /** What the sender forgets has arrived. */
  lemma ForgottenStored(ls: seq<Link>, steps: seq<Step>, n: nat, p: nat, i: nat)
    requires Run(ls, steps) && n < |ls| && IsCommand(ls[n].packets, p, i)
    requires Number(ls[n].packets, p, i) <= ls[n].sender.first && Number(ls[n].packets, p, i) !in ls[n].sender.unacked
    ensures StoredOrDispatched(ls[n].channel, ls[n].packets, p, i)
  {
    hide EndOf, Partial, Units, Settled, Low;
    var l := ls[n];
    var done, ids := RunSafe(ls, steps, n);
    SafeSizes(l, done, ids);
    assert Deserved(l, done, ids, Number(l.packets, p, i));
    assert Has(l.channel, done, ids, p, i);
    if p >= done {
      var j: nat :| j < |ids| && ids[j] == p && Holds(l.channel.pending[j], i);
      EntryNumber(l.channel, l.packets, done, ids, j);
    }
  }

  /** Sender window: what is sent and not acknowledged is within 7 windows, so no two such commands
      share a 16-bit number. */
  lemma SenderWindow(ls: seq<Link>, steps: seq<Step>, n: nat, u: nat, v: nat)
    requires Run(ls, steps) && n < |ls| && u in ls[n].sender.unacked && v in ls[n].sender.unacked
    ensures SequenceNumbers.Window(u) <= SequenceNumbers.Window(v) + FREE_WINDOWS - 2
    ensures Low(u) == Low(v) ==> u == v
  {
    var done, ids := RunSafe(ls, steps, n);
    WindowMonotone(u, ls[n].sender.first);
    if Low(u) == Low(v) { NumbersDistinct(ls[n].sender, u, v); }
  }

  /** The sender is at most 7 windows ahead of the receiver. */
  lemma SenderAhead(ls: seq<Link>, steps: seq<Step>, n: nat)
    requires Run(ls, steps) && n < |ls|
    ensures Stream(ls[n].packets) && |ls[n].channel.dispatched| <= |ls[n].packets|
    ensures SequenceNumbers.Window(ls[n].sender.first)
         <= SequenceNumbers.Window(EndOf(ls[n].packets, |ls[n].channel.dispatched|)) + FREE_WINDOWS - 1
  {
    hide EndOf, Run;
    var done, ids := RunSafe(ls, steps, n);
    SafeSizes(ls[n], done, ids);
  }

  /** A packet of so many fragments that its last one is more than 7 windows ahead of the command before it. */
  predicate Oversized(packets: seq<Packet>, p: nat)
    requires Stream(packets) && p < |packets|
  {
    SequenceNumbers.Window(EndOf(packets, p + 1)) > SequenceNumbers.Window(EndOf(packets, p)) + FREE_WINDOWS - 1
  }

  lemma OversizedStays(l: Link, done: nat, ids: seq<nat>, p: nat, l': Link, done': nat, ids': seq<nat>)
    requires Safe(l, done, ids) && Safe(l', done', ids') && l'.sender.first == l.sender.first
    requires l.packets <= l'.packets && p < |l.packets| && Oversized(l.packets, p) && done <= p
    ensures done' <= p
  {
    hide EndOf, Represents, Settled, Has, Low, Narrow, Units, HasNumber;
    SafeSizes(l, done, ids);
    SafeSizes(l', done', ids');
    if done' > p {
      EndOfPrefix(l.packets, l'.packets, p + 1);
      EndMonotone(l.packets, done, p);
      WindowMonotone(EndOf(l.packets, done), EndOf(l.packets, p));
      LastCommand(l'.packets, p);
      HasDone(l'.channel, done', ids', p, Units(l'.packets[p]) - 1);
      WindowMonotone(EndOf(l.packets, p + 1), l.sender.first);
    }
  }

  lemma HasDone(ch: Channel, done: nat, ids: seq<nat>, p: nat, i: nat)
    requires |ids| == |ch.pending| && p < done
    ensures Has(ch, done, ids, p, i)
  {
  }

  lemma LastCommand(packets: seq<Packet>, p: nat)
    requires Stream(packets) && p < |packets|
    ensures Units(packets[p]) > 0 && IsCommand(packets, p, Units(packets[p]) - 1)
    ensures Number(packets, p, Units(packets[p]) - 1) == EndOf(packets, p + 1)
  {
    UnitsPositive(packets[p]);
  }

  lemma StepChannel(l: Link, step: Step)
    requires Enabled(l, step)
    ensures l.packets <= After(l, step).packets
    ensures if step.Deliver? then After(l, step).sender == l.sender && After(l, step).packets == l.packets
            else After(l, step).channel == l.channel
  {
    hide Handle, Fragment, Acknowledge, SendNext, MaySendNext, NotStale;
  }

  /** Such a packet may pass the limit on fragments, but it is never delivered, and nothing after it
      is: the sender may not send its last fragments before it is handed on. */
  lemma {:induction false} OversizedNeverDelivered(ls: seq<Link>, steps: seq<Step>, n: nat, packets: seq<Packet>, p: nat)
    requires Run(ls, steps) && n < |ls| && ls[n].packets <= packets
    requires Stream(packets) && p < |packets| && Oversized(packets, p)
    ensures |ls[n].channel.dispatched| <= p
  {
    hide Safe, Oversized, Enabled, After, EndOf;
    if n > 0 {
      var l, step := ls[n - 1], steps[n - 1];
      StepChannel(l, step);
      OversizedNeverDelivered(ls, steps, n - 1, packets, p);
      var done, ids := RunSafe(ls, steps, n - 1);
      var done', ids' := RunSafe(ls, steps, n);
      SafeSizes(l, done, ids);
      SafeSizes(ls[n], done', ids');
      if step.Deliver? && p < |l.packets| {
        OversizedPrefix(l.packets, packets, p);
        OversizedStays(l, done, ids, p, ls[n], done', ids');
      }
    }
  }

  lemma OversizedPrefix(packets: seq<Packet>, more: seq<Packet>, p: nat)
    requires Stream(packets) && Stream(more) && packets <= more && p < |packets|
    ensures Oversized(packets, p) == Oversized(more, p)
  {
    hide EndOf;
    EndOfPrefix(packets, more, p);
    EndOfPrefix(packets, more, p + 1);
  }
}
