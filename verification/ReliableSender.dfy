/** The sending side of a peer, from peer.c and protocol.c: packets cut into commands, commands sent
    for the first time, again after a timeout, and forgotten when they are acknowledged. */
module ReliableSender {
  import opened Words
  import opened SequenceNumbers
  import opened Packets
  import opened UsedWindows
  import opened SenderWindows
  import Link = ReliableLink

  /** A command with its 16-bit number, the times it was sent, the length of its data and that of the
      command itself; index is its number without wrap-around. */
  datatype Outgoing = Outgoing(channel: nat, number: uint16, attempts: nat, length: nat, size: nat, ghost index: nat)

  // ---- Lists of commands

  ghost function Pairs(s: seq<Outgoing>): (p: seq<(nat, nat)>)
    ensures |p| == |s| && forall i :: 0 <= i < |s| ==> p[i] == (s[i].channel, s[i].index)
  {
    seq(|s|, i requires 0 <= i < |s| => (s[i].channel, s[i].index))
  }

  ghost function Keys(s: seq<Outgoing>): multiset<(nat, nat)> {
    multiset(Pairs(s))
  }

  lemma KeysConcat(a: seq<Outgoing>, b: seq<Outgoing>)
    ensures Keys(a + b) == Keys(a) + Keys(b)
  {
    assert Pairs(a + b) == Pairs(a) + Pairs(b);
  }

  lemma KeysOne(e: Outgoing)
    ensures Keys([e]) == multiset{(e.channel, e.index)} && Keys([]) == multiset{}
  {
    assert Pairs([e]) == [(e.channel, e.index)];
  }

  lemma KeysSplit(s: seq<Outgoing>, i: nat)
    requires i < |s|
    ensures Keys(s) == Keys(s[..i] + s[i + 1..]) + multiset{(s[i].channel, s[i].index)}
  {
    assert s == s[..i] + [s[i]] + s[i + 1..];
    KeysConcat(s[..i] + [s[i]], s[i + 1..]);
    KeysConcat(s[..i], [s[i]]);
    KeysConcat(s[..i], s[i + 1..]);
    KeysOne(s[i]);
  }

  lemma KeysFind(s: seq<Outgoing>, k: (nat, nat)) returns (i: nat)
    requires Keys(s)[k] > 0
    ensures i < |s| && (s[i].channel, s[i].index) == k
  {
    assert k in Pairs(s);
    i :| i < |s| && Pairs(s)[i] == k;
  }

  function Lengths(s: seq<Outgoing>): nat {
    if s == [] then 0 else Lengths(s[..|s| - 1]) + s[|s| - 1].length
  }

  lemma {:induction false} LengthsConcat(a: seq<Outgoing>, b: seq<Outgoing>)
    ensures Lengths(a + b) == Lengths(a) + Lengths(b)
    decreases |b|
  {
    if b == [] {
      assert a + b == a;
    } else {
      assert (a + b)[..|a + b| - 1] == a + b[..|b| - 1];
      LengthsConcat(a, b[..|b| - 1]);
    }
  }

  lemma LengthsSplit(s: seq<Outgoing>, i: nat)
    requires i < |s|
    ensures Lengths(s) == Lengths(s[..i] + s[i + 1..]) + s[i].length
  {
    hide *;
    assert s == s[..i] + [s[i]] + s[i + 1..];
    LengthsConcat(s[..i] + [s[i]], s[i + 1..]);
    LengthsConcat(s[..i], [s[i]]);
    LengthsConcat(s[..i], s[i + 1..]);
    LengthsOne(s[i]);
  }

  /** How many commands of channel c there are. */
  function Of(s: seq<Outgoing>, c: nat): nat {
    if s == [] then 0 else Of(s[..|s| - 1], c) + if s[|s| - 1].channel == c then 1 else 0
  }

  lemma {:induction false} OfTail(s: seq<Outgoing>, c: nat)
    requires s != []
    ensures Of(s, c) == Of(s[1..], c) + if s[0].channel == c then 1 else 0
    decreases |s|
  {
    if |s| > 1 {
      OfTail(s[..|s| - 1], c);
      assert s[1..][..|s| - 2] == s[..|s| - 1][1..];
    }
  }

  // ---- What the lists and counters mean

  /** Commands in flight, that is, sent and not acknowledged: every number that a channel waits for
      is in exactly one of the two lists, once. */
  ghost predicate InFlight(retries: seq<Outgoing>, sent: seq<Outgoing>, views: seq<Link.Sender>) {
    forall c: nat, u: nat :: (Keys(retries) + Keys(sent))[(c, u)] == if c < |views| && u in views[c].unacked then 1 else 0
  }

  ghost predicate Proper(s: seq<Outgoing>, channels: nat) {
    forall i :: 0 <= i < |s| ==> s[i].channel < channels && s[i].number == Low(s[i].index)
  }

  /** Commands not sent yet are queued in the order of their numbers. */
  ghost predicate InOrder(unsent: seq<Outgoing>, views: seq<Link.Sender>) {
    forall i :: 0 <= i < |unsent| ==>
      unsent[i].attempts == 0 && unsent[i].channel < |views| &&
      unsent[i].index == views[unsent[i].channel].first + 1 + Of(unsent[..i], unsent[i].channel)
  }

  ghost predicate Numbered(channels: seq<ChannelOut>, unsent: seq<Outgoing>, views: seq<Link.Sender>) {
    && |channels| == |views|
    && forall c :: 0 <= c < |channels| ==>
         && channels[c].outgoing == Low(views[c].first + Of(unsent, c))
         && Counted(channels[c], views[c].unacked) && Link.Narrow(views[c])
  }

  /** t comes from s by sending numbers for the first time, one after the other, when that is allowed. */
  ghost predicate Sends(s: Link.Sender, t: Link.Sender, n: nat)
    decreases n
  {
    if n == 0 then s == t else exists r :: Sends(s, r, n - 1) && Link.MaySendNext(r) && t == Link.SendNext(r)
  }

  ghost predicate Reaches(s: Link.Sender, t: Link.Sender) {
    exists n: nat :: Sends(s, t, n)
  }

  class Peer {
    var channels: seq<ChannelOut>
    var outgoing: seq<Outgoing>
    var sent: seq<Outgoing>
    var reliableDataInTransit: nat
    ghost var retries: nat
    ghost var views: seq<Link.Sender>

    /** The commands to be sent again come before those not sent yet; the counters describe what is in
        flight. */
    ghost predicate Valid()
      reads this
    {
      && retries <= |outgoing|
      && (forall i :: 0 <= i < retries ==> outgoing[i].attempts > 0)
      && (forall i :: 0 <= i < |sent| ==> sent[i].attempts > 0)
      && Proper(outgoing, |views|) && Proper(sent, |views|)
      && InFlight(outgoing[..retries], sent, views)
      && InOrder(outgoing[retries..], views)
      && Numbered(channels, outgoing[retries..], views)
      && reliableDataInTransit == Lengths(sent)
    }

    /** The number of the last command queued on a channel. */
    ghost function Queued(c: nat): nat
      requires Valid() && c < |views|
      reads this
    {
      views[c].first + Of(outgoing[retries..], c)
    }

    constructor (channelCount: nat)
      ensures Valid() && |channels| == channelCount && outgoing == [] && sent == []
      ensures forall c :: 0 <= c < channelCount ==> views[c] == Link.Sender(0, {})
    {
      channels := seq(channelCount, _ => ChannelOut(0, seq(WINDOWS, _ => 0), 0));
      outgoing, sent, reliableDataInTransit := [], [], 0;
      retries := 0;
      views := seq(channelCount, _ => Link.Sender(0, {}));
      new;
      KeysEmpty();
      forall w: nat | w < WINDOWS ensures InWindow({}, w) == {} && !Used(0, w) {
        NoneUsed(w);
      }
    }

    /** Numbers a command and queues it. */
    method SetupOutgoing(c: nat, length: nat, size: nat) returns (number: uint16)
      requires Valid() && c < |channels|
      modifies this
      ensures Valid() && sent == old(sent) && views == old(views) && |channels| == old(|channels|)
      ensures number == Low(old(Queued(c)) + 1)
      ensures outgoing == old(outgoing) + [Outgoing(c, number, 0, length, size, old(Queued(c)) + 1)]
      ensures forall d: nat :: d < |views| ==> Queued(d) == old(Queued(d)) + if d == c then 1 else 0
    {
      hide Numbered, InOrder, InFlight, Lengths, Of, Low;
      ghost var unsent := outgoing[retries..];
      NumberedSizes(channels, unsent, views);
      ghost var e := Outgoing(c, Low(Queued(c) + 1), 0, length, size, Queued(c) + 1);
      number := (channels[c].outgoing + 1) % WORD16;
      AppendUnsent(channels, unsent, views, e);
      channels := channels[c := channels[c].(outgoing := number)];
      outgoing := outgoing + [Outgoing(c, number, 0, length, size, e.index)];
      assert outgoing[..retries] == old(outgoing[..retries]);
      assert outgoing[retries..] == unsent + [e];
    }

    /** Cuts a packet into fragments and queues them, or queues it whole if it is short. */
    method Send(connected: bool, c: nat, packet: Packet, maximumSize: nat, wholeSize: nat, fragmentSize: nat)
      returns (status: int, commands: seq<Command>)
      requires Valid() && packet.limit > 0
      modifies this
      ensures Valid() && |channels| == old(|channels|) == |views| == |old(views)| && sent == old(sent) && views == old(views)
      ensures status == 0 || status == -1
      ensures status == 0 <==>
                && connected && c < |channels| && |packet.data| <= maximumSize
                && (|packet.data| <= packet.limit || (|packet.data| + packet.limit - 1) / packet.limit <= 1048576)
      ensures status == -1 ==> outgoing == old(outgoing) && commands == []
      ensures status == 0 ==> commands == Fragments(packet, old(Queued(c)) + 1)
      ensures status == 0 ==> outgoing == old(outgoing) + Commands(c, commands, old(Queued(c)) + 1, if Packets.Count(packet) == 0 then wholeSize else fragmentSize)
      ensures forall d: nat :: d < |views| ==> Queued(d) == old(Queued(d)) + if d == c && status == 0 then Units(packet) else 0
    {
      hide Valid;
      ChannelsViews();
      commands := [];
      if !connected || c >= |channels| || |packet.data| > maximumSize {
        return -1, [];
      }
      ghost var first := Queued(c) + 1;
      if |packet.data| > packet.limit {
        var count := (|packet.data| + packet.limit - 1) / packet.limit;
        if count > MAXIMUM_FRAGMENTS {
          return -1, [];
        }
        var startNumber := StartNumber(c);
        var fragments := Cut(packet, count, startNumber, first);
        FragmentCount(packet);
        commands := QueueFragments(c, packet, fragments, first, fragmentSize);
        status := 0;
      } else {
        WholeFragment(packet, first);
        var number := SetupOutgoing(c, |packet.data|, wholeSize);
        CommandsAppend(c, commands, Command(number, number, 0, 0, 0, |packet.data|, packet.data), first, wholeSize);
        commands := [Command(number, number, 0, 0, 0, |packet.data|, packet.data)];
        assert commands == Fragments(packet, first);
        status := 0;
      }
    }

    method QueueFragments(c: nat, packet: Packet, fragments: seq<Command>, ghost first: nat, size: nat) returns (commands: seq<Command>)
      requires Valid() && packet.limit > 0 && c < |channels| == |views| && first == Queued(c) + 1
      requires |fragments| == Units(packet) && forall j: nat :: j < |fragments| ==> fragments[j] == Fragment(packet, first, j).(number := 0)
      modifies this
      ensures Valid() && |channels| == old(|channels|) == |views| && sent == old(sent) && views == old(views)
      ensures commands == Fragments(packet, first)
      ensures outgoing == old(outgoing) + Commands(c, commands, first, size)
      ensures forall d: nat :: d < |views| ==> Queued(d) == old(Queued(d)) + if d == c then Units(packet) else 0
    {
      hide Valid, Queued, Low;
      commands := [];
      CommandsAppend(c, [], Command(0, 0, 0, 0, 0, 0, []), first, size);
      for i := 0 to |fragments|
        invariant Valid() && |channels| == old(|channels|) == |views| && sent == old(sent) && views == old(views)
        invariant |commands| == i && forall j: nat :: j < i ==> commands[j] == Fragment(packet, first, j)
        invariant outgoing == old(outgoing) + Commands(c, commands, first, size)
        invariant forall d: nat :: d < |views| ==> Queued(d) == old(Queued(d)) + if d == c then i else 0
      {
        var number := SetupOutgoing(c, |fragments[i].payload|, size);
        CommandsAppend(c, commands, fragments[i].(number := number), first, size);
        commands := commands + [fragments[i].(number := number)];
      }
      assert commands == Fragments(packet, first);
    }

    /** The number the next command of a channel will get. */
    method StartNumber(c: nat) returns (number: uint16)
      requires Valid() && c < |channels|
      ensures c < |views| && number == Low(Queued(c) + 1)
    {
      hide InFlight, InOrder, Numbered, Proper, Lengths, Of, Low;
      NumberedSizes(channels, outgoing[retries..], views);
      NumberedOutgoing(channels, outgoing[retries..], views, c);
      number := (channels[c].outgoing + 1) % WORD16;
    }

    /** The fragments of a packet, not numbered yet. */
    method Cut(packet: Packet, count: nat, startNumber: uint16, ghost first: nat) returns (fragments: seq<Command>)
      requires packet.limit > 0 && |packet.data| > packet.limit && count == Packets.Count(packet) && startNumber == Low(first)
      ensures |fragments| == Units(packet)
      ensures forall j: nat :: j < |fragments| ==> fragments[j] == Fragment(packet, first, j).(number := 0)
    {
      hide Units, Offset, EndOffset, Packets.Count;
      var fragmentLength, fragmentOffset, fragmentNumber := packet.limit, 0, 0;
      fragments := [];
      UnitsPositive(packet);
      Offsets(packet, 0);
      while fragmentOffset < |packet.data|
        invariant fragmentNumber == |fragments| <= Units(packet)
        invariant fragmentNumber < Units(packet) ==> fragmentOffset == Offset(packet, fragmentNumber) && fragmentLength == packet.limit
        invariant fragmentNumber < Units(packet) <==> fragmentOffset < |packet.data|
        invariant forall j: nat :: j < fragmentNumber ==> fragments[j] == Fragment(packet, first, j).(number := 0)
        decreases Units(packet) - fragmentNumber
      {
        Offsets(packet, fragmentNumber);
        EndOffsetIs(packet, fragmentNumber);
        if |packet.data| - fragmentOffset < fragmentLength {
          fragmentLength := |packet.data| - fragmentOffset;
        }
        fragments := fragments + [Command(0, startNumber, count, fragmentNumber, fragmentOffset, |packet.data|,
                                          packet.data[fragmentOffset..fragmentOffset + fragmentLength])];
        fragmentNumber := fragmentNumber + 1;
        fragmentOffset := fragmentOffset + fragmentLength;
        if fragmentNumber < Units(packet) { Offsets(packet, fragmentNumber); }
      }
    }

    /** Sends the first queued command, for the first time or again. */
    method TransmitFront()
      requires Valid() && outgoing != []
      requires outgoing[0].attempts == 0 ==> Link.MaySendNext(views[outgoing[0].channel])
      modifies this
      ensures Valid() && |channels| == old(|channels|)
      ensures outgoing == old(outgoing)[1..]
      ensures sent == old(sent) + [old(outgoing)[0].(attempts := old(outgoing)[0].attempts + 1)]
      ensures var e := old(outgoing)[0];
              views == if e.attempts > 0 then old(views) else old(views)[e.channel := Link.SendNext(old(views)[e.channel])]
      ensures reliableDataInTransit == old(reliableDataInTransit) + old(outgoing)[0].length
    {
      hide InFlight, Numbered, InOrder, Link.MaySendNext, Lengths, CountUp;
      var e := outgoing[0];
      ghost var e' := e.(attempts := e.attempts + 1);
      LengthsConcat(sent, [e']);
      LengthsOne(e');
      assert outgoing[retries..] == if retries == 0 then outgoing else outgoing[1..][retries - 1..];
      if e.attempts < 1 {
        assert retries == 0 && outgoing[1..][..0] == outgoing[..0];
        NumberedSizes(channels, outgoing, views);
        FirstSent(channels, outgoing, views);
        FirstInFlight(outgoing[..0], sent, channels, outgoing, views, e');
        channels := channels[e.channel := CountUp(channels[e.channel], e.number)];
        views := views[e.channel := Link.SendNext(views[e.channel])];
        assert outgoing[1..][0..] == outgoing[1..];
      } else {
        UnsentAttempts(outgoing[retries..], views);
        assert outgoing[1..][..retries - 1] == outgoing[..retries][1..];
        RetryMoves(outgoing[..retries], sent, views, e');
        retries := retries - 1;
      }
      sent := sent + [e.(attempts := e.attempts + 1)];
      outgoing := outgoing[1..];
      reliableDataInTransit := reliableDataInTransit + e.length;
    }

    /** Sends the first queued command, unless something is in the way. */
    method TrySend(limit: nat, slots: nat, space: nat) returns (ok: bool)
      requires Valid() && outgoing != []
      modifies this
      ensures Valid() && |channels| == old(|channels|) == |views| == |old(views)|
      ensures !ok ==> outgoing == old(outgoing) && sent == old(sent) && views == old(views)
                      && reliableDataInTransit == old(reliableDataInTransit)
      ensures var e := old(outgoing)[0];
              && e.channel < |old(views)|
              && (ok <==> && (e.attempts > 0 || Link.MaySendNext(old(views)[e.channel]))
                          && old(reliableDataInTransit) + e.length <= limit && slots > 0 && e.size + e.length <= space)
      ensures ok ==> outgoing == old(outgoing)[1..] && sent == old(sent) + [old(outgoing)[0].(attempts := old(outgoing)[0].attempts + 1)]
      ensures ok ==> reliableDataInTransit == old(reliableDataInTransit) + old(outgoing)[0].length
      ensures forall c: nat :: c < |views| ==>
                views[c] == old(views)[c] || (Link.MaySendNext(old(views)[c]) && views[c] == Link.SendNext(old(views)[c]))
    {
      hide InFlight, Numbered, InOrder, Link.MaySendNext, Link.SendNext, Lengths, Blocked;
      NumberedSizes(channels, outgoing[retries..], views);
      var e := outgoing[0];
      FrontBlocked(channels, outgoing, retries, views);
      if e.attempts < 1 && Blocked(channels[e.channel], e.number) {
        return false;
      }
      if reliableDataInTransit + e.length > limit {
        return false;
      }
      if slots == 0 || space < e.size + e.length {
        return false;
      }
      TransmitFront();
      NumberedSizes(channels, outgoing[retries..], views);
      return true;
    }

    /** Sends queued commands from the front, as far as the windows, the data in transit and the
        datagram allow; what limits it is still there when it stops. */
    method CheckOutgoing(limit: nat, slots: nat, space: nat)
      returns (transmitted: seq<Outgoing>, slotsLeft: nat, spaceLeft: nat)
      requires Valid()
      modifies this
      ensures Valid() && |channels| == old(|channels|) == |views| == |old(views)|
      ensures |transmitted| <= |old(outgoing)| && transmitted == old(outgoing)[..|transmitted|]
      ensures outgoing == old(outgoing)[|transmitted|..] && sent == old(sent) + Tried(transmitted)
      ensures transmitted != [] ==> reliableDataInTransit <= limit
      ensures forall c: nat :: c < |views| ==> Reaches(old(views)[c], views[c])
      ensures slotsLeft == slots - |transmitted| && spaceLeft == space - Sizes(transmitted)
      ensures outgoing != [] ==>
                var e := outgoing[0];
                && e.channel < |views|
                && ((e.attempts == 0 && !Link.MaySendNext(views[e.channel]))
                    || reliableDataInTransit + e.length > limit || slotsLeft == 0 || spaceLeft < e.size + e.length)
    {
      hide Valid, Sizes, Reaches, Tried;
      transmitted, slotsLeft, spaceLeft := [], slots, space;
      ghost var start, all := views, outgoing;
      ChannelsViews();
      ReachesSame(start);
      SizesAppend([], []);
      TriedNone();
      while outgoing != []
        invariant Valid() && |channels| == |views| == |start|
        invariant |transmitted| <= |all| && transmitted == all[..|transmitted|] && outgoing == all[|transmitted|..]
        invariant sent == old(sent) + Tried(transmitted)
        invariant transmitted != [] ==> reliableDataInTransit <= limit
        invariant forall c: nat :: c < |start| ==> Reaches(start[c], views[c])
        invariant slotsLeft == slots - |transmitted| && spaceLeft == space - Sizes(transmitted)
        decreases |outgoing|
      {
        var e := outgoing[0];
        ghost var before := views;
        var ok := TrySend(limit, slotsLeft, spaceLeft);
        if !ok {
          break;
        }
        ReachesOn(start, before, views);
        SizesAppend(transmitted, [e]);
        TriedAppend(transmitted, e);
        transmitted := transmitted + [e];
        slotsLeft, spaceLeft := slotsLeft - 1, spaceLeft - e.size - e.length;
      }
    }

    lemma ChannelsViews()
      requires Valid()
      ensures |channels| == |views|
    {
    }

    /** Moves the commands whose time is over from the sent list to the front of the queue, in order, up
        to the first for which the connection is given up. */
    method CheckTimeouts(due: seq<bool>, lost: seq<bool>) returns (gaveUp: bool)
      requires Valid() && |due| == |lost| == |sent|
      modifies this
      ensures Valid() && views == old(views) && |channels| == old(|channels|)
      ensures gaveUp <==> exists i :: 0 <= i < |due| && due[i] && lost[i]
      ensures sent == Select(old(sent), Until(due, lost), false)
      ensures outgoing == Select(old(sent), Until(due, lost), true) + old(outgoing)
    {
      hide InFlight, Numbered, InOrder, Proper, Lengths, Select, FirstLost;
      ghost var start, queue, moved := sent, outgoing, Until(due, lost);
      gaveUp := MoveExpired(due, lost);
      SelectKeeps(start, moved, queue, |views|);
      SelectInFlight(start, moved, queue[..retries], views);
      ghost var at := |Select(start, moved, true)|;
      assert outgoing[..retries + at] == Select(start, moved, true) + queue[..retries];
      assert outgoing[retries + at..] == queue[retries..];
      retries := retries + at;
    }

    method MoveExpired(due: seq<bool>, lost: seq<bool>) returns (gaveUp: bool)
      requires |due| == |lost| == |sent| && reliableDataInTransit == Lengths(sent)
      modifies this`sent, this`outgoing, this`reliableDataInTransit
      ensures gaveUp <==> exists i :: 0 <= i < |due| && due[i] && lost[i]
      ensures sent == Select(old(sent), Until(due, lost), false)
      ensures outgoing == Select(old(sent), Until(due, lost), true) + old(outgoing)
      ensures reliableDataInTransit == Lengths(sent)
    {
      hide Lengths, Select, FirstLost;
      ghost var start, queue := sent, outgoing;
      var i, at := 0, 0;
      SelectNone(start, due);
      assert start[0..] == start && [] + queue == queue;
      while i < |due|
        invariant i <= |due| == |start|
        invariant at == |Select(start[..i], due[..i], true)|
        invariant sent == Select(start[..i], due[..i], false) + start[i..]
        invariant outgoing == Select(start[..i], due[..i], true) + queue
        invariant reliableDataInTransit == Lengths(sent)
        invariant forall j :: 0 <= j < i ==> !(due[j] && lost[j])
      {
        if due[i] && lost[i] {
          FirstLostIs(due, lost, i);
          SelectUntil(start, due, lost);
          return true;
        }
        var k := |sent| - (|due| - i);
        var e := sent[k];
        SelectStep(start, due, i);
        ghost var kept, gone := Select(start[..i], due[..i], false), Select(start[..i], due[..i], true);
        DropNext(kept, start, i);
        if due[i] {
          LengthsSplit(sent, k);
          InsertAfter(gone, e, queue);
          sent := sent[..k] + sent[k + 1..];
          reliableDataInTransit := reliableDataInTransit - e.length;
          outgoing := outgoing[..at] + [e] + outgoing[at..];
          at := at + 1;
        }
        i := i + 1;
      }
      FirstLostIs(due, lost, i);
      SelectUntil(start, due, lost);
      return false;
    }

    /** Forgets the command with a 16-bit number that has been sent and not acknowledged, if there is
        one: in the sent list, or in the queue to be sent again. */
    method Acknowledge(c: nat, n: uint16) returns (found: bool)
      requires Valid()
      modifies this
      ensures Valid() && |channels| == old(|channels|)
      ensures found <==> c < |old(views)| && exists u: nat :: u in old(views)[c].unacked && Low(u) == n
      ensures views == if c < |old(views)| then old(views)[c := Link.Acknowledge(old(views)[c], n)] else old(views)
      ensures !found ==> outgoing == old(outgoing) && sent == old(sent)
      ensures found ==> (Removed(old(sent), sent, c, n) && outgoing == old(outgoing))
                        || (Removed(old(outgoing), outgoing, c, n) && sent == old(sent))
    {
      hide InFlight, Numbered, InOrder, Proper, Lengths, CountDown, Link.Acknowledge;
      NumberedSizes(channels, outgoing[retries..], views);
      UnsentAttempts(outgoing[retries..], views);
      var i := 0;
      while i < |sent| && !(sent[i].number == n && sent[i].channel == c)
        invariant i <= |sent| && forall j :: 0 <= j < i ==> !(sent[j].number == n && sent[j].channel == c)
      {
        i := i + 1;
      }
      if i < |sent| {
        var e := sent[i];
        SentGone(channels, outgoing, retries, sent, views, i);
        LengthsSplit(sent, i);
        channels := channels[c := CountDown(channels[c], n)];
        views := views[c := Link.Acknowledge(views[c], n)];
        assert RemovedAt(sent, sent[..i] + sent[i + 1..], c, n, i);
        sent := sent[..i] + sent[i + 1..];
        reliableDataInTransit := reliableDataInTransit - e.length;
        return true;
      }
      i := 0;
      while i < |outgoing| && outgoing[i].attempts >= 1 && !(outgoing[i].number == n && outgoing[i].channel == c)
        invariant i <= retries && forall j :: 0 <= j < i ==> !(outgoing[j].number == n && outgoing[j].channel == c)
      {
        i := i + 1;
      }
      if i < |outgoing| { RetryIndex(outgoing, retries, views, i); }
      if i < |outgoing| && outgoing[i].attempts >= 1 {
        RetryGone(channels, outgoing, retries, sent, views, i);
        channels := channels[c := CountDown(channels[c], n)];
        views := views[c := Link.Acknowledge(views[c], n)];
        assert RemovedAt(outgoing, outgoing[..i] + outgoing[i + 1..], c, n, i);
        outgoing := outgoing[..i] + outgoing[i + 1..];
        retries := retries - 1;
        return true;
      }
      NothingGone(channels, outgoing, retries, sent, views, c, n);
      return false;
    }
  }

  // ---- Queueing

  /** The queue entries for some commands. */
  ghost function Commands(c: nat, commands: seq<Command>, first: nat, size: nat): (s: seq<Outgoing>)
    ensures |s| == |commands|
  {
    seq(|commands|, i requires 0 <= i < |commands| => Outgoing(c, commands[i].number, 0, |commands[i].payload|, size, first + i))
  }

  lemma CommandsAppend(c: nat, commands: seq<Command>, command: Command, first: nat, size: nat)
    ensures Commands(c, commands + [command], first, size)
         == Commands(c, commands, first, size) + [Outgoing(c, command.number, 0, |command.payload|, size, first + |commands|)]
    ensures Commands(c, [], first, size) == []
  {
  }

  lemma FragmentCount(p: Packet)
    requires p.limit > 0 && |p.data| > p.limit
    ensures Packets.Count(p) == (|p.data| + p.limit - 1) / p.limit && Units(p) == Packets.Count(p)
  {
    UnitsPositive(p);
  }

  lemma EndOffsetIs(p: Packet, i: nat)
    ensures EndOffset(p, i) == if Offset(p, i) + p.limit < |p.data| then Offset(p, i) + p.limit else |p.data|
  {
  }

  lemma WholeFragment(p: Packet, first: nat)
    requires p.limit > 0 && |p.data| <= p.limit
    ensures Units(p) == 1 && Fragment(p, first, 0) == Command(Low(first), Low(first), 0, 0, 0, |p.data|, p.data)
    ensures Packets.Count(p) == 0
  {
    UnitsPositive(p);
    Offsets(p, 0);
  }

  // ---- Sending

  /** The commands after one more attempt. */
  function Tried(s: seq<Outgoing>): (t: seq<Outgoing>)
    ensures |t| == |s| && forall i :: 0 <= i < |s| ==> t[i] == s[i].(attempts := s[i].attempts + 1)
  {
    seq(|s|, i requires 0 <= i < |s| => s[i].(attempts := s[i].attempts + 1))
  }

  lemma TriedNone()
    ensures Tried([]) == []
  {
  }

  lemma TriedAppend(s: seq<Outgoing>, e: Outgoing)
    ensures Tried(s + [e]) == Tried(s) + [e.(attempts := e.attempts + 1)]
  {
  }

  function Sizes(s: seq<Outgoing>): nat {
    if s == [] then 0 else Sizes(s[..|s| - 1]) + s[|s| - 1].size + s[|s| - 1].length
  }

  lemma SizesAppend(s: seq<Outgoing>, t: seq<Outgoing>)
    requires |t| <= 1
    ensures Sizes([]) == 0
    ensures t != [] ==> Sizes(s + t) == Sizes(s) + t[0].size + t[0].length
  {
    if t != [] { assert (s + t)[..|s + t| - 1] == s; }
  }

  lemma ReachesSame(views: seq<Link.Sender>)
    ensures forall c: nat :: c < |views| ==> Reaches(views[c], views[c])
  {
    forall c: nat | c < |views| ensures Reaches(views[c], views[c]) {
      assert Sends(views[c], views[c], 0);
    }
  }

  lemma ReachesOn(start: seq<Link.Sender>, before: seq<Link.Sender>, after: seq<Link.Sender>)
    requires |start| == |before| == |after|
    requires forall c: nat :: c < |start| ==> Reaches(start[c], before[c])
    requires forall c: nat :: c < |start| ==>
               after[c] == before[c] || (Link.MaySendNext(before[c]) && after[c] == Link.SendNext(before[c]))
    ensures forall c: nat :: c < |start| ==> Reaches(start[c], after[c])
  {
    hide Reaches, Link.MaySendNext, Link.SendNext;
    forall c: nat | c < |start| ensures Reaches(start[c], after[c]) {
      if after[c] != before[c] { ReachesNext(start[c], before[c]); }
    }
  }

  lemma ReachesNext(s: Link.Sender, r: Link.Sender)
    requires Reaches(s, r) && Link.MaySendNext(r)
    ensures Reaches(s, Link.SendNext(r))
  {
    var n: nat :| Sends(s, r, n);
    assert Sends(s, Link.SendNext(r), n + 1);
  }

  /** The test on the first command of the queue. */
  lemma FrontBlocked(channels: seq<ChannelOut>, outgoing: seq<Outgoing>, retries: nat, views: seq<Link.Sender>)
    requires outgoing != [] && retries <= |outgoing| && Proper(outgoing, |views|)
    requires forall i :: 0 <= i < retries ==> outgoing[i].attempts > 0
    requires InOrder(outgoing[retries..], views) && Numbered(channels, outgoing[retries..], views)
    ensures var e := outgoing[0];
            && e.channel < |channels| == |views| && |channels[e.channel].windows| == WINDOWS
            && (e.attempts == 0 ==> (Blocked(channels[e.channel], e.number) <==> !Link.MaySendNext(views[e.channel])))
  {
    hide Counted, Link.Narrow, Link.MaySendNext, Blocked, Of, Low;
    var e := outgoing[0];
    CountedSizes(channels[e.channel], views[e.channel].unacked);
    if e.attempts == 0 {
      assert outgoing[retries..][0] == e;
      OfNone(outgoing[retries..][..0], e.channel);
      BlockedMeans(channels[e.channel], views[e.channel]);
    }
  }

  // ---- Timeouts

  /** The commands whose mark is b. */
  function Select(s: seq<Outgoing>, marks: seq<bool>, b: bool): seq<Outgoing>
    requires |s| == |marks|
  {
    if s == [] then []
    else
      var n := |s| - 1;
      if marks[n] == b then Select(s[..n], marks[..n], b) + [s[n]] else Select(s[..n], marks[..n], b)
  }

  lemma DropNext<T>(kept: seq<T>, s: seq<T>, i: nat)
    requires i < |s|
    ensures var all := kept + s[i..];
            && all[|kept|] == s[i]
            && all[..|kept|] + all[|kept| + 1..] == kept + s[i + 1..]
            && all == kept + [s[i]] + s[i + 1..]
  {
  }

  lemma InsertAfter<T>(a: seq<T>, x: T, b: seq<T>)
    ensures (a + b)[..|a|] + [x] + (a + b)[|a|..] == a + [x] + b
  {
  }

  /** The first command that is due and lost. */
  ghost function FirstLost(due: seq<bool>, lost: seq<bool>): (n: nat)
    requires |due| == |lost|
    ensures n <= |due| && (n < |due| ==> due[n] && lost[n]) && forall j :: 0 <= j < n ==> !(due[j] && lost[j])
  {
    if due == [] || (due[0] && lost[0]) then 0 else 1 + FirstLost(due[1..], lost[1..])
  }

  lemma FirstLostIs(due: seq<bool>, lost: seq<bool>, n: nat)
    requires |due| == |lost| && n <= |due| && (n < |due| ==> due[n] && lost[n])
    requires forall j :: 0 <= j < n ==> !(due[j] && lost[j])
    ensures FirstLost(due, lost) == n
  {
    hide FirstLost;
  }

  /** What is due, up to there. */
  ghost function Until(due: seq<bool>, lost: seq<bool>): (u: seq<bool>)
    requires |due| == |lost|
    ensures |u| == |due| && forall i :: 0 <= i < |u| ==> u[i] == (due[i] && i < FirstLost(due, lost))
  {
    seq(|due|, i requires 0 <= i < |due| => due[i] && i < FirstLost(due, lost))
  }

  lemma SelectUntil(s: seq<Outgoing>, due: seq<bool>, lost: seq<bool>)
    requires |s| == |due| == |lost|
    ensures var n := FirstLost(due, lost);
            && Select(s, Until(due, lost), true) == Select(s[..n], due[..n], true)
            && Select(s, Until(due, lost), false) == Select(s[..n], due[..n], false) + s[n..]
  {
    hide Select, FirstLost;
    var n, u := FirstLost(due, lost), Until(due, lost);
    assert u[..n] == due[..n];
    SelectRest(s, u, n, |s|);
    assert s[..|s|] == s && u[..|s|] == u;
  }

  /** Nothing marked behind n. */
  lemma {:induction false} SelectRest(s: seq<Outgoing>, u: seq<bool>, n: nat, m: nat)
    requires n <= m <= |s| == |u| && forall i :: n <= i < |u| ==> !u[i]
    ensures Select(s[..m], u[..m], true) == Select(s[..n], u[..n], true)
    ensures Select(s[..m], u[..m], false) == Select(s[..n], u[..n], false) + s[n..m]
  {
    hide Select;
    if n < m {
      SelectRest(s, u, n, m - 1);
      SelectStep(s, u, m - 1);
      assert s[n..m] == s[n..m - 1] + [s[m - 1]];
    }
  }

  lemma SelectNone(s: seq<Outgoing>, marks: seq<bool>)
    requires |s| == |marks|
    ensures Select(s[..0], marks[..0], true) == [] && Select(s[..0], marks[..0], false) == []
  {
  }

  lemma SelectStep(s: seq<Outgoing>, marks: seq<bool>, i: nat)
    requires i < |s| == |marks|
    ensures forall b: bool :: Select(s[..i + 1], marks[..i + 1], b)
              == if marks[i] == b then Select(s[..i], marks[..i], b) + [s[i]] else Select(s[..i], marks[..i], b)
  {
    assert s[..i + 1][..i] == s[..i] && marks[..i + 1][..i] == marks[..i];
  }

  lemma {:induction false} SelectKeys(s: seq<Outgoing>, marks: seq<bool>)
    requires |s| == |marks|
    ensures Keys(s) == Keys(Select(s, marks, true)) + Keys(Select(s, marks, false))
    ensures forall b: bool, i :: 0 <= i < |Select(s, marks, b)| ==> Select(s, marks, b)[i] in s
    decreases |s|
  {
    hide Keys;
    if s == [] {
      KeysEmpty();
    } else {
      var n := |s| - 1;
      SelectKeys(s[..n], marks[..n]);
      KeysConcat(s[..n], [s[n]]);
      assert s == s[..n] + [s[n]];
      KeysConcat(Select(s[..n], marks[..n], marks[n]), [s[n]]);
    }
  }

  lemma SelectKeeps(s: seq<Outgoing>, marks: seq<bool>, queue: seq<Outgoing>, channels: nat)
    requires |s| == |marks| && Proper(s, channels) && Proper(queue, channels)
    requires forall i :: 0 <= i < |s| ==> s[i].attempts > 0
    ensures Proper(Select(s, marks, true) + queue, channels) && Proper(Select(s, marks, false), channels)
    ensures forall b: bool, i :: 0 <= i < |Select(s, marks, b)| ==> Select(s, marks, b)[i].attempts > 0
  {
    hide Keys, Select, Low;
    SelectKeys(s, marks);
  }

  lemma SelectInFlight(s: seq<Outgoing>, marks: seq<bool>, retries: seq<Outgoing>, views: seq<Link.Sender>)
    requires |s| == |marks| && InFlight(retries, s, views)
    ensures InFlight(Select(s, marks, true) + retries, Select(s, marks, false), views)
  {
    hide Keys, Select;
    SelectKeys(s, marks);
    KeysConcat(Select(s, marks, true), retries);
  }

  // ---- Acknowledgements

  /** The commands to be sent again are those that were sent. */
  lemma RetryIndex(outgoing: seq<Outgoing>, retries: nat, views: seq<Link.Sender>, i: nat)
    requires retries <= |outgoing| && i < |outgoing| && InOrder(outgoing[retries..], views)
    requires forall j :: 0 <= j < retries ==> outgoing[j].attempts > 0
    ensures outgoing[i].attempts >= 1 <==> i < retries
  {
    hide Of;
    if i >= retries { assert outgoing[retries..][i - retries] == outgoing[i]; }
  }

  /** after is before without one command that was sent, of that channel and number. */
  ghost predicate Removed(before: seq<Outgoing>, after: seq<Outgoing>, c: nat, n: uint16) {
    exists i: nat :: RemovedAt(before, after, c, n, i)
  }

  ghost predicate RemovedAt(before: seq<Outgoing>, after: seq<Outgoing>, c: nat, n: uint16, i: nat) {
    && i < |before| && before[i].channel == c && before[i].number == n && before[i].attempts >= 1
    && after == before[..i] + before[i + 1..]
  }

  /** The number of a command in flight is one the channel waits for. */
  lemma InFlightView(retries: seq<Outgoing>, sent: seq<Outgoing>, views: seq<Link.Sender>, c: nat, u: nat)
    requires InFlight(retries, sent, views)
    ensures (Keys(retries) + Keys(sent))[(c, u)] > 0 <==> c < |views| && u in views[c].unacked
  {
  }

  lemma AcknowledgeOne(s: Link.Sender, u: nat)
    requires Link.Narrow(s) && u in s.unacked
    ensures Link.Acknowledge(s, Low(u)) == s.(unacked := s.unacked - {u}) && Link.Narrow(Link.Acknowledge(s, Low(u)))
  {
    forall v: nat | v in s.unacked && Low(v) == Low(u) ensures v == u {
      Link.NumbersDistinct(s, u, v);
    }
  }

  /** Forgetting one command in flight. */
  lemma OneGone(channels: seq<ChannelOut>, unsent: seq<Outgoing>, views: seq<Link.Sender>, retries: seq<Outgoing>, sent: seq<Outgoing>,
                retries': seq<Outgoing>, sent': seq<Outgoing>, e: Outgoing)
    requires Numbered(channels, unsent, views) && InOrder(unsent, views) && InFlight(retries, sent, views)
    requires e.channel < |views| && e.number == Low(e.index)
    requires Keys(retries) + Keys(sent) == Keys(retries') + Keys(sent') + multiset{(e.channel, e.index)}
    ensures |channels| == |views| && |channels[e.channel].windows| == WINDOWS && e.index in views[e.channel].unacked
    ensures var c := e.channel;
            var views' := views[c := Link.Acknowledge(views[c], e.number)];
            && Numbered(channels[c := CountDown(channels[c], e.number)], unsent, views') && InOrder(unsent, views')
            && InFlight(retries', sent', views')
  {
    hide Keys, Counted, Link.Narrow, Link.Acknowledge, Of, Low, CountDown;
    var c := e.channel;
    InFlightView(retries, sent, views, c, e.index);
    AcknowledgeOne(views[c], e.index);
    CountedSizes(channels[c], views[c].unacked);
    UncountGone(channels[c], views[c].unacked, e.index);
    CountDownKeeps(channels[c], e.number);
  }

  lemma CountDownKeeps(ch: ChannelOut, n: uint16)
    requires |ch.windows| == WINDOWS
    ensures CountDown(ch, n).outgoing == ch.outgoing
  {
  }

  lemma SentGone(channels: seq<ChannelOut>, outgoing: seq<Outgoing>, retries: nat, sent: seq<Outgoing>, views: seq<Link.Sender>, i: nat)
    requires retries <= |outgoing| && i < |sent| && Proper(sent, |views|)
    requires InFlight(outgoing[..retries], sent, views)
    requires InOrder(outgoing[retries..], views) && Numbered(channels, outgoing[retries..], views)
    ensures var e := sent[i];
            && e.channel < |channels| == |views| && |channels[e.channel].windows| == WINDOWS
            && e.index in views[e.channel].unacked && Low(e.index) == e.number
            && (var c := e.channel;
                var views' := views[c := Link.Acknowledge(views[c], e.number)];
                && Numbered(channels[c := CountDown(channels[c], e.number)], outgoing[retries..], views')
                && InOrder(outgoing[retries..], views')
                && InFlight(outgoing[..retries], sent[..i] + sent[i + 1..], views'))
            && Proper(sent[..i] + sent[i + 1..], |views|)
  {
    hide Keys, Numbered, InOrder, InFlight, Link.Acknowledge, CountDown, Low;
    KeysSplit(sent, i);
    OneGone(channels, outgoing[retries..], views, outgoing[..retries], sent, outgoing[..retries], sent[..i] + sent[i + 1..], sent[i]);
  }

  lemma RetryGone(channels: seq<ChannelOut>, outgoing: seq<Outgoing>, retries: nat, sent: seq<Outgoing>, views: seq<Link.Sender>, i: nat)
    requires i < retries <= |outgoing| && Proper(outgoing, |views|)
    requires InFlight(outgoing[..retries], sent, views)
    requires InOrder(outgoing[retries..], views) && Numbered(channels, outgoing[retries..], views)
    ensures var e := outgoing[i];
            var outgoing' := outgoing[..i] + outgoing[i + 1..];
            && e.channel < |channels| == |views| && |channels[e.channel].windows| == WINDOWS
            && e.index in views[e.channel].unacked && Low(e.index) == e.number
            && outgoing'[retries - 1..] == outgoing[retries..]
            && (var c := e.channel;
                var views' := views[c := Link.Acknowledge(views[c], e.number)];
                && Numbered(channels[c := CountDown(channels[c], e.number)], outgoing'[retries - 1..], views')
                && InOrder(outgoing'[retries - 1..], views')
                && InFlight(outgoing'[..retries - 1], sent, views'))
            && Proper(outgoing', |views|)
  {
    hide Keys, Numbered, InOrder, InFlight, Link.Acknowledge, CountDown, Low;
    var outgoing' := outgoing[..i] + outgoing[i + 1..];
    assert outgoing'[retries - 1..] == outgoing[retries..];
    assert outgoing'[..retries - 1] == outgoing[..retries][..i] + outgoing[..retries][i + 1..];
    KeysSplit(outgoing[..retries], i);
    OneGone(channels, outgoing[retries..], views, outgoing[..retries], sent, outgoing'[..retries - 1], sent, outgoing[i]);
  }

  lemma NothingGone(channels: seq<ChannelOut>, outgoing: seq<Outgoing>, retries: nat, sent: seq<Outgoing>, views: seq<Link.Sender>,
                    c: nat, n: uint16)
    requires retries <= |outgoing| && Proper(outgoing, |views|) && Proper(sent, |views|)
    requires InFlight(outgoing[..retries], sent, views)
    requires forall j :: 0 <= j < |sent| ==> !(sent[j].number == n && sent[j].channel == c)
    requires forall j :: 0 <= j < retries ==> !(outgoing[j].number == n && outgoing[j].channel == c)
    ensures c < |views| ==> (forall u: nat :: u in views[c].unacked ==> Low(u) != n) && Link.Acknowledge(views[c], n) == views[c]
  {
    hide Keys, InFlight, Low;
    if c < |views| {
      forall u: nat | u in views[c].unacked ensures Low(u) != n {
        InFlightView(outgoing[..retries], sent, views, c, u);
        if Keys(sent)[(c, u)] > 0 {
          var j := KeysFind(sent, (c, u));
        } else {
          var j := KeysFind(outgoing[..retries], (c, u));
          assert outgoing[j].channel == c && outgoing[j].index == u;
        }
      }
    }
  }

  lemma NumberedSizes(channels: seq<ChannelOut>, unsent: seq<Outgoing>, views: seq<Link.Sender>)
    requires Numbered(channels, unsent, views)
    ensures |channels| == |views| && forall c :: 0 <= c < |channels| ==> |channels[c].windows| == WINDOWS
  {
  }

  lemma NumberedOutgoing(channels: seq<ChannelOut>, unsent: seq<Outgoing>, views: seq<Link.Sender>, c: nat)
    requires Numbered(channels, unsent, views) && c < |channels| == |views|
    ensures (channels[c].outgoing + 1) % WORD16 == Low(views[c].first + Of(unsent, c) + 1)
  {
    hide Counted, Link.Narrow, Of;
    LowAdd(views[c].first + Of(unsent, c), 1);
  }

  lemma AppendUnsent(channels: seq<ChannelOut>, unsent: seq<Outgoing>, views: seq<Link.Sender>, e: Outgoing)
    requires InOrder(unsent, views) && Numbered(channels, unsent, views)
    requires e.channel < |channels| == |views| && e.attempts == 0 && e.index == views[e.channel].first + Of(unsent, e.channel) + 1
    ensures var c := e.channel;
            var n := (channels[c].outgoing + 1) % WORD16;
            && n == Low(e.index)
            && InOrder(unsent + [e], views) && Numbered(channels[c := channels[c].(outgoing := n)], unsent + [e], views)
            && forall d: nat :: d < |views| ==> Of(unsent + [e], d) == Of(unsent, d) + if d == c then 1 else 0
  {
    hide Numbered, InOrder, Of;
    OfAppend(unsent, e);
    AppendInOrder(unsent, views, e);
    AppendNumbered(channels, unsent, views, e);
  }

  lemma OfAppend(s: seq<Outgoing>, e: Outgoing)
    ensures forall d: nat :: Of(s + [e], d) == Of(s, d) + if d == e.channel then 1 else 0
  {
    assert (s + [e])[..|s|] == s;
  }

  lemma AppendInOrder(unsent: seq<Outgoing>, views: seq<Link.Sender>, e: Outgoing)
    requires InOrder(unsent, views) && e.channel < |views| && e.attempts == 0
    requires e.index == views[e.channel].first + Of(unsent, e.channel) + 1
    ensures InOrder(unsent + [e], views)
  {
    hide Of;
    forall i | 0 <= i <= |unsent| ensures (unsent + [e])[..i] == unsent[..i] {
    }
    assert unsent[..|unsent|] == unsent;
  }

  lemma AppendNumbered(channels: seq<ChannelOut>, unsent: seq<Outgoing>, views: seq<Link.Sender>, e: Outgoing)
    requires Numbered(channels, unsent, views) && e.channel < |channels| == |views|
    requires e.index == views[e.channel].first + Of(unsent, e.channel) + 1
    ensures var n := (channels[e.channel].outgoing + 1) % WORD16;
            n == Low(e.index) && Numbered(channels[e.channel := channels[e.channel].(outgoing := n)], unsent + [e], views)
  {
    hide Counted, Link.Narrow, Of;
    var c, n := e.channel, (channels[e.channel].outgoing + 1) % WORD16;
    OfAppend(unsent, e);
    LowAdd(views[c].first + Of(unsent, c), 1);
    CountedOutgoing(channels[c], n, views[c].unacked);
  }

  lemma UnsentAttempts(unsent: seq<Outgoing>, views: seq<Link.Sender>)
    requires InOrder(unsent, views)
    ensures forall i :: 0 <= i < |unsent| ==> unsent[i].attempts == 0
  {
  }

  /** The first queued command of a channel that was never sent is its next number. */
  lemma FirstSent(channels: seq<ChannelOut>, unsent: seq<Outgoing>, views: seq<Link.Sender>)
    requires unsent != [] && InOrder(unsent, views) && Proper(unsent, |views|) && Numbered(channels, unsent, views)
    requires Link.MaySendNext(views[unsent[0].channel])
    ensures var c := unsent[0].channel;
            && unsent[0].index == views[c].first + 1 && unsent[0].number == Low(views[c].first + 1)
            && |channels| == |views| && |channels[c].windows| == WINDOWS
            && InOrder(unsent[1..], views[c := Link.SendNext(views[c])])
            && Numbered(channels[c := CountUp(channels[c], unsent[0].number)], unsent[1..], views[c := Link.SendNext(views[c])])
  {
    hide Counted, Link.Narrow, Link.MaySendNext, Low, Of;
    var c := unsent[0].channel;
    OfNone(unsent[..0], c);
    var views' := views[c := Link.SendNext(views[c])];
    forall i | 0 <= i < |unsent| - 1
      ensures unsent[1..][i].index == views'[unsent[1..][i].channel].first + 1 + Of(unsent[1..][..i], unsent[1..][i].channel)
    {
      assert unsent[1..][..i] == unsent[..i + 1][1..];
      OfTail(unsent[..i + 1], unsent[i + 1].channel);
    }
    NotInFlight(views[c]);
    CountedSizes(channels[c], views[c].unacked);
    CountNext(channels[c], views[c].unacked, views[c].first + 1);
    Link.SendNextNarrow(views[c]);
    CountedOutgoing(channels[c], CountUp(channels[c], unsent[0].number).outgoing, views[c].unacked);
    forall d | 0 <= d < |channels|
      ensures views'[d].first + Of(unsent[1..], d) == views[d].first + Of(unsent, d)
    {
      OfTail(unsent, d);
    }
  }

  lemma NotInFlight(s: Link.Sender)
    requires Link.Narrow(s)
    ensures s.first + 1 !in s.unacked
  {
  }

  lemma OfNone(s: seq<Outgoing>, c: nat)
    requires s == []
    ensures Of(s, c) == 0
  {
  }

  lemma FirstInFlight(retries: seq<Outgoing>, sent: seq<Outgoing>, channels: seq<ChannelOut>, unsent: seq<Outgoing>,
                      views: seq<Link.Sender>, e: Outgoing)
    requires unsent != [] && e.channel == unsent[0].channel < |views| && e.index == unsent[0].index == views[e.channel].first + 1
    requires InFlight(retries, sent, views) && Numbered(channels, unsent, views)
    ensures InFlight(retries, sent + [e], views[e.channel := Link.SendNext(views[e.channel])])
  {
    hide Keys, Counted, Link.MaySendNext, Of;
    KeysConcat(sent, [e]);
    KeysOne(e);
    NotInFlight(views[e.channel]);
  }

  lemma RetryMoves(retries: seq<Outgoing>, sent: seq<Outgoing>, views: seq<Link.Sender>, e: Outgoing)
    requires retries != [] && e.channel == retries[0].channel && e.index == retries[0].index
    requires InFlight(retries, sent, views)
    ensures InFlight(retries[1..], sent + [e], views)
  {
    hide Keys;
    KeysSplit(retries, 0);
    assert retries[..0] + retries[1..] == retries[1..];
    KeysConcat(sent, [e]);
    KeysOne(e);
  }

  lemma KeysEmpty()
    ensures Keys([]) == multiset{} && Lengths([]) == 0
  {
  }

  lemma CountedOutgoing(ch: ChannelOut, n: uint16, unacked: set<nat>)
    requires Counted(ch, unacked)
    ensures Counted(ch.(outgoing := n), unacked)
  {
  }

  lemma LengthsOne(e: Outgoing)
    ensures Lengths([e]) == e.length
  {
    assert [e][..0] == [];
  }
}
