/** What one arriving command does to a channel: packets are handed on in order and once, whatever
    arrives in whatever order, and a command that counts as handled is stored unless it was far ahead. */
module Delivery {
  import opened Words
  import opened SequenceNumbers
  import opened Packets
  import opened Incoming
  import opened Arrival

  /** The code can tell whether command i is old or new at position r. */
  predicate Recent(i: nat, r: nat) {
    && (i <= r ==> SequenceNumbers.Window(r) <= SequenceNumbers.Window(i) + 9)
    && (i > r ==> SequenceNumbers.Window(i) < SequenceNumbers.Window(r) + WINDOWS - 1)
  }

  /** Too far ahead of position r to be stored. */
  predicate Beyond(i: nat, r: nat) {
    i > r && SequenceNumbers.Window(i) >= SequenceNumbers.Window(r) + FREE_WINDOWS - 1
  }

  /** The test of the code on 16-bit numbers, in terms of the true ones. */
  lemma AcceptableMeaning(i: nat, r: nat)
    requires Recent(i, r)
    ensures Acceptable(Low(i), Low(r)) && Low(i) != Low(r) <==> i > r && !Beyond(i, r)
    ensures Acceptable(Low(i), Low(r)) && Low(i) != Low(r) <==> i > r && i / 4096 < r / 4096 + 7
    ensures Acceptable(Low(i), Low(r)) ==> i >= r && !Beyond(i, r)
  {
    hide Low;
    if i > r {
      AheadMeaning(i, r);
      if Low(i) == Low(r) { LowInjective(i, r); }
    } else if i < r {
      BehindMeaning(i, r);
    }
  }

  /** What the theorem says of a handled command i of packet p. */
  ghost predicate Arrives(ch: Channel, packets: seq<Packet>, done: nat, ids: seq<nat>, p: nat, i: nat,
                          result: Result, done': nat, ids': seq<nat>)
    requires Represents(ch, packets, done, ids) && p < |packets|
  {
    && Represents(result.channel, packets, done', ids') && Settled(result.channel)
    && Gains(packets, (p, i), ch, done, ids, result.channel, done', ids')
    && (result.ok && !Beyond(First(packets, p), EndOf(packets, done)) ==> Has(result.channel, done', ids', p, i))
    && (Beyond(First(packets, p), EndOf(packets, done)) ==> result.channel == ch && done' == done && ids' == ids)
    && (!result.ok ==> result.channel == ch)
  }

  /** When command i of packet p counts as handled: its data is not too long for the receiver, and there
      is nothing to do for it, because the packet was handed on or is too far ahead, or the packet is
      not too long either and has an entry already or may get one. */
  predicate Welcome(packets: seq<Packet>, done: nat, ids: seq<nat>, p: nat, i: nat, maximumSize: nat, full: bool)
    requires done <= |packets| && IsCommand(packets, p, i)
  {
    && |Fragment(packets[p], First(packets, p), i).payload| <= maximumSize
    && (|| p < done
        || (First(packets, p) > EndOf(packets, done)
            && First(packets, p) / 4096 >= EndOf(packets, done) / 4096 + 7)
        || (|packets[p].data| <= maximumSize && (p in ids || !full)))
  }

  lemma OldPacket(packets: seq<Packet>, done: nat, p: nat)
    requires Stream(packets) && done <= |packets| && p < |packets|
    ensures First(packets, p) <= EndOf(packets, done) <==> p < done
    ensures p < done ==> EndOf(packets, p) + Units(packets[p]) <= EndOf(packets, done)
  {
    hide EndOf, Units;
    if p < done {
      EndMonotone(packets, p, done);
    } else {
      EndMonotone(packets, done, p);
    }
  }

  lemma Unchanged(ch: Channel, packets: seq<Packet>, done: nat, ids: seq<nat>, p: nat, i: nat)
    requires Represents(ch, packets, done, ids) && Settled(ch) && p < |packets|
    requires p < done || Beyond(First(packets, p), EndOf(packets, done)) || Has(ch, done, ids, p, i)
    ensures forall ok :: Arrives(ch, packets, done, ids, p, i, Result(ch, ok), done, ids)
  {
    hide EndOf, Represents, Low;
    RepresentsSizes(ch, packets, done, ids);
    OldPacket(packets, done, p);
  }

  lemma RefusedArrives(ch: Channel, packets: seq<Packet>, done: nat, ids: seq<nat>, p: nat, i: nat)
    requires Represents(ch, packets, done, ids) && Settled(ch) && p < |packets|
    ensures Arrives(ch, packets, done, ids, p, i, Result(ch, false), done, ids)
  {
    hide EndOf, Represents, Low;
    RepresentsSizes(ch, packets, done, ids);
  }

  lemma StoredArrives(ch: Channel, packets: seq<Packet>, done: nat, ids: seq<nat>, p: nat, i: nat,
                      ch': Channel, done': nat, ids': seq<nat>)
    requires Represents(ch, packets, done, ids) && p < |packets| && !Beyond(First(packets, p), EndOf(packets, done))
    requires Represents(ch', packets, done', ids') && Settled(ch')
    requires |ids| == |ch.pending| && |ids'| == |ch'.pending|
    requires Gains(packets, (p, i), ch, done, ids, ch', done', ids') && Has(ch', done', ids', p, i)
    ensures Arrives(ch, packets, done, ids, p, i, Result(ch', true), done', ids')
  {
    hide EndOf, Represents, Low;
  }

  lemma KeepsRefl(packets: seq<Packet>, p: nat, i: nat, ch: Channel, done: nat, ids: seq<nat>)
    requires |ids| == |ch.pending|
    ensures Gains(packets, (p, i), ch, done, ids, ch, done, ids)
  {
  }

  lemma HasAt(ch: Channel, done: nat, ids: seq<nat>, j: nat, i: nat)
    requires |ids| == |ch.pending| && j < |ids| && Holds(ch.pending[j], i)
    ensures Has(ch, done, ids, ids[j], i)
  {
  }

  lemma NewWindow(packets: seq<Packet>, done: nat, p: nat)
    requires Stream(packets) && done <= p < |packets| && !Beyond(First(packets, p), EndOf(packets, done))
    ensures SequenceNumbers.Window(First(packets, p)) < SequenceNumbers.Window(EndOf(packets, done)) + FREE_WINDOWS - 1
  {
    hide EndOf;
    OldPacket(packets, done, p);
  }

  /** The entry of packet p, if there is one. */
  lemma KnownEntry(ch: Channel, packets: seq<Packet>, done: nat, ids: seq<nat>, p: nat)
    requires Represents(ch, packets, done, ids) && done <= p < |packets| && !Beyond(First(packets, p), EndOf(packets, done))
    ensures var n := Low(First(packets, p));
            var k := Before(ch.pending, ch.current, n);
            && (Known(ch, n) ==> k < |ids| == |ch.pending| && ids[k] == p && IsEntry(ch.pending[k], packets, done, p))
            && (!Known(ch, n) ==> p !in ids)
  {
    hide EndOf, IsEntry, Low, Before, Rank;
    NewWindow(packets, done, p);
    BeforeRank(ch, packets, done, ids, p);
    RankMeaning(ids, p);
  }

  lemma {:induction false} ReliableArrives(ch: Channel, packets: seq<Packet>, done: nat, ids: seq<nat>, p: nat,
                                           maximumSize: nat, full: bool)
    returns (done': nat, ids': seq<nat>)
    requires Represents(ch, packets, done, ids) && Settled(ch) && p < |packets| && Count(packets[p]) == 0
    requires Recent(First(packets, p), EndOf(packets, done))
    ensures var cmd := Fragment(packets[p], First(packets, p), 0);
            && Arrives(ch, packets, done, ids, p, 0, HandleReliable(ch, cmd, maximumSize, full), done', ids')
            && (HandleReliable(ch, cmd, maximumSize, full).ok <==> Welcome(packets, done, ids, p, 0, maximumSize, full))
  {
    hide EndOf, IsEntry, Low, Dispatch, Represents, Store, Has, Before, Acceptable, Known, Distance;
    RepresentsSizes(ch, packets, done, ids);
    CurrentIs(ch, packets, done, ids);
    var cmd := Fragment(packets[p], First(packets, p), 0);
    AcceptableMeaning(First(packets, p), EndOf(packets, done));
    OldPacket(packets, done, p);
    KeepsRefl(packets, p, 0, ch, done, ids);
    done', ids' := done, ids;
    if p < done || Beyond(First(packets, p), EndOf(packets, done)) {
      Unchanged(ch, packets, done, ids, p, 0);
    } else if |cmd.payload| <= maximumSize {
      KnownEntry(ch, packets, done, ids, p);
      if Known(ch, cmd.number) {
        WholeHolds(ch, packets, done, ids, p, Before(ch.pending, ch.current, cmd.number));
      } else if !full {
        var e := Entry(cmd.number, 0, 0, [], cmd.payload);
        WholeEntry(packets, done, p);
        forall h: nat | IsCommand(packets, p, h) ensures h == 0 { UnitsPositive(packets[p]); }
        ids' := StoreRepresents(ch, packets, done, ids, p, e, (p, 0));
        var stored := Store(ch, e);
        RepresentsSizes(stored, packets, done, ids');
        HasAt(stored, done, ids', Rank(ids, p), 0);
        var between := ids';
        done', ids' := DispatchRepresents(stored, packets, done, between, (p, 0));
        RepresentsSizes(Dispatch(stored), packets, done', ids');
        KeepsTrans(packets, (p, 0), ch, done, ids, stored, done, between, Dispatch(stored), done', ids');
      }
    }
  }

  lemma CurrentIs(ch: Channel, packets: seq<Packet>, done: nat, ids: seq<nat>)
    requires Represents(ch, packets, done, ids)
    ensures ch.current == Low(EndOf(packets, done))
  {
  }

  lemma WholeHolds(ch: Channel, packets: seq<Packet>, done: nat, ids: seq<nat>, p: nat, k: nat)
    requires Stream(packets) && done <= p < |packets| && Count(packets[p]) == 0
    requires |ids| == |ch.pending| && k < |ids| && ids[k] == p && IsEntry(ch.pending[k], packets, done, p)
    ensures Has(ch, done, ids, p, 0)
  {
    hide EndOf, Low;
    HasAt(ch, done, ids, k, 0);
  }

  lemma WholeEntry(packets: seq<Packet>, done: nat, p: nat)
    requires Stream(packets) && done <= p < |packets| && Count(packets[p]) == 0
    requires !Beyond(First(packets, p), EndOf(packets, done))
    ensures var cmd := Fragment(packets[p], First(packets, p), 0);
            IsEntry(Entry(cmd.number, 0, 0, [], cmd.payload), packets, done, p)
  {
    hide EndOf, Low;
    NewWindow(packets, done, p);
    UnitsPositive(packets[p]);
    Offsets(packets[p], 0);
  }

  /** Marking a fragment in entry k, and handing on what is complete then. */
  lemma MarkArrives(ch: Channel, packets: seq<Packet>, done: nat, ids: seq<nat>, p: nat, i: nat)
    returns (done': nat, ids': seq<nat>)
    requires Represents(ch, packets, done, ids) && done <= p < |packets| && i < Count(packets[p])
    requires Known(ch, Low(First(packets, p))) && !Beyond(First(packets, p), EndOf(packets, done))
    requires Settled(ch)
    ensures i < Units(packets[p])
    ensures var cmd := Fragment(packets[p], First(packets, p), i);
            && cmd.offset + |cmd.payload| <= cmd.total
            && Fits(ch.pending[Before(ch.pending, ch.current, cmd.start)], cmd)
            && Represents(Mark(ch, cmd), packets, done', ids') && Settled(Mark(ch, cmd))
            && |ids| == |ch.pending| && |ids'| == |Mark(ch, cmd).pending|
            && Gains(packets, (p, i), ch, done, ids, Mark(ch, cmd), done', ids')
            && Has(Mark(ch, cmd), done', ids', p, i)
  {
    hide EndOf, Low, Dispatch, Represents, Has, Before, Partial, Holds, Marked, Settled;
    RepresentsSizes(ch, packets, done, ids);
    KnownEntry(ch, packets, done, ids, p);
    var k := Before(ch.pending, ch.current, Low(First(packets, p)));
    MarkedPartial(ch.pending[k], packets, p, i);
    var cmd := Fragment(packets[p], First(packets, p), i);
    var e := Marked(ch.pending[k], cmd);
    var ch' := ch.(pending := ch.pending[k := e]);
    ReplaceRepresents(ch, packets, done, ids, k, e, i);
    RepresentsSizes(ch', packets, done, ids);
    HasAt(ch', done, ids, k, i);
    if !ch.pending[k].marks[i] && e.remaining <= 0 {
      done', ids' := DispatchRepresents(ch', packets, done, ids, (p, i));
      RepresentsSizes(Dispatch(ch'), packets, done', ids');
      KeepsTrans(packets, (p, i), ch, done, ids, ch', done, ids, Dispatch(ch'), done', ids');
    } else {
      done', ids' := done, ids;
      StillSettled(ch, k, e, cmd);
    }
  }

  /** Changing an entry that stays incomplete, or not at all, completes nothing. */
  lemma StillSettled(ch: Channel, k: nat, e: Entry, cmd: Command)
    requires Settled(ch) && k < |ch.pending| && Fits(ch.pending[k], cmd) && cmd.fragment < cmd.count
    requires cmd.offset + |cmd.payload| <= cmd.total && e == Marked(ch.pending[k], cmd)
    requires ch.pending[k].marks[cmd.fragment] || e.remaining > 0
    ensures Settled(ch.(pending := ch.pending[k := e]))
  {
    SettledFirst(ch);
    SettledFirst(ch.(pending := ch.pending[k := e]));
    if ch.pending[k].marks[cmd.fragment] { assert ch.pending[k := e] == ch.pending; }
  }

  lemma SettledFirst(ch: Channel)
    ensures Settled(ch) <==> ch.pending == [] || ch.pending[0].remaining > 0 || ch.pending[0].number != Following(ch.current)
  {
    if !(ch.pending == [] || ch.pending[0].remaining > 0 || ch.pending[0].number != Following(ch.current)) {
      DispatchGrows(Channel(LastNumber(ch.pending[0]), ch.pending[1..], ch.dispatched + [ch.pending[0].data]));
    }
  }

  lemma WellFormedFragment(packets: seq<Packet>, p: nat, i: nat, maximumSize: nat)
    requires Stream(packets) && p < |packets| && i < Count(packets[p])
    ensures i < Units(packets[p]) && Units(packets[p]) > 1
    ensures var cmd := Fragment(packets[p], First(packets, p), i);
            0 < |cmd.payload| <= |packets[p].data| == cmd.total && cmd.offset + |cmd.payload| <= cmd.total
    ensures WellFormed(Fragment(packets[p], First(packets, p), i), maximumSize) <==> |packets[p].data| <= maximumSize
  {
    hide EndOf, Low;
    var packet := packets[p];
    UnitsPositive(packet);
    Offsets(packet, i);
    Offsets(packet, Count(packet) - 1);
    CountAtMost(|packet.data|, packet.limit);
  }

  lemma NotSmaller(n: nat, limit: nat)
    requires limit > 0
    ensures n * limit >= n
  {
  }

  lemma CountAtMost(n: nat, limit: nat)
    requires limit > 0 && n > 0
    ensures (n + limit - 1) / limit <= n
  {
    Rounded(n, limit, n);
    NotSmaller(n, limit);
  }

  lemma {:induction false} FragmentArrives(ch: Channel, packets: seq<Packet>, done: nat, ids: seq<nat>, p: nat, i: nat,
                                           maximumSize: nat, full: bool)
    returns (done': nat, ids': seq<nat>)
    requires Represents(ch, packets, done, ids) && Settled(ch) && p < |packets| && i < Count(packets[p])
    requires Recent(First(packets, p), EndOf(packets, done))
    ensures i < Units(packets[p])
    ensures var cmd := Fragment(packets[p], First(packets, p), i);
            && Arrives(ch, packets, done, ids, p, i, HandleFragment(ch, cmd, maximumSize, full), done', ids')
            && (HandleFragment(ch, cmd, maximumSize, full).ok <==> Welcome(packets, done, ids, p, i, maximumSize, full))
  {
    hide EndOf, IsEntry, Low, Dispatch, Represents, Store, Has, Before, Acceptable, Known, Distance, WellFormed, Mark, Blank,
         Settled, Fits, Arrives, Gains;
    RepresentsSizes(ch, packets, done, ids);
    WellFormedFragment(packets, p, i, maximumSize);
    CurrentIs(ch, packets, done, ids);
    var cmd := Fragment(packets[p], First(packets, p), i);
    AcceptableMeaning(First(packets, p), EndOf(packets, done));
    OldPacket(packets, done, p);
    RefusedArrives(ch, packets, done, ids, p, i);
    done', ids' := done, ids;
    if p < done || Beyond(First(packets, p), EndOf(packets, done)) {
      Unchanged(ch, packets, done, ids, p, i);
    } else if |packets[p].data| <= maximumSize {
      KnownEntry(ch, packets, done, ids, p);
      if Known(ch, cmd.start) {
        done', ids' := MarkArrives(ch, packets, done, ids, p, i);
        StoredArrives(ch, packets, done, ids, p, i, Mark(ch, cmd), done', ids');
      } else if !full {
        done', ids' := FirstFragmentArrives(ch, packets, done, ids, p, i);
        StoredArrives(ch, packets, done, ids, p, i, Mark(Store(ch, Blank(cmd)), cmd), done', ids');
      }
    }
  }

  /** The first fragment of a packet to arrive makes an entry for it. */
  lemma FirstFragmentArrives(ch: Channel, packets: seq<Packet>, done: nat, ids: seq<nat>, p: nat, i: nat)
    returns (done': nat, ids': seq<nat>)
    requires Represents(ch, packets, done, ids) && Settled(ch) && done <= p < |packets| && i < Count(packets[p])
    requires !Beyond(First(packets, p), EndOf(packets, done)) && p !in ids
    ensures i < Units(packets[p]) && |ids| == |ch.pending|
    ensures var cmd := Fragment(packets[p], First(packets, p), i);
            var stored := Store(ch, Blank(cmd));
            && WellFormed(cmd, |packets[p].data|) && Known(stored, cmd.start)
            && Fits(stored.pending[Before(stored.pending, stored.current, cmd.start)], cmd)
            && Represents(Mark(stored, cmd), packets, done', ids') && Settled(Mark(stored, cmd))
            && |ids'| == |Mark(stored, cmd).pending|
            && Gains(packets, (p, i), ch, done, ids, Mark(stored, cmd), done', ids') && Has(Mark(stored, cmd), done', ids', p, i)
  {
    hide EndOf, Low, Dispatch, Represents, Store, Has, Before, Acceptable, Distance, WellFormed, Mark, Settled, Known;
    RepresentsSizes(ch, packets, done, ids);
    WellFormedFragment(packets, p, i, |packets[p].data|);
    var cmd := Fragment(packets[p], First(packets, p), i);
    var e := Blank(cmd);
    BlankPartial(packets, p, i);
    assert forall h: nat :: !Holds(e, h);
    NewWindow(packets, done, p);
    RepresentsSizes(ch, packets, done, ids);
    StoredKnown(ch, e);
    var between := StoreRepresents(ch, packets, done, ids, p, e, (p, i));
    var stored := Store(ch, e);
    RepresentsSizes(stored, packets, done, between);
    BlankSettled(ch, e);
    done', ids' := MarkArrives(stored, packets, done, between, p, i);
    KeepsTrans(packets, (p, i), ch, done, ids, stored, done, between, Mark(stored, cmd), done', ids');
  }

  lemma BlankSettled(ch: Channel, e: Entry)
    requires Settled(ch) && e.remaining > 0
    ensures Settled(Store(ch, e))
  {
    hide Dispatch, Before;
    SettledFirst(ch);
    SettledFirst(Store(ch, e));
  }

  // ---- Copies that are too old

  lemma {:induction false} DispatchKeepsCount(ch: Channel)
    ensures |Dispatch(ch).pending| + |Dispatch(ch).dispatched| == |ch.pending| + |ch.dispatched|
    decreases |ch.pending|
  {
    if !(ch.pending == [] || ch.pending[0].remaining > 0 || ch.pending[0].number != Following(ch.current)) {
      DispatchKeepsCount(Channel(LastNumber(ch.pending[0]), ch.pending[1..], ch.dispatched + [ch.pending[0].data]));
    }
  }

  lemma StoreCount(ch: Channel, e: Entry)
    ensures |Store(ch, e).pending| + |Store(ch, e).dispatched| == |ch.pending| + |ch.dispatched| + 1
  {
  }

  lemma MarkKeepsCount(ch: Channel, cmd: Command)
    requires Known(ch, cmd.start) && cmd.fragment < cmd.count && cmd.offset + |cmd.payload| <= cmd.total
    requires Fits(ch.pending[Before(ch.pending, ch.current, cmd.start)], cmd)
    ensures |Mark(ch, cmd).pending| + |Mark(ch, cmd).dispatched| == |ch.pending| + |ch.dispatched|
  {
    hide Dispatch;
    var k := Before(ch.pending, ch.current, cmd.start);
    DispatchKeepsCount(ch.(pending := ch.pending[k := Marked(ch.pending[k], cmd)]));
  }

  lemma {:induction false} DispatchSame(ch: Channel)
    ensures |Dispatch(ch).pending| == |ch.pending| ==> Dispatch(ch) == ch
  {
    if !(ch.pending == [] || ch.pending[0].remaining > 0 || ch.pending[0].number != Following(ch.current)) {
      DispatchGrows(Channel(LastNumber(ch.pending[0]), ch.pending[1..], ch.dispatched + [ch.pending[0].data]));
    }
  }

  /** A fragment changes nothing exactly if it is marked already. */
  lemma MarkSame(ch: Channel, cmd: Command)
    requires Known(ch, cmd.start) && cmd.fragment < cmd.count && cmd.offset + |cmd.payload| <= cmd.total
    requires Fits(ch.pending[Before(ch.pending, ch.current, cmd.start)], cmd)
    ensures Mark(ch, cmd) == ch <==> ch.pending[Before(ch.pending, ch.current, cmd.start)].marks[cmd.fragment]
  {
    hide Dispatch, Before;
    var k := Before(ch.pending, ch.current, cmd.start);
    var ch' := ch.(pending := ch.pending[k := Marked(ch.pending[k], cmd)]);
    DispatchSame(ch');
    assert ch'.pending[k] == Marked(ch.pending[k], cmd);
    if ch.pending[k].marks[cmd.fragment] { assert ch.pending[k := ch.pending[k]] == ch.pending; }
  }

  /** The code takes number i, at or before position r, for a later one. */
  predicate SeemsNew(i: nat, r: nat)
    requires i <= r
  {
    var d := (SequenceNumbers.Window(r) - SequenceNumbers.Window(i)) % WINDOWS;
    d >= 10 || (d == 0 && Low(i) > Low(r))
  }

  /** Less than 16 windows behind, that is so exactly from 10 windows on. */
  lemma SeemsNewMeaning(i: nat, r: nat)
    requires i <= r
    ensures SeemsNew(i, r) <==> Acceptable(Low(i), Low(r)) && Low(i) != Low(r)
    ensures SequenceNumbers.Window(r) < SequenceNumbers.Window(i) + WINDOWS ==>
              (SeemsNew(i, r) <==> SequenceNumbers.Window(r) >= SequenceNumbers.Window(i) + 10)
  {
    hide Acceptable;
    WindowMonotone(i, r);
    if i < r { StaleAccepted(i, r); }
    SameLow(i, r);
  }

  lemma SameLow(i: nat, r: nat)
    requires i <= r
    ensures Low(i) == Low(r) ==> (SequenceNumbers.Window(r) - SequenceNumbers.Window(i)) % WINDOWS == 0
    ensures Low(i) > Low(r) && SequenceNumbers.Window(r) < SequenceNumbers.Window(i) + WINDOWS ==>
              (SequenceNumbers.Window(r) - SequenceNumbers.Window(i)) % WINDOWS != 0
  {
    LowParts(i);
    LowParts(r);
    WindowDifference(SequenceNumbers.Window(i), SequenceNumbers.Window(r));
  }

  /** A number is pending already and its entry takes the fragment cmd, which it does not have yet. */
  predicate MixesIn(ch: Channel, cmd: Command) {
    && Known(ch, cmd.start) && cmd.count > 0
    && var e := ch.pending[Before(ch.pending, ch.current, cmd.start)];
       Fits(e, cmd) && cmd.fragment < cmd.count && !e.marks[cmd.fragment]
  }

  /** What becomes of a copy of a command of a packet handed on already, at any distance. It has no effect
      exactly if the start of the packet, not the command, does not seem new, or the packet is too long
      for the receiver, or its number is pending and the copy does not mix in, or its number is not
      pending and too much data waits. Otherwise it mixes into the packet with that number, or is taken
      for a new packet. */
  lemma StaleCopy(ch: Channel, packets: seq<Packet>, done: nat, ids: seq<nat>, p: nat, i: nat, maximumSize: nat, full: bool)
    requires Represents(ch, packets, done, ids) && IsCommand(packets, p, i) && p < done
    ensures First(packets, p) <= EndOf(packets, done)
    ensures var cmd := Fragment(packets[p], First(packets, p), i);
            var result := Handle(ch, cmd, maximumSize, full);
            && (result.channel == ch <==>
                  || !SeemsNew(First(packets, p), EndOf(packets, done)) || |packets[p].data| > maximumSize
                  || (if Known(ch, cmd.start) then !MixesIn(ch, cmd) else full))
            && (result.channel != ch ==>
                  && result.ok
                  && if Known(ch, cmd.start) then cmd.offset + |cmd.payload| <= cmd.total && result.channel == Mark(ch, cmd)
                     else |result.channel.pending| + |result.channel.dispatched| == |ch.pending| + |ch.dispatched| + 1)
  {
    hide EndOf, Low, Dispatch, Represents, Store, Before, Acceptable, Known, WellFormed, Mark, Blank, Fits, SeemsNew;
    RepresentsSizes(ch, packets, done, ids);
    CurrentIs(ch, packets, done, ids);
    OldPacket(packets, done, p);
    UnitsPositive(packets[p]);
    SeemsNewMeaning(First(packets, p), EndOf(packets, done));
    CurrentUnknown(ch, packets, done, ids);
    var cmd := Fragment(packets[p], First(packets, p), i);
    if Count(packets[p]) == 0 {
      LastEnds(packets[p], 0);
      var e := Entry(cmd.number, 0, 0, [], cmd.payload);
      StoreCount(ch, e);
      DispatchKeepsCount(Store(ch, e));
    } else {
      WellFormedFragment(packets, p, i, maximumSize);
      if Known(ch, cmd.start) {
        KnownPlace(ch, cmd.start);
        if Fits(ch.pending[Before(ch.pending, ch.current, cmd.start)], cmd) { MarkSame(ch, cmd); }
      }
      StoredKnown(ch, Blank(cmd));
      BlankFits(cmd);
      StoreCount(ch, Blank(cmd));
      MarkKeepsCount(Store(ch, Blank(cmd)), cmd);
    }
  }

  lemma KnownPlace(ch: Channel, n: uint16)
    requires Known(ch, n)
    ensures Before(ch.pending, ch.current, n) < |ch.pending|
  {
  }

  /** No packet is pending under the current number. */
  lemma CurrentUnknown(ch: Channel, packets: seq<Packet>, done: nat, ids: seq<nat>)
    requires Represents(ch, packets, done, ids)
    ensures !Known(ch, ch.current)
  {
    hide Represents, Before;
    RepresentsSorted(ch, packets, done, ids);
  }

  lemma BlankFits(cmd: Command)
    requires cmd.count > 0
    ensures Fits(Blank(cmd), cmd) && Blank(cmd).number == cmd.start
  {
  }
}
