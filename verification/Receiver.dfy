/** The receiving side of a channel of peer.c and protocol.c, as it works: lists searched from the
    back, entries changed in place. It does what the functions of Incoming say. */
module Receiver {
  import opened Words
  import opened SequenceNumbers
  import opened Packets
  import opened Incoming
  import opened Arrival
  import opened Delivery

  /** What became of a command offered to the pending list: stored at a place, dropped, or refused. */
  datatype Queueing = Stored(at: nat) | Discarded | Refused

  class IncomingChannel {
    var current: uint16
    var pending: seq<Entry>
    var dispatched: seq<seq<byte>>

    constructor ()
      ensures State() == Channel(0, [], [])
    {
      current, pending, dispatched := 0, [], [];
    }

    function State(): Channel
      reads this
    {
      Channel(current, pending, dispatched)
    }

    ghost predicate Valid()
      reads this
    {
      && Sorted(pending, current) && Settled(State())
      && forall j :: 0 <= j < |pending| && pending[j].count > 0 ==> |pending[j].marks| == pending[j].count
    }

    /** Searches the pending list from the back for number n, comparing 16-bit numbers around the
        current one: finds the entry, or the place where it belongs. */
    method Search(n: uint16) returns (found: bool, at: nat)
      requires Sorted(pending, current)
      ensures at == Before(pending, current, n) && (found <==> Known(State(), n))
    {
      var i: nat := |pending|;
      while i > 0
        invariant i <= |pending|
        invariant forall j :: i <= j < |pending| ==> Distance(current, pending[j].number) > Distance(current, n)
      {
        var e := pending[i - 1];
        if n >= current {
          if e.number < current {
            i := i - 1;
            continue;
          }
        } else if e.number >= current {
          break;
        }
        if e.number <= n {
          if e.number < n {
            break;
          }
          BeforeUnique(pending, current, n, i - 1);
          return true, i - 1;
        }
        i := i - 1;
      }
      BeforeUnique(pending, current, n, i);
      return false, i;
    }

    /** Hands on the packets at the front that are complete and in sequence, all at once. */
    method DispatchReliable()
      modifies this
      ensures State() == Dispatch(old(State()))
    {
      ghost var start := State();
      var i := 0;
      assert pending[0..] == pending && dispatched + Contents(pending[..0]) == dispatched;
      while i < |pending|
        invariant i <= |pending| && pending == start.pending && dispatched == start.dispatched
        invariant Dispatch(Channel(current, pending[i..], dispatched + Contents(pending[..i]))) == Dispatch(start)
      {
        var e := pending[i];
        if e.remaining > 0 || e.number != Following(current) {
          break;
        }
        assert pending[i..][0] == e && pending[i..][1..] == pending[i + 1..];
        assert dispatched + Contents(pending[..i + 1]) == dispatched + Contents(pending[..i]) + [e.data];
        current := e.number;
        if e.count > 0 {
          current := (current + e.count - 1) % WORD16;
        }
        i := i + 1;
      }
      if i == 0 {
        return;
      }
      dispatched, pending := dispatched + Contents(pending[..i]), pending[i..];
    }

    /** Stores a command that is neither too far ahead nor known. A command that waits for fragments
        has nothing to say if it is dropped. */
    method QueueIncoming(number: uint16, count: nat, data: seq<byte>, full: bool) returns (result: Queueing)
      requires Sorted(pending, current) && Settled(State())
      modifies this
      ensures var ch := old(State());
              if !Acceptable(number, ch.current) || number == ch.current || Known(ch, number) then
                State() == ch && result == if count > 0 then Refused else Discarded
              else if full then State() == ch && result == Refused
              else
                && result == Stored(Before(ch.pending, ch.current, number))
                && State() == Dispatch(Store(ch, Entry(number, count, count, seq(count, _ => false), data)))
    {
      if !Acceptable(number, current) || number == current {
        return if count > 0 then Refused else Discarded;
      }
      var found, at := Search(number);
      if found {
        return if count > 0 then Refused else Discarded;
      }
      if full {
        return Refused;
      }
      var e := Entry(number, count, count, seq(count, _ => false), data);
      pending := pending[..at] + [e] + pending[at..];
      DispatchReliable();
      return Stored(at);
    }

    method HandleSendReliable(cmd: Command, maximumSize: nat, full: bool) returns (ok: bool)
      requires Valid()
      modifies this
      ensures Result(State(), ok) == HandleReliable(old(State()), cmd, maximumSize, full)
    {
      if |cmd.payload| > maximumSize {
        return false;
      }
      var result := QueueIncoming(cmd.number, 0, cmd.payload, full);
      assert seq(0, _ => false) == [];
      return result != Refused;
    }

    /** Puts a fragment in its place in entry k, and hands on what is complete then. */
    method MarkFragment(k: nat, cmd: Command)
      requires k < |pending| && Fits(pending[k], cmd) && cmd.fragment < cmd.count && cmd.offset + |cmd.payload| <= cmd.total
      requires k == Before(pending, current, cmd.start) && Known(State(), cmd.start)
      modifies this
      ensures State() == Mark(old(State()), cmd)
    {
      var e := pending[k];
      if !e.marks[cmd.fragment] {
        e := e.(remaining := e.remaining - 1);
        e := e.(marks := e.marks[cmd.fragment := true]);
        e := e.(data := Overwrite(e.data, cmd.offset, cmd.payload));
        pending := pending[k := e];
        if e.remaining <= 0 {
          DispatchReliable();
        }
      } else {
        assert pending[k := e] == pending;
      }
    }

    method HandleSendFragment(cmd: Command, maximumSize: nat, full: bool) returns (ok: bool)
      requires Valid()
      modifies this
      ensures Result(State(), ok) == HandleFragment(old(State()), cmd, maximumSize, full)
    {
      hide Dispatch, Before, Store, Mark, Sorted;
      if |cmd.payload| <= 0 || |cmd.payload| > maximumSize {
        return false;
      }
      if !Acceptable(cmd.start, current) {
        return true;
      }
      if !WellFormed(cmd, maximumSize) {
        return false;
      }
      var found, at := Search(cmd.start);
      if found {
        if pending[at].count == 0 || cmd.total != |pending[at].data| || cmd.count != pending[at].count {
          return false;
        }
      } else {
        ghost var before := State();
        var result := QueueIncoming(cmd.start, cmd.count, seq(cmd.total, _ => 0), full);
        if result == Refused {
          return false;
        }
        at := result.at;
        StoredKnown(before, Blank(cmd));
        BlankSettled(before, Blank(cmd));
      }
      MarkFragment(at, cmd);
      return true;
    }

    /** Whether a handled command is acknowledged. */
    method QueueAcknowledgement(n: uint16) returns (acknowledged: bool)
      ensures acknowledged <==> !AckRefused(n, current)
    {
      var window, currentWindow := n / WINDOW_SIZE, current / WINDOW_SIZE;
      if n < current {
        window := window + WINDOWS;
      }
      return !(window >= currentWindow + FREE_WINDOWS - 1 && window <= currentWindow + FREE_WINDOWS);
    }

    /** Handles an arriving command i of packet p of what was sent, and says whether it is acknowledged. */
    method Receive(cmd: Command, maximumSize: nat, full: bool,
                   ghost packets: seq<Packet>, ghost done: nat, ghost ids: seq<nat>, ghost p: nat, ghost i: nat)
      returns (acknowledged: bool, ghost done': nat, ghost ids': seq<nat>)
      requires Represents(State(), packets, done, ids) && Settled(State()) && IsCommand(packets, p, i)
      requires cmd == Fragment(packets[p], First(packets, p), i) && Recent(First(packets, p), EndOf(packets, done))
      modifies this
      ensures var result := Handle(old(State()), cmd, maximumSize, full);
              && State() == result.channel && (acknowledged <==> Acknowledged(result, cmd))
              && Arrives(old(State()), packets, done, ids, p, i, result, done', ids')
      ensures Represents(State(), packets, done', ids') && Valid()
    {
      hide Represents, Arrives, HandleReliable, HandleFragment, Settled, AckRefused, EndOf, Recent;
      RepresentsValid(packets, done, ids);
      var ok;
      if cmd.count == 0 {
        done', ids' := ReliableArrives(State(), packets, done, ids, p, maximumSize, full);
        ok := HandleSendReliable(cmd, maximumSize, full);
      } else {
        done', ids' := FragmentArrives(State(), packets, done, ids, p, i, maximumSize, full);
        ok := HandleSendFragment(cmd, maximumSize, full);
      }
      ArrivesRepresents(packets, done', ids');
      RepresentsValid(packets, done', ids');
      acknowledged := false;
      if ok {
        acknowledged := QueueAcknowledgement(cmd.number);
      }
    }

    lemma ArrivesRepresents(packets: seq<Packet>, done: nat, ids: seq<nat>)
      ensures forall ch, d, js, p: nat, i: nat, ok: bool ::
                Represents(ch, packets, d, js) && p < |packets| && Arrives(ch, packets, d, js, p, i, Result(State(), ok), done, ids) ==>
                Represents(State(), packets, done, ids) && Settled(State())
    {
    }

    lemma RepresentsValid(packets: seq<Packet>, done: nat, ids: seq<nat>)
      requires Represents(State(), packets, done, ids) && Settled(State())
      ensures Valid()
    {
      hide Low, EndOf, Settled;
      RepresentsSorted(State(), packets, done, ids);
      forall j | 0 <= j < |pending| && pending[j].count > 0 ensures |pending[j].marks| == pending[j].count {
        EntryNumber(State(), packets, done, ids, j);
      }
    }
  }

  function Contents(entries: seq<Entry>): (d: seq<seq<byte>>)
    ensures |d| == |entries| && forall i :: 0 <= i < |entries| ==> d[i] == entries[i].data
  {
    seq(|entries|, i requires 0 <= i < |entries| => entries[i].data)
  }
}
