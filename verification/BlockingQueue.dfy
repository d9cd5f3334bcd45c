/** The bounded queue of LinkedBlockingQueue.c: its critical sections on a doubly linked list. */
module BlockingQueue {
  /** What a queue holds, without its links. */
  datatype QueueState<T> = QueueState(items: seq<T>, bound: nat, shutdown: bool, draining: bool, userWake: bool)

  datatype Result<T> = Success(data: T) | Accepted | Interrupted | BoundExceeded | NoElement | UserWoken

  function OfferTo<T>(q: QueueState<T>, x: T): (r: (QueueState<T>, Result<T>)) {
    if q.shutdown || q.draining then (q, Interrupted)
    else if |q.items| == q.bound then (q, BoundExceeded)
    else (q.(items := q.items + [x]), Accepted)
  }

  function PeekAt<T>(q: QueueState<T>): Result<T> {
    if q.shutdown || (q.items == [] && q.draining) then Interrupted
    else if q.items == [] then NoElement
    else Success(q.items[0])
  }

  function PollFrom<T>(q: QueueState<T>): (r: (QueueState<T>, Result<T>)) {
    if PeekAt(q).Success? then (q.(items := q.items[1..]), PeekAt(q)) else (q, PeekAt(q))
  }

  /** Whether a waiting consumer may stop waiting. */
  predicate Ready<T>(q: QueueState<T>) {
    q.items != [] || q.draining || q.shutdown || q.userWake
  }

  /** What a consumer gets when it stops waiting: shutdown first, then a requested wake, then data, and
      the end of draining only when there is no data. */
  function WaitOn<T>(q: QueueState<T>): (r: (QueueState<T>, Result<T>))
    requires Ready(q)
  {
    if q.shutdown then (q, Interrupted)
    else if q.userWake then (q.(userWake := false), UserWoken)
    else if q.items == [] then (q, Interrupted)
    else (q.(items := q.items[1..]), Success(q.items[0]))
  }

  class Entry<T> {
    var flink: Entry?<T>
    var blink: Entry?<T>
    var data: T

    constructor (data: T)
      ensures this.data == data
    {
      this.data := data;
      flink, blink := null, null;
    }
  }

  /** Following the links from chain yields the entries, in order, and then nothing. */
  ghost predicate ChainOf<T>(chain: Entry?<T>, entries: seq<Entry<T>>)
    reads entries
  {
    if entries == [] then chain == null
    else
      && chain == entries[0] && entries[|entries| - 1].flink == null
      && forall i :: 0 <= i < |entries| - 1 ==> entries[i].flink == entries[i + 1]
  }

  class LinkedBlockingQueue<T> {
    var head: Entry?<T>
    var tail: Entry?<T>
    const sizeBound: nat
    var currentSize: nat
    var lifetimeSize: nat
    var shutdown: bool
    var draining: bool
    var pendingUserWake: bool
    ghost var entries: seq<Entry<T>>

    /** The entries are linked in both directions, from head to tail, and counted. */
    ghost predicate Valid()
      reads this, entries
    {
      && currentSize == |entries| <= sizeBound
      && (forall i, j :: 0 <= i < j < |entries| ==> entries[i] != entries[j])
      && ChainOf(head, entries)
      && (forall i :: 0 < i < |entries| ==> entries[i].blink == entries[i - 1])
      && (if entries == [] then tail == null else tail == entries[|entries| - 1] && head.blink == null)
    }

    ghost function State(): QueueState<T>
      reads this, entries
    {
      QueueState(Data(), sizeBound, shutdown, draining, pendingUserWake)
    }

    ghost function Data(): (d: seq<T>)
      reads this, entries
      ensures |d| == |entries| && forall i :: 0 <= i < |d| ==> d[i] == entries[i].data
    {
      seq(|entries|, i requires 0 <= i < |entries| reads this, entries => entries[i].data)
    }

    constructor (sizeBound: nat)
      ensures Valid() && State() == QueueState([], sizeBound, false, false, false) && entries == [] && lifetimeSize == 0
    {
      this.sizeBound := sizeBound;
      head, tail, currentSize, lifetimeSize := null, null, 0, 0;
      shutdown, draining, pendingUserWake := false, false, false;
      entries := [];
    }

    /** Links an entry behind the last one; signal says that the queue was empty. */
    method Offer(data: T, entry: Entry<T>) returns (result: Result<T>, signal: bool)
      requires Valid() && entry !in entries
      modifies this, entry, entries
      ensures Valid()
      ensures (State(), result) == OfferTo(old(State()), data)
      ensures result == if old(shutdown) || old(draining) then Interrupted
                        else if |old(entries)| == sizeBound then BoundExceeded else Accepted
      ensures shutdown == old(shutdown) && draining == old(draining) && pendingUserWake == old(pendingUserWake)
      ensures entry.data == data
      ensures result.Accepted? ==> entries == old(entries) + [entry] && lifetimeSize == old(lifetimeSize) + 1
      ensures !result.Accepted? ==> entries == old(entries) && lifetimeSize == old(lifetimeSize)
      ensures signal <==> result.Accepted? && old(entries) == []
    {
      entry.flink := null;
      entry.data := data;
      if shutdown || draining {
        return Interrupted, false;
      }
      if currentSize == sizeBound {
        return BoundExceeded, false;
      }
      signal := LinkLast(entry);
      result := Accepted;
    }

    method LinkLast(entry: Entry<T>) returns (wasEmpty: bool)
      requires Valid() && entry !in entries && currentSize < sizeBound && entry.flink == null
      modifies this, entry, entries
      ensures Valid() && entries == old(entries) + [entry] && lifetimeSize == old(lifetimeSize) + 1
      ensures State() == old(State()).(items := old(Data()) + [old(entry.data)])
      ensures wasEmpty <==> old(entries) == []
    {
      ghost var before := Data();
      wasEmpty := head == null;
      if wasEmpty {
        head, tail := entry, entry;
        entry.blink := null;
      } else {
        tail.flink := entry;
        entry.blink := tail;
        tail := entry;
      }
      currentSize, lifetimeSize := currentSize + 1, lifetimeSize + 1;
      entries := entries + [entry];
      assert Data() == before + [entry.data];
    }

    /** Unlinks the first entry. */
    method RemoveHead() returns (data: T)
      requires Valid() && entries != []
      modifies this, entries
      ensures Valid() && data == old(Data())[0]
      ensures entries == old(entries)[1..]
      ensures State() == old(State()).(items := old(Data())[1..])
    {
      var entry := head;
      ghost var before := Data();
      assert if |entries| > 1 then entry.flink == entries[1] else entry == tail && entry.flink == null;
      head := entry.flink;
      currentSize := currentSize - 1;
      if head == null {
        tail := null;
      } else {
        head.blink := null;
      }
      data := entry.data;
      entries := entries[1..];
      assert Data() == before[1..];
    }

    method Peek() returns (result: Result<T>)
      requires Valid()
      ensures result == PeekAt(State())
      ensures shutdown ==> result == Interrupted
      ensures !shutdown && entries != [] ==> result == Success(entries[0].data)
      ensures !shutdown && entries == [] ==> result == if draining then Interrupted else NoElement
    {
      if shutdown {
        return Interrupted;
      }
      if head == null {
        if draining {
          return Interrupted;
        } else {
          return NoElement;
        }
      }
      return Success(head.data);
    }

    method Poll() returns (result: Result<T>)
      requires Valid()
      modifies this, entries
      ensures Valid() && (State(), result) == PollFrom(old(State()))
      ensures shutdown == old(shutdown) && draining == old(draining) && pendingUserWake == old(pendingUserWake)
      ensures shutdown ==> result == Interrupted
      ensures !shutdown && old(entries) != [] ==> result == Success(old(entries[0].data))
      ensures !shutdown && old(entries) == [] ==> result == if draining then Interrupted else NoElement
      ensures entries == if result.Success? then old(entries)[1..] else old(entries)
    {
      if shutdown {
        return Interrupted;
      }
      if head == null {
        if draining {
          return Interrupted;
        } else {
          return NoElement;
        }
      }
      var data := RemoveHead();
      return Success(data);
    }

    /** Whether a consumer has to wait, or wait on. */
    method MustWait() returns (waits: bool)
      requires Valid()
      ensures waits <==> !Ready(State())
      ensures waits <==> entries == [] && !draining && !shutdown && !pendingUserWake
    {
      waits := head == null && !draining && !shutdown && !pendingUserWake;
    }

    /** The part of a wait after the loop, when the condition has become true. Stopping comes before
        everything, a requested wake before data, and draining ends the wait only without data. */
    method FinishWait() returns (result: Result<T>)
      requires Valid() && Ready(State())
      modifies this, entries
      ensures Valid() && (State(), result) == WaitOn(old(State()))
      ensures shutdown == old(shutdown) && draining == old(draining)
      ensures old(shutdown) ==> result == Interrupted && entries == old(entries) && pendingUserWake == old(pendingUserWake)
      ensures !old(shutdown) && old(pendingUserWake) ==> result == UserWoken && entries == old(entries) && !pendingUserWake
      ensures !old(shutdown) && !old(pendingUserWake) ==>
                && !pendingUserWake
                && if old(entries) == [] then result == Interrupted && entries == []
                   else result == Success(old(entries[0].data)) && entries == old(entries)[1..]
      ensures entries == if result.Success? then old(entries)[1..] else old(entries)
    {
      if shutdown {
        return Interrupted;
      }
      if pendingUserWake {
        pendingUserWake := false;
        assert Data() == old(Data());
        return UserWoken;
      }
      if draining && head == null {
        return Interrupted;
      }
      var data := RemoveHead();
      return Success(data);
    }

    /** Empties the queue; the caller gets the chain of entries, with what was queued in order. */
    method Flush() returns (chain: Entry?<T>)
      requires Valid()
      modifies this
      ensures Valid() && State() == old(State()).(items := [])
      ensures ChainOf(chain, old(entries))
      ensures forall i :: 0 <= i < |old(entries)| ==> old(entries)[i].data == old(Data())[i]
    {
      chain := head;
      if head != null {
        head, tail, currentSize := null, null, 0;
        entries := [];
      }
    }

    /** At the end, once the queue is stopped or was never used, the caller gets what is left. */
    method Destroy() returns (chain: Entry?<T>)
      requires Valid() && (shutdown || draining || lifetimeSize == 0)
      ensures ChainOf(chain, entries) && |entries| == |State().items|
      ensures forall i :: 0 <= i < |entries| ==> entries[i].data == State().items[i]
    {
      chain := head;
    }

    /** Shutdown, draining and the wake request each only raise a flag. */
    method SignalShutdown()
      requires Valid()
      modifies this`shutdown
      ensures Valid() && State() == old(State()).(shutdown := true)
    {
      shutdown := true;
    }

    method SignalDrain()
      requires Valid()
      modifies this`draining
      ensures Valid() && State() == old(State()).(draining := true)
    {
      draining := true;
    }

    method SignalUserWake()
      requires Valid()
      modifies this`pendingUserWake
      ensures Valid() && State() == old(State()).(userWake := true)
    {
      pendingUserWake := true;
    }
  }
}
