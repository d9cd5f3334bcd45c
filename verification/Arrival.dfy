/** What a channel holds, in terms of the packets that were sent: the packets handed on are a prefix
    of them, and every pending entry is one of the next. */
module Arrival {
  import opened Words
  import opened SequenceNumbers
  import opened Packets
  import opened Incoming

  /** Number of the first command of packet p. */
  function First(packets: seq<Packet>, p: nat): nat
    requires Stream(packets) && p < |packets|
  {
    EndOf(packets, p) + 1
  }

  ghost predicate FragmentIn(data: seq<byte>, p: Packet, i: nat)
    requires |data| == |p.data|
  {
    forall b: nat :: Offset(p, i) <= b < EndOffset(p, i) && b < |data| ==> data[b] == p.data[b]
  }

  /** The entry holds those fragments of p that it has marked, and counts the others. */
  ghost predicate Partial(e: Entry, p: Packet)
    requires p.limit > 0
  {
    && e.count == Count(p) && |e.data| == |p.data|
    && (e.count == 0 ==> e.remaining == 0 && e.data == p.data)
    && (e.count > 0 ==> |e.marks| == e.count && e.remaining == Clear(e.marks))
    && (e.count > 0 ==> forall i: nat :: i < e.count && e.marks[i] ==> FragmentIn(e.data, p, i))
  }

  ghost predicate Represents(ch: Channel, packets: seq<Packet>, done: nat, ids: seq<nat>) {
    && Stream(packets) && done <= |packets|
    && ch.current == Low(EndOf(packets, done))
    && ch.dispatched == DataOf(packets[..done])
    && |ids| == |ch.pending|
    && (forall j :: 0 <= j < |ids| ==> done <= ids[j] < |packets|)
    && (forall i, j :: 0 <= i < j < |ids| ==> ids[i] < ids[j])
    && (forall j :: 0 <= j < |ids| ==> IsEntry(ch.pending[j], packets, done, ids[j]))
  }

  /** Entry e is for packet p, which is less than 7 windows ahead. */
  ghost predicate IsEntry(e: Entry, packets: seq<Packet>, done: nat, p: nat)
    requires Stream(packets) && done <= p < |packets|
  {
    && e.number == Low(First(packets, p)) && Partial(e, packets[p])
    && SequenceNumbers.Window(First(packets, p)) < SequenceNumbers.Window(EndOf(packets, done)) + FREE_WINDOWS - 1
  }

  /** Command i of packet p has been handed on or is stored. */
  ghost predicate Has(ch: Channel, done: nat, ids: seq<nat>, p: nat, i: nat)
    requires |ids| == |ch.pending|
  {
    p < done || exists j :: 0 <= j < |ids| && ids[j] == p && Holds(ch.pending[j], i)
  }

  predicate Holds(e: Entry, i: nat) {
    e.count == 0 || (i < |e.marks| && e.marks[i])
  }

  predicate IsCommand(packets: seq<Packet>, p: nat, i: nat) {
    Stream(packets) && p < |packets| && i < Units(packets[p])
  }

  /** All commands are kept, and at most command at.1 of packet at.0 is new. */
  ghost predicate Gains(packets: seq<Packet>, at: (nat, nat), ch: Channel, done: nat, ids: seq<nat>, ch': Channel, done': nat, ids': seq<nat>)
    requires |ids| == |ch.pending| && |ids'| == |ch'.pending|
  {
    && done <= done'
    && (forall p: nat, i: nat :: Has(ch, done, ids, p, i) ==> Has(ch', done', ids', p, i))
    && (forall p: nat, i: nat :: IsCommand(packets, p, i) && Has(ch', done', ids', p, i) ==> Has(ch, done, ids, p, i) || at == (p, i))
  }

  // ---- Entries

  /** A complete entry holds the packet. */
  lemma CompleteData(e: Entry, p: Packet)
    requires p.limit > 0 && Partial(e, p) && e.remaining <= 0
    ensures e.data == p.data
  {
    hide Offset, EndOffset, Count, Units;
    if e.count > 0 {
      ClearNone(e.marks);
      forall b: nat | b < |p.data| ensures e.data[b] == p.data[b] {
        var i := ByteInFragment(p, b);
        UnitsPositive(p);
        assert e.marks[i];
      }
    }
  }

  lemma MarkedPartial(e: Entry, packets: seq<Packet>, p: nat, i: nat)
    requires Stream(packets) && p < |packets| && i < Count(packets[p]) && Partial(e, packets[p])
    ensures i < Units(packets[p])
    ensures var cmd := Fragment(packets[p], First(packets, p), i);
            && Fits(e, cmd) && cmd.fragment < cmd.count && cmd.offset + |cmd.payload| <= cmd.total
            && Partial(Marked(e, cmd), packets[p]) && Holds(Marked(e, cmd), i)
            && (forall h: nat :: Holds(e, h) ==> Holds(Marked(e, cmd), h))
            && (forall h: nat :: Holds(Marked(e, cmd), h) ==> Holds(e, h) || h == i)
            && (Marked(e, cmd).count > 0 && Marked(e, cmd).number == e.number)
  {
    hide Offset, EndOffset, Count, EndOf;
    var packet := packets[p];
    Offsets(packet, i);
    var cmd := Fragment(packet, First(packets, p), i);
    if !e.marks[i] {
      ClearSet(e.marks, i);
      var e' := Marked(e, cmd);
      forall h: nat | h < e.count && e'.marks[h] ensures FragmentIn(e'.data, packet, h) {
        forall b: nat | Offset(packet, h) <= b < EndOffset(packet, h) && b < |e'.data| ensures e'.data[b] == packet.data[b] {
          if h != i { assert FragmentIn(e.data, packet, h); }
        }
      }
    }
  }

  lemma BlankPartial(packets: seq<Packet>, p: nat, i: nat)
    requires Stream(packets) && p < |packets| && i < Count(packets[p]) && i < Units(packets[p])
    ensures var cmd := Fragment(packets[p], First(packets, p), i);
            Partial(Blank(cmd), packets[p]) && Blank(cmd).number == Low(First(packets, p))
  {
    hide Offset, EndOffset, EndOf;
    ClearAll(Count(packets[p]));
  }

  // ---- Sorting

  lemma EntryDistance(ch: Channel, packets: seq<Packet>, done: nat, ids: seq<nat>, j: nat)
    requires Represents(ch, packets, done, ids) && j < |ids|
    ensures Distance(ch.current, ch.pending[j].number) == First(packets, ids[j]) - EndOf(packets, done)
    ensures ch.pending[j].number != ch.current
  {
    hide Low, Partial, Count, Units;
    NearDistance(packets, done, ids[j]);
  }

  /** Less than 16 windows ahead, distances are true and numbers differ. */
  lemma NearDistance(packets: seq<Packet>, done: nat, p: nat)
    requires Stream(packets) && done <= p < |packets|
    requires SequenceNumbers.Window(First(packets, p)) < SequenceNumbers.Window(EndOf(packets, done)) + WINDOWS - 1
    ensures EndOf(packets, done) < First(packets, p) < EndOf(packets, done) + WORD16
    ensures Distance(Low(EndOf(packets, done)), Low(First(packets, p))) == First(packets, p) - EndOf(packets, done)
    ensures Low(First(packets, p)) != Low(EndOf(packets, done))
  {
    hide Low, Units, EndOf;
    EndMonotone(packets, done, p);
    DistanceMeaning(First(packets, p), EndOf(packets, done));
    DistanceMeaning(EndOf(packets, done), EndOf(packets, done));
  }

  lemma RepresentsSorted(ch: Channel, packets: seq<Packet>, done: nat, ids: seq<nat>)
    requires Represents(ch, packets, done, ids)
    ensures Sorted(ch.pending, ch.current)
  {
    hide Low, Partial, Units, EndOf, IsEntry, Distance;
    forall j: nat | j < |ids|
      ensures Distance(ch.current, ch.pending[j].number) == First(packets, ids[j]) - EndOf(packets, done)
      ensures ch.pending[j].number != ch.current
    {
      EntryDistance(ch, packets, done, ids, j);
    }
    forall i: nat, j: nat | i < j < |ids| ensures First(packets, ids[i]) < First(packets, ids[j]) {
      EndMonotone(packets, ids[i], ids[j]);
    }
  }

  /** How many pending packets come before p. */
  function Rank(ids: seq<nat>, p: nat): (k: nat)
    ensures k <= |ids|
  {
    if ids == [] || ids[0] >= p then 0 else 1 + Rank(ids[1..], p)
  }

  lemma {:induction false} RankMeaning(ids: seq<nat>, p: nat)
    requires forall i, j :: 0 <= i < j < |ids| ==> ids[i] < ids[j]
    ensures forall i :: 0 <= i < |ids| ==> (i < Rank(ids, p) <==> ids[i] < p)
  {
    if ids != [] && ids[0] < p { RankMeaning(ids[1..], p); }
  }

  /** The place of a number among the pending ones is that of its packet. */
  lemma BeforeRank(ch: Channel, packets: seq<Packet>, done: nat, ids: seq<nat>, p: nat)
    requires Represents(ch, packets, done, ids) && done <= p < |packets|
    requires SequenceNumbers.Window(First(packets, p)) < SequenceNumbers.Window(EndOf(packets, done)) + WINDOWS - 1
    ensures Before(ch.pending, ch.current, Low(First(packets, p))) == Rank(ids, p)
    ensures Known(ch, Low(First(packets, p))) <==> Rank(ids, p) < |ids| && ids[Rank(ids, p)] == p
  {
    hide Low, Partial, Units, EndOf, IsEntry, Distance, Before;
    RepresentsSorted(ch, packets, done, ids);
    RankMeaning(ids, p);
    NearDistance(packets, done, p);
    var n, k := Low(First(packets, p)), Rank(ids, p);
    forall i: nat | i < |ids|
      ensures Distance(ch.current, ch.pending[i].number) < Distance(ch.current, n) <==> ids[i] < p
      ensures Distance(ch.current, ch.pending[i].number) == Distance(ch.current, n) <==> ids[i] == p
    {
      EntryDistance(ch, packets, done, ids, i);
      if ids[i] < p { EndMonotone(packets, ids[i], p); }
      if p < ids[i] { EndMonotone(packets, p, ids[i]); }
    }
    BeforeUnique(ch.pending, ch.current, n, k);
    if k < |ids| && ids[k] == p { EntryNumber(ch, packets, done, ids, k); }
  }

  lemma EntryNumber(ch: Channel, packets: seq<Packet>, done: nat, ids: seq<nat>, k: nat)
    requires Represents(ch, packets, done, ids) && k < |ids|
    ensures ch.pending[k].number == Low(First(packets, ids[k])) && Partial(ch.pending[k], packets[ids[k]])
  {
  }

  // ---- Handing on

  lemma {:induction false} DispatchSettles(ch: Channel)
    ensures Settled(Dispatch(ch))
    decreases |ch.pending|
  {
    if !(ch.pending == [] || ch.pending[0].remaining > 0 || ch.pending[0].number != Following(ch.current)) {
      DispatchSettles(Channel(LastNumber(ch.pending[0]), ch.pending[1..], ch.dispatched + [ch.pending[0].data]));
    }
  }

  /** The first pending entry is in sequence exactly if it is for the next packet. */
  lemma NextInSequence(ch: Channel, packets: seq<Packet>, done: nat, ids: seq<nat>)
    requires Represents(ch, packets, done, ids) && ids != []
    ensures ch.pending[0].number == Following(ch.current) <==> ids[0] == done
  {
    hide Partial, Units, EndOf;
    var r, s := EndOf(packets, done), First(packets, ids[0]);
    LowAdd(r, 1);
    NearDistance(packets, done, ids[0]);
    if Low(s) == Low(r + 1) {
      LowInjective(s, r + 1);
      if done < ids[0] { EndMonotone(packets, done, ids[0]); }
    }
  }

  lemma AfterPacket(e: Entry, packets: seq<Packet>, done: nat)
    requires Stream(packets) && done < |packets| && IsEntry(e, packets, done, done)
    ensures LastNumber(e) == Low(EndOf(packets, done + 1))
    ensures DataOf(packets[..done + 1]) == DataOf(packets[..done]) + [packets[done].data]
    ensures EndOf(packets, done) <= EndOf(packets, done + 1)
  {
    LowAdd(First(packets, done), Units(packets[done]) - 1);
    UnitsPositive(packets[done]);
    EndMonotone(packets, done, done + 1);
  }

  lemma Tail(ch: Channel, packets: seq<Packet>, done: nat, ids: seq<nat>)
    requires Represents(ch, packets, done, ids) && ids != [] && ids[0] == done && ch.pending[0].remaining <= 0
    ensures Represents(Channel(LastNumber(ch.pending[0]), ch.pending[1..], ch.dispatched + [ch.pending[0].data]), packets, done + 1, ids[1..])
  {
    hide Partial, EndOf, Low, LastNumber;
    var e := ch.pending[0];
    AfterPacket(e, packets, done);
    CompleteData(e, packets[done]);
    forall j | 0 <= j < |ids| - 1 ensures IsEntry(ch.pending[1..][j], packets, done + 1, ids[1..][j]) {
      assert IsEntry(ch.pending[j + 1], packets, done, ids[j + 1]);
      WindowMonotone(EndOf(packets, done), EndOf(packets, done + 1));
    }
  }

  lemma TailKeeps(packets: seq<Packet>, at: (nat, nat), ch: Channel, done: nat, ids: seq<nat>, ch': Channel)
    requires |ids| == |ch.pending| > 0 && ids[0] == done && ch'.pending == ch.pending[1..]
    requires forall i: nat :: IsCommand(packets, done, i) ==> Holds(ch.pending[0], i)
    ensures Gains(packets, at, ch, done, ids, ch', done + 1, ids[1..])
  {
    forall p: nat, i: nat | Has(ch, done, ids, p, i) ensures Has(ch', done + 1, ids[1..], p, i) {
      if p > done {
        var j :| 0 <= j < |ids| && ids[j] == p && Holds(ch.pending[j], i);
        assert ids[1..][j - 1] == p && Holds(ch'.pending[j - 1], i);
      }
    }
    forall p: nat, i: nat | IsCommand(packets, p, i) && Has(ch', done + 1, ids[1..], p, i) ensures Has(ch, done, ids, p, i) {
      if p == done {
        assert Holds(ch.pending[0], i);
      } else if p > done {
        var j :| 0 <= j < |ids| - 1 && ids[1..][j] == p && Holds(ch'.pending[j], i);
        assert ids[j + 1] == p && Holds(ch.pending[j + 1], i);
      }
    }
  }

  lemma CompleteHolds(e: Entry, p: Packet, i: nat)
    requires p.limit > 0 && Partial(e, p) && e.remaining <= 0 && i < Units(p)
    ensures Holds(e, i)
  {
    ClearNone(e.marks);
  }

  lemma KeepsTrans(packets: seq<Packet>, at: (nat, nat), a: Channel, ad: nat, ai: seq<nat>, b: Channel, bd: nat, bi: seq<nat>, c: Channel, cd: nat, ci: seq<nat>)
    requires |ai| == |a.pending| && |bi| == |b.pending| && |ci| == |c.pending|
    requires Gains(packets, at, a, ad, ai, b, bd, bi) && Gains(packets, at, b, bd, bi, c, cd, ci)
    ensures Gains(packets, at, a, ad, ai, c, cd, ci)
  {
    hide Has;
  }

  /** Handing on keeps the channel a picture of the packets sent, and forgets nothing. */
  lemma {:induction false} DispatchRepresents(ch: Channel, packets: seq<Packet>, done: nat, ids: seq<nat>, at: (nat, nat))
    returns (done': nat, ids': seq<nat>)
    requires Represents(ch, packets, done, ids)
    ensures Represents(Dispatch(ch), packets, done', ids') && Settled(Dispatch(ch))
    ensures Gains(packets, at, ch, done, ids, Dispatch(ch), done', ids')
    decreases |ch.pending|
  {
    hide Represents, Has, EndOf, Low, LastNumber, Following;
    DispatchSettles(ch);
    if Dispatch(ch) == ch {
      done', ids' := done, ids;
    } else {
      DispatchMoves(ch, packets, done, ids, at);
      var next := Channel(LastNumber(ch.pending[0]), ch.pending[1..], ch.dispatched + [ch.pending[0].data]);
      done', ids' := DispatchRepresents(next, packets, done + 1, ids[1..], at);
      RepresentsSizes(next, packets, done + 1, ids[1..]);
      RepresentsSizes(Dispatch(ch), packets, done', ids');
      KeepsTrans(packets, at, ch, done, ids, next, done + 1, ids[1..], Dispatch(ch), done', ids');
    }
    RepresentsSizes(ch, packets, done, ids);
    RepresentsSizes(Dispatch(ch), packets, done', ids');
  }

  lemma RepresentsSizes(ch: Channel, packets: seq<Packet>, done: nat, ids: seq<nat>)
    requires Represents(ch, packets, done, ids)
    ensures Stream(packets) && done <= |packets| && |ids| == |ch.pending|
    ensures forall j :: 0 <= j < |ids| ==> done <= ids[j] < |packets|
  {
  }

  lemma DispatchMoves(ch: Channel, packets: seq<Packet>, done: nat, ids: seq<nat>, at: (nat, nat))
    requires Represents(ch, packets, done, ids) && Dispatch(ch) != ch
    ensures |ids| == |ch.pending| > 0
    ensures var next := Channel(LastNumber(ch.pending[0]), ch.pending[1..], ch.dispatched + [ch.pending[0].data]);
            && Dispatch(ch) == Dispatch(next)
            && done < |packets| && Represents(next, packets, done + 1, ids[1..])
            && Gains(packets, at, ch, done, ids, next, done + 1, ids[1..])
  {
    hide EndOf, Low, LastNumber, Following, IsEntry, Has;
    var next := Channel(LastNumber(ch.pending[0]), ch.pending[1..], ch.dispatched + [ch.pending[0].data]);
    NextInSequence(ch, packets, done, ids);
    Tail(ch, packets, done, ids);
    EntryNumber(ch, packets, done, ids, 0);
    forall i: nat | IsCommand(packets, done, i) ensures Holds(ch.pending[0], i) {
      CompleteHolds(ch.pending[0], packets[done], i);
    }
    TailKeeps(packets, at, ch, done, ids, next);
  }

  lemma {:induction false} DispatchGrows(ch: Channel)
    ensures |Dispatch(ch).pending| <= |ch.pending|
    decreases |ch.pending|
  {
    if !(ch.pending == [] || ch.pending[0].remaining > 0 || ch.pending[0].number != Following(ch.current)) {
      DispatchGrows(Channel(LastNumber(ch.pending[0]), ch.pending[1..], ch.dispatched + [ch.pending[0].data]));
    }
  }

  // ---- Storing

  function Insert<T>(s: seq<T>, k: nat, x: T): (s': seq<T>)
    requires k <= |s|
    ensures |s'| == |s| + 1 && s'[k] == x
    ensures forall j: nat {:trigger s[j]} {:trigger s'[j]} :: j < k ==> s'[j] == s[j]
    ensures forall j: nat {:trigger s[j]} :: k <= j < |s| ==> s'[j + 1] == s[j]
    ensures forall j: nat {:trigger s'[j]} :: k < j <= |s| ==> s'[j] == s[j - 1]
  {
    s[..k] + [x] + s[k..]
  }

  lemma InsertKeeps(packets: seq<Packet>, at: (nat, nat), ch: Channel, done: nat, ids: seq<nat>, k: nat, e: Entry)
    requires |ids| == |ch.pending| && k <= |ids|
    requires forall i: nat :: IsCommand(packets, at.0, i) && Holds(e, i) ==> i == at.1
    ensures Gains(packets, at, ch, done, ids, ch.(pending := Insert(ch.pending, k, e)), done, Insert(ids, k, at.0))
  {
    hide Insert, Holds, IsCommand;
    var ch', ids' := ch.(pending := Insert(ch.pending, k, e)), Insert(ids, k, at.0);
    forall q: nat, i: nat | Has(ch, done, ids, q, i) ensures Has(ch', done, ids', q, i) {
      if q >= done {
        var j :| 0 <= j < |ids| && ids[j] == q && Holds(ch.pending[j], i);
        var j': nat := if j < k then j else j + 1;
        assert ids'[j'] == q && ch'.pending[j'] == ch.pending[j];
      }
    }
    forall q: nat, i: nat | IsCommand(packets, q, i) && Has(ch', done, ids', q, i) ensures Has(ch, done, ids, q, i) || at == (q, i) {
      if q >= done {
        var j: nat :| j < |ids'| && ids'[j] == q && Holds(ch'.pending[j], i);
        if j != k {
          var j': nat := if j < k then j else j - 1;
          assert ids[j'] == q && Holds(ch.pending[j'], i);
        }
      }
    }
  }

  lemma InsertRepresents(ch: Channel, packets: seq<Packet>, done: nat, ids: seq<nat>, p: nat, e: Entry)
    requires Represents(ch, packets, done, ids) && done <= p < |packets| && p !in ids
    requires IsEntry(e, packets, done, p)
    ensures var k := Rank(ids, p);
            |ids| == |ch.pending| && Represents(ch.(pending := Insert(ch.pending, k, e)), packets, done, Insert(ids, k, p))
  {
    hide EndOf, Low, IsEntry, Insert, Rank;
    RankMeaning(ids, p);
    var k := Rank(ids, p);
    var ids', pending' := Insert(ids, k, p), Insert(ch.pending, k, e);
    forall j: nat | j < |ids'| ensures done <= ids'[j] < |packets| && IsEntry(pending'[j], packets, done, ids'[j]) {
      if j > k { assert ids'[j] == ids[j - 1] && pending'[j] == ch.pending[j - 1]; }
    }
    forall i: nat, j: nat | i < j < |ids'| ensures ids'[i] < ids'[j] {
      if j > k { assert ids'[j] == ids[j - 1]; }
      if i > k { assert ids'[i] == ids[i - 1]; }
    }
  }

  lemma StoreRepresents(ch: Channel, packets: seq<Packet>, done: nat, ids: seq<nat>, p: nat, e: Entry, at: (nat, nat)) returns (ids': seq<nat>)
    requires Represents(ch, packets, done, ids) && done <= p < |packets| && p !in ids
    requires IsEntry(e, packets, done, p) && at.0 == p && forall i: nat :: IsCommand(packets, p, i) && Holds(e, i) ==> i == at.1
    ensures |ids| == |ch.pending| && ids' == Insert(ids, Rank(ids, p), p)
    ensures Store(ch, e) == ch.(pending := Insert(ch.pending, Rank(ids, p), e))
    ensures Represents(Store(ch, e), packets, done, ids')
    ensures Gains(packets, at, ch, done, ids, Store(ch, e), done, ids')
  {
    hide EndOf, Low, IsEntry, Before, Represents, Rank;
    RepresentsSizes(ch, packets, done, ids);
    EntryWindow(e, packets, done, p);
    BeforeRank(ch, packets, done, ids, p);
    ids' := Insert(ids, Rank(ids, p), p);
    InsertRepresents(ch, packets, done, ids, p, e);
    InsertKeeps(packets, at, ch, done, ids, Rank(ids, p), e);
  }

  lemma EntryWindow(e: Entry, packets: seq<Packet>, done: nat, p: nat)
    requires Stream(packets) && done <= p < |packets| && IsEntry(e, packets, done, p)
    ensures e.number == Low(First(packets, p))
    ensures SequenceNumbers.Window(First(packets, p)) < SequenceNumbers.Window(EndOf(packets, done)) + WINDOWS - 1
  {
  }

  lemma ReplaceRepresents(ch: Channel, packets: seq<Packet>, done: nat, ids: seq<nat>, k: nat, e: Entry, i: nat)
    requires Represents(ch, packets, done, ids) && k < |ids| && IsEntry(e, packets, done, ids[k])
    requires forall h: nat :: Holds(ch.pending[k], h) ==> Holds(e, h)
    requires forall h: nat :: Holds(e, h) ==> Holds(ch.pending[k], h) || h == i
    ensures Represents(ch.(pending := ch.pending[k := e]), packets, done, ids)
    ensures Gains(packets, (ids[k], i), ch, done, ids, ch.(pending := ch.pending[k := e]), done, ids)
  {
    hide EndOf, Low, IsEntry, Holds, IsCommand;
    var ch' := ch.(pending := ch.pending[k := e]);
    forall q: nat, h: nat | Has(ch, done, ids, q, h) ensures Has(ch', done, ids, q, h) {
      if q >= done {
        var j :| 0 <= j < |ids| && ids[j] == q && Holds(ch.pending[j], h);
        assert ids[j] == q && Holds(ch'.pending[j], h);
      }
    }
    forall q: nat, h: nat | Has(ch', done, ids, q, h) ensures Has(ch, done, ids, q, h) || (ids[k], i) == (q, h) {
      if q >= done {
        var j :| 0 <= j < |ids| && ids[j] == q && Holds(ch'.pending[j], h);
        if j != k || h != i { assert ids[j] == q && Holds(ch.pending[j], h); }
      }
    }
  }
}
