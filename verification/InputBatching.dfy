/** The batching of InputStream.c: relative mouse moves added up and sent in 16-bit pieces, controller
    packets merged, scrolling in whole notches. */
module InputBatching {
  import opened BlockingQueue

  const INT16_MIN := -0x8000
  const INT16_MAX := 0x7FFF

  // ---- Relative mouse moves

  /** The piece of a movement that fits in one packet. */
  function Piece(d: int): int {
    if d < INT16_MIN then INT16_MIN else if d > INT16_MAX then INT16_MAX else d
  }

  datatype Move = Move(x: int, y: int)

  function Plus(a: Move, b: Move): Move {
    Move(a.x + b.x, a.y + b.y)
  }

  function Sum(s: seq<Move>): Move {
    if s == [] then Move(0, 0) else Plus(Sum(s[..|s| - 1]), s[|s| - 1])
  }

  lemma SumAppend(s: seq<Move>, m: Move)
    ensures Sum(s + [m]) == Plus(Sum(s), m)
  {
    assert (s + [m])[..|s|] == s;
  }

  function Length(d: int): nat {
    if d < 0 then -d else d
  }

  /** One packet's worth of both movements; what is left is smaller. */
  lemma PieceShrinks(d: int)
    ensures INT16_MIN <= Piece(d) <= INT16_MAX && Length(d - Piece(d)) <= Length(d)
    ensures d != 0 ==> Length(d - Piece(d)) < Length(d) && Piece(d) != 0
  {
  }

  class MouseState {
    var deltaX: int
    var deltaY: int
    var dirty: bool

    constructor ()
      ensures Pending() == Move(0, 0) && !dirty
    {
      deltaX, deltaY, dirty := 0, 0, false;
    }

    function Pending(): Move
      reads this
    {
      Move(deltaX, deltaY)
    }

    /** Adds a movement, and queues a packet unless one is queued; offered says what became of that. */
    method SendMouseMove(dx: int, dy: int, offered: bool) returns (status: int)
      modifies this
      ensures deltaX == old(deltaX) + dx && deltaY == old(deltaY) + dy
      ensures dirty == (old(dirty) || ((dx != 0 || dy != 0) && offered))
      ensures status == -1 <==> (dx != 0 || dy != 0) && !old(dirty) && !offered
    {
      if dx == 0 && dy == 0 {
        return 0;
      }
      deltaX := deltaX + dx;
      deltaY := deltaY + dy;
      if !dirty {
        if !offered {
          return -1;
        }
        dirty := true;
      }
      return 0;
    }

    /** Takes one packet's worth out of the pending movement; more says that there is more to come. */
    method NextPiece() returns (packet: Move, more: bool)
      modifies this
      ensures packet.x == if old(deltaX) < -32768 then -32768 else if old(deltaX) > 32767 then 32767 else old(deltaX)
      ensures packet.y == if old(deltaY) < -32768 then -32768 else if old(deltaY) > 32767 then 32767 else old(deltaY)
      ensures packet == Move(Piece(old(deltaX)), Piece(old(deltaY)))
      ensures packet.x + deltaX == old(deltaX) && packet.y + deltaY == old(deltaY) && dirty == old(dirty)
      ensures more <==> deltaX != 0 || deltaY != 0
    {
      var x, y;
      more := false;
      if deltaX < INT16_MIN {
        x := INT16_MIN;
        deltaX := deltaX - INT16_MIN;
        more := true;
      } else if deltaX > INT16_MAX {
        x := INT16_MAX;
        deltaX := deltaX - INT16_MAX;
        more := true;
      } else {
        x := deltaX;
        deltaX := 0;
      }
      if deltaY < INT16_MIN {
        y := INT16_MIN;
        deltaY := deltaY - INT16_MIN;
        more := true;
      } else if deltaY > INT16_MAX {
        y := INT16_MAX;
        deltaY := deltaY - INT16_MAX;
        more := true;
      } else {
        y := deltaY;
        deltaY := 0;
      }
      packet := Move(x, y);
    }

    /** Sends packets until nothing is pending. While packet k is on its way the lock is free, and
        others add what arrivals[k] says. */
    method SendPending(arrivals: seq<Move>) returns (packets: seq<Move>)
      requires dirty
      modifies this
      ensures Pending() == Move(0, 0) && !dirty
      ensures var n := if |packets| < |arrivals| then |packets| else |arrivals|;
              Sum(packets) == Plus(old(Pending()), Sum(arrivals[..n]))
      ensures forall k :: 0 <= k < |packets| ==>
                packets[k] != Move(0, 0) && -32768 <= packets[k].x <= 32767 && -32768 <= packets[k].y <= 32767
      ensures forall k :: 0 <= k < |packets| ==> Fullest(packets[k], Left(old(Pending()), arrivals, packets, k))
    {
      hide Sum, Plus, Piece, Length, Fullest, Left;
      packets := [];
      ghost var n := 0;
      SumNone(Pending());
      while deltaX != 0 || deltaY != 0
        invariant dirty && n == if |packets| < |arrivals| then |packets| else |arrivals|
        invariant Plus(Sum(packets), Pending()) == Plus(old(Pending()), Sum(arrivals[..n]))
        invariant forall k :: 0 <= k < |packets| ==>
                    packets[k] != Move(0, 0) && -32768 <= packets[k].x <= 32767 && -32768 <= packets[k].y <= 32767
        invariant forall k :: 0 <= k < |packets| ==> Fullest(packets[k], Left(old(Pending()), arrivals, packets, k))
        decreases |arrivals| - n, Length(deltaX) + Length(deltaY)
      {
        PieceShrinks(deltaX);
        PieceShrinks(deltaY);
        ghost var before := Pending();
        LeftIs(before, old(Pending()), arrivals, packets, n);
        var packet, _ := NextPiece();
        PieceFullest(before, packet);
        LeftSame(old(Pending()), arrivals, packets, packet);
        PlusMeans(packet, Pending(), before);
        PlusCancels(packet, Pending(), before);
        SumAppend(packets, packet);
        PlusMoves(Sum(packets), packet, Pending());
        var k := |packets|;
        packets := packets + [packet];
        if k < |arrivals| {
          ghost var left := Pending();
          var _ := SendMouseMove(arrivals[k].x, arrivals[k].y, true);
          PlusMeans(left, arrivals[k], Pending());
          assert arrivals[..n + 1] == arrivals[..n] + [arrivals[n]];
          SumAppend(arrivals[..n], arrivals[n]);
          PlusMoves(Sum(packets), left, arrivals[k]);
          PlusMoves(old(Pending()), Sum(arrivals[..n]), arrivals[k]);
          n := n + 1;
        }
      }
      PlusNothing(Sum(packets));
      dirty := false;
    }
  }

  /** What is pending when packet k is made: the start and what has arrived, without what was sent. */
  function Left(start: Move, arrivals: seq<Move>, packets: seq<Move>, k: nat): Move
    requires k <= |packets|
  {
    var (came, went) := (Sum(if k < |arrivals| then arrivals[..k] else arrivals), Sum(packets[..k]));
    Move(start.x + came.x - went.x, start.y + came.y - went.y)
  }

  /** The packet takes all that is left, as far as 16 bits reach. */
  predicate Fullest(packet: Move, left: Move) {
    && packet.x == (if left.x < -32768 then -32768 else if left.x > 32767 then 32767 else left.x)
    && packet.y == (if left.y < -32768 then -32768 else if left.y > 32767 then 32767 else left.y)
  }

  lemma PieceFullest(left: Move, packet: Move)
    requires packet == Move(Piece(left.x), Piece(left.y))
    ensures Fullest(packet, left)
  {
  }

  lemma PlusMeans(a: Move, b: Move, c: Move)
    requires a.x + b.x == c.x && a.y + b.y == c.y
    ensures Plus(a, b) == c
  {
  }

  lemma LeftIs(pending: Move, start: Move, arrivals: seq<Move>, packets: seq<Move>, n: nat)
    requires n == (if |packets| < |arrivals| then |packets| else |arrivals|)
    requires Plus(Sum(packets), pending) == Plus(start, Sum(arrivals[..n]))
    ensures Left(start, arrivals, packets, |packets|) == pending
  {
    hide Sum;
    assert packets[..|packets|] == packets && arrivals[..|arrivals|] == arrivals;
  }

  lemma LeftSame(start: Move, arrivals: seq<Move>, packets: seq<Move>, packet: Move)
    ensures forall k :: 0 <= k <= |packets| ==> Left(start, arrivals, packets + [packet], k) == Left(start, arrivals, packets, k)
  {
    hide Sum;
    forall k | 0 <= k <= |packets| ensures (packets + [packet])[..k] == packets[..k] {
    }
  }

  lemma SumNone(m: Move)
    ensures Sum([]) == Move(0, 0) && Plus(Sum([]), m) == Plus(m, Sum([]))
  {
  }

  lemma PlusMoves(a: Move, b: Move, c: Move)
    ensures Plus(Plus(a, b), c) == Plus(a, Plus(b, c))
  {
  }

  lemma PlusNothing(a: Move)
    ensures Plus(a, Move(0, 0)) == a
  {
  }

  lemma PlusCancels(a: Move, b: Move, c: Move)
    requires Plus(a, b) == c
    ensures b == Move(c.x - a.x, c.y - a.y)
  {
  }

  // ---- The same, interleaved with everything else

  /** queued: a packet for the movement is in the queue; sending: the sender has taken it. */
  datatype Mouse = Mouse(pending: Move, dirty: bool, queued: bool, sending: bool,
                         submitted: Move, sent: Move, refused: bool)

  datatype MouseStep = Submit(move: Move, offered: bool) | Take | SendPiece | Finish

  predicate MouseEnabled(m: Mouse, step: MouseStep) {
    match step
    case Submit(_, _) => true
    case Take => m.queued && !m.sending
    case SendPiece => m.sending && m.pending != Move(0, 0)
    case Finish => m.sending && m.pending == Move(0, 0)
  }

  function MouseNext(m: Mouse, step: MouseStep): Mouse
    requires MouseEnabled(m, step)
  {
    match step
    case Submit(move, offered) =>
      if move == Move(0, 0) then m
      else
        m.(pending := Plus(m.pending, move), submitted := Plus(m.submitted, move),
           dirty := m.dirty || offered, queued := m.queued || (!m.dirty && offered),
           refused := if m.dirty then m.refused else !offered)
    case Take => m.(queued := false, sending := true)
    case SendPiece =>
      var piece := Move(Piece(m.pending.x), Piece(m.pending.y));
      m.(pending := Move(m.pending.x - piece.x, m.pending.y - piece.y), sent := Plus(m.sent, piece))
    case Finish => m.(dirty := false, sending := false)
  }

  ghost predicate MouseRun(ms: seq<Mouse>, steps: seq<MouseStep>) {
    && |ms| == |steps| + 1
    && ms[0] == Mouse(Move(0, 0), false, false, false, Move(0, 0), Move(0, 0), false)
    && forall i :: 0 <= i < |steps| ==> MouseEnabled(ms[i], steps[i]) && ms[i + 1] == MouseNext(ms[i], steps[i])
  }

  /** What was sent and what is pending add up to what was submitted; dirty says whether a packet is on
      its way; a movement is pending without one only after the last offer was refused. */
  predicate Settled(m: Mouse) {
    && Plus(m.sent, m.pending) == m.submitted
    && (m.dirty <==> m.queued || m.sending) && !(m.queued && m.sending)
    && (m.pending != Move(0, 0) && !m.dirty ==> m.refused)
  }

  lemma MouseStepSettled(m: Mouse, step: MouseStep)
    requires Settled(m) && MouseEnabled(m, step)
    ensures Settled(MouseNext(m, step))
  {
    hide Piece;
  }

  /** No movement is lost, however calls and packets interleave and whichever offers are refused. */
  lemma {:induction false} NoMoveLost(ms: seq<Mouse>, steps: seq<MouseStep>, n: nat)
    requires MouseRun(ms, steps) && n < |ms|
    ensures Plus(ms[n].sent, ms[n].pending) == ms[n].submitted
    ensures ms[n].pending != Move(0, 0) ==> ms[n].queued || ms[n].sending || ms[n].refused
    ensures Settled(ms[n])
  {
    hide MouseNext, MouseEnabled;
    if n > 0 {
      NoMoveLost(ms, steps, n - 1);
      assert ms[n - 1 + 1] == MouseNext(ms[n - 1], steps[n - 1]);
      MouseStepSettled(ms[n - 1], steps[n - 1]);
    }
  }

  // ---- Controller packets

  datatype Analog = Analog(leftTrigger: int, rightTrigger: int, leftX: int, leftY: int, rightX: int, rightY: int)

  datatype Packet =
    | Controller(number: int, mask: int, buttons: int, buttons2: int, analog: Analog)
    | Other(id: int)

  /** What must agree for two packets to be merged; the rest of a controller packet is analog. */
  datatype Key = Buttons(number: int, mask: int, buttons: int, buttons2: int) | Event(id: int)

  function KeyOf(p: Packet): Key {
    match p
    case Controller(n, m, b, b2, _) => Buttons(n, m, b, b2)
    case Other(id) => Event(id)
  }

  predicate Mergeable(p: Packet, next: Packet) {
    p.Controller? && next.Controller? && KeyOf(next) == KeyOf(p)
  }

  /** How many packets at the front can be merged into p. */
  function Merges(p: Packet, items: seq<Packet>): (n: nat)
    ensures n <= |items|
  {
    if items == [] || !Mergeable(p, items[0]) then 0 else 1 + Merges(p, items[1..])
  }

  /** Takes the next packet from the queue, if it can be merged into p. */
  method TakeMergeable(queue: LinkedBlockingQueue<Packet>, p: Packet) returns (taken: bool, next: Packet)
    requires queue.Valid()
    modifies queue, queue.entries
    ensures queue.Valid()
    ensures var items := old(queue.State()).items;
            && (taken <==> !old(queue.shutdown) && items != [] && Mergeable(p, items[0]))
            && queue.State() == (if taken then old(queue.State()).(items := items[1..]) else old(queue.State()))
            && (taken ==> next == items[0])
    ensures queue.entries == if taken then old(queue.entries)[1..] else old(queue.entries)
  {
    var peeked := queue.Peek();
    next := p;
    if !peeked.Success? {
      return false, next;
    }
    if !Mergeable(p, peeked.data) {
      return false, next;
    }
    var polled := queue.Poll();
    return true, polled.data;
  }

  lemma StateFields(queue: LinkedBlockingQueue<Packet>)
    ensures |queue.State().items| == |queue.entries| && queue.State().shutdown == queue.shutdown
  {
  }

  /** The first n packets are from the same controllers with the same buttons; nothing is taken from a
      stopped queue, and otherwise the next packet is none of a controller or differs in one of these. */
  predicate MergedInNumbers(first: Packet, items: seq<Packet>, n: int, shutdown: bool)
    requires first.Controller?
  {
    && 0 <= n <= |items|
    && (forall i :: 0 <= i < n ==>
          && items[i].Controller? && items[i].number == first.number && items[i].mask == first.mask
          && items[i].buttons == first.buttons && items[i].buttons2 == first.buttons2)
    && (shutdown ==> n == 0)
    && (!shutdown && n < |items| ==>
          || !items[n].Controller? || items[n].number != first.number || items[n].mask != first.mask
          || items[n].buttons != first.buttons || items[n].buttons2 != first.buttons2)
  }

  lemma {:induction false} MergesMeans(first: Packet, items: seq<Packet>)
    requires first.Controller?
    ensures MergedInNumbers(first, items, Merges(first, items), false)
  {
    if items != [] && Mergeable(first, items[0]) { MergesMeans(first, items[1..]); }
  }

  lemma MergesStep(first: Packet, p: Packet, items: seq<Packet>, n: nat)
    requires n <= |items| && KeyOf(p) == KeyOf(first) && p.Controller? && first.Controller?
    ensures Merges(first, items[n..])
         == if n < |items| && Mergeable(p, items[n]) then 1 + Merges(first, items[n + 1..]) else 0
  {
    if n < |items| { assert items[n..][1..] == items[n + 1..]; }
  }

  /** Takes packets from the queue and merges them into the first, until there is none or it differs. */
  method MergeControllers(queue: LinkedBlockingQueue<Packet>, first: Packet) returns (packet: Packet)
    requires queue.Valid() && first.Controller?
    modifies queue, queue.entries
    ensures queue.Valid()
    ensures var items := old(queue.State()).items;
            var n := if old(queue.shutdown) then 0 else Merges(first, items);
            && queue.State() == old(queue.State()).(items := items[n..])
            && packet == if n == 0 then first else items[n - 1]
    ensures MergedInNumbers(first, old(queue.State()).items, |old(queue.entries)| - |queue.entries|, old(queue.shutdown))
  {
    hide Merges, Mergeable, MergedInNumbers, KeyOf, LinkedBlockingQueue.Valid, LinkedBlockingQueue.State;
    packet := first;
    StateFields(queue);
    ghost var start := queue.State();
    ghost var items, n, entries := start.items, 0, queue.entries;
    assert items[0..] == items && entries[0..] == entries;
    while true
      invariant queue.Valid() && n <= |items| == |entries| && queue.entries == entries[n..]
      invariant queue.State() == start.(items := items[n..])
      invariant packet.Controller? && KeyOf(packet) == KeyOf(first)
      invariant packet == if n == 0 then first else items[n - 1]
      invariant n > 0 ==> !start.shutdown
      invariant !start.shutdown ==> Merges(first, items) == n + Merges(first, items[n..])
      decreases |items| - n
    {
      MergesStep(first, packet, items, n);
      StateFields(queue);
      var taken, next := TakeMergeable(queue, packet);
      if !taken {
        break;
      }
      MergeableController(packet, next);
      packet := Controller(packet.number, packet.mask, packet.buttons, packet.buttons2, next.analog);
      n := n + 1;
    }
    MergedCount(first, items, n, start.shutdown);
  }

  lemma MergedCount(first: Packet, items: seq<Packet>, n: nat, shutdown: bool)
    requires first.Controller? && n == if shutdown then 0 else Merges(first, items)
    ensures MergedInNumbers(first, items, n, shutdown)
  {
    MergesMeans(first, items);
  }

  lemma MergeableController(p: Packet, next: Packet)
    requires Mergeable(p, next)
    ensures p.Controller? && next == Controller(p.number, p.mask, p.buttons, p.buttons2, next.analog) && KeyOf(next) == KeyOf(p)
  {
  }

  /** sent stands for given: each packet sent is the last of a run of packets that agree in their key. */
  ghost predicate Batched(sent: seq<Packet>, given: seq<Packet>)
    decreases |sent|
  {
    if sent == [] then given == []
    else exists k: nat :: k < |given| && Agree(given[k..]) && sent[|sent| - 1] == given[|given| - 1] && Batched(sent[..|sent| - 1], given[..k])
  }

  ghost predicate Agree(s: seq<Packet>) {
    s != [] && (|s| > 1 ==> s[0].Controller?) && forall i :: 0 <= i < |s| ==> KeyOf(s[i]) == KeyOf(s[0])
  }

  /** The changes of keys, without repetitions. */
  function Changes(s: seq<Packet>): seq<Key> {
    if s == [] then []
    else
      var n := |s| - 1;
      if n > 0 && KeyOf(s[n - 1]) == KeyOf(s[n]) && s[n].Controller? then Changes(s[..n]) else Changes(s[..n]) + [KeyOf(s[n])]
  }

  lemma {:induction false} ChangesOfRun(s: seq<Packet>, k: nat)
    requires k < |s| && Agree(s[k..])
    ensures Changes(s) == Changes(s[..k + 1])
    decreases |s|
  {
    var n := |s| - 1;
    if k == n {
      assert s[..k + 1] == s;
    } else {
      assert s[k..][n - k] == s[n] && s[k..][n - 1 - k] == s[n - 1];
      assert s[..n][k..] == s[k..][..n - k];
      ChangesOfRun(s[..n], k);
      assert s[..n][..k + 1] == s[..k + 1];
    }
  }

  /** No change of buttons is dropped or reordered, and the last state sent is the last one given. */
  lemma {:induction false} BatchingKeepsChanges(sent: seq<Packet>, given: seq<Packet>)
    requires Batched(sent, given)
    ensures Changes(sent) == Changes(given)
    ensures sent == [] <==> given == []
    ensures sent != [] ==> sent[|sent| - 1] == given[|given| - 1]
    decreases |sent|
  {
    hide Changes, Agree;
    if sent == [] {
    } else {
      var m := |sent| - 1;
      var k: nat :| k < |given| && Agree(given[k..]) && sent[m] == given[|given| - 1] && Batched(sent[..m], given[..k]);
      BatchingKeepsChanges(sent[..m], given[..k]);
      ChangesOfRun(given, k);
      RunKeys(given, k);
      ChangesLast(sent);
      ChangesLast(given[..k + 1]);
      assert given[..k + 1][..k] == given[..k];
    }
  }

  lemma RunKeys(given: seq<Packet>, k: nat)
    requires k < |given| && Agree(given[k..])
    ensures KeyOf(given[|given| - 1]) == KeyOf(given[k]) && given[|given| - 1].Controller? == given[k].Controller?
  {
    assert given[k..][|given| - 1 - k] == given[|given| - 1] && given[k..][0] == given[k];
  }

  lemma ChangesLast(s: seq<Packet>)
    requires s != []
    ensures var n := |s| - 1;
            Changes(s) == if n > 0 && KeyOf(s[..n][n - 1]) == KeyOf(s[n]) && s[n].Controller? then Changes(s[..n])
                          else Changes(s[..n]) + [KeyOf(s[n])]
  {
  }

  /** submitted packets were accepted by the queue; current is the run being merged. */
  datatype Sender = Sender(submitted: seq<Packet>, queue: seq<Packet>, current: seq<Packet>, sent: seq<Packet>)

  datatype SenderStep = Accept(packet: Packet) | TakeNext | MergeNext | Emit

  predicate SenderEnabled(s: Sender, step: SenderStep) {
    match step
    case Accept(_) => true
    case TakeNext => s.current == [] && s.queue != []
    case MergeNext => s.current != [] && s.queue != [] && Mergeable(s.current[|s.current| - 1], s.queue[0])
    case Emit => s.current != []
  }

  function SenderNext(s: Sender, step: SenderStep): Sender
    requires SenderEnabled(s, step)
  {
    match step
    case Accept(p) => s.(submitted := s.submitted + [p], queue := s.queue + [p])
    case TakeNext => s.(current := [s.queue[0]], queue := s.queue[1..])
    case MergeNext => s.(current := s.current + [s.queue[0]], queue := s.queue[1..])
    case Emit => s.(current := [], sent := s.sent + [s.current[|s.current| - 1]])
  }

  ghost predicate SenderRun(ss: seq<Sender>, steps: seq<SenderStep>) {
    && |ss| == |steps| + 1 && ss[0] == Sender([], [], [], [])
    && forall i :: 0 <= i < |steps| ==> SenderEnabled(ss[i], steps[i]) && ss[i + 1] == SenderNext(ss[i], steps[i])
  }

  /** done is what has been sent, in runs. */
  ghost predicate Consistent(s: Sender, done: seq<Packet>) {
    && s.submitted == done + s.current + s.queue && Batched(s.sent, done)
    && (s.current != [] ==> Agree(s.current))
  }

  lemma EmitBatched(sent: seq<Packet>, done: seq<Packet>, run: seq<Packet>)
    requires Batched(sent, done) && Agree(run)
    ensures Batched(sent + [run[|run| - 1]], done + run)
  {
    var given, sent' := done + run, sent + [run[|run| - 1]];
    assert given[|done|..] == run && given[..|done|] == done && sent'[..|sent'| - 1] == sent;
  }

  lemma {:induction false} SenderConsistent(ss: seq<Sender>, steps: seq<SenderStep>, n: nat) returns (done: seq<Packet>)
    requires SenderRun(ss, steps) && n < |ss|
    ensures Consistent(ss[n], done)
  {
    hide Consistent, SenderNext, SenderEnabled;
    if n == 0 {
      done := [];
      NothingBatched();
    } else {
      done := SenderConsistent(ss, steps, n - 1);
      assert ss[n - 1 + 1] == SenderNext(ss[n - 1], steps[n - 1]);
      done := StepConsistent(ss[n - 1], steps[n - 1], done);
    }
  }

  lemma StepConsistent(s: Sender, step: SenderStep, done: seq<Packet>) returns (done': seq<Packet>)
    requires Consistent(s, done) && SenderEnabled(s, step)
    ensures Consistent(SenderNext(s, step), done')
  {
    hide Batched, Mergeable;
    done' := done;
    match step
    case Accept(p) =>
      assert done + s.current + (s.queue + [p]) == done + s.current + s.queue + [p];
    case TakeNext =>
      assert s.queue == [s.queue[0]] + s.queue[1..];
      assert done + [s.queue[0]] + s.queue[1..] == done + s.current + s.queue;
    case MergeNext =>
      MergeAgrees(s.current, s.queue[0]);
      assert s.queue == [s.queue[0]] + s.queue[1..];
      assert done + (s.current + [s.queue[0]]) + s.queue[1..] == done + s.current + s.queue;
    case Emit =>
      EmitBatched(s.sent, done, s.current);
      done' := done + s.current;
      assert done' + [] + s.queue == done' + s.queue;
  }

  lemma MergeAgrees(run: seq<Packet>, p: Packet)
    requires Agree(run) && Mergeable(run[|run| - 1], p)
    ensures Agree(run + [p])
  {
  }

  lemma NothingBatched()
    ensures Consistent(Sender([], [], [], []), [])
  {
  }

  /** For every interleaving of submissions, merging and sending: the changes of buttons that were sent
      are those of a prefix of what was submitted, and the whole of it once the queue is empty. */
  lemma NoButtonChangeLost(ss: seq<Sender>, steps: seq<SenderStep>, n: nat) returns (done: seq<Packet>)
    requires SenderRun(ss, steps) && n < |ss|
    ensures done <= ss[n].submitted && Changes(ss[n].sent) == Changes(done)
    ensures ss[n].queue == [] && ss[n].current == [] ==> done == ss[n].submitted
    ensures done != [] ==> ss[n].sent != [] && ss[n].sent[|ss[n].sent| - 1] == done[|done| - 1]
  {
    hide Batched, Changes;
    done := SenderConsistent(ss, steps, n);
    BatchingKeepsChanges(ss[n].sent, done);
    assert done + [] + [] == done;
  }

  // ---- Scrolling in notches

  const WHEEL_DELTA := 120

  class Scroll {
    var batchedScrollDelta: int

    constructor ()
      ensures batchedScrollDelta == 0
    {
      batchedScrollDelta := 0;
    }

    /** Sends whole notches and keeps the rest; room is how many packets the queue accepts. What is
        left in the other direction is forgotten. */
    method SendHighResScroll(amount: int, room: nat) returns (accepted: bool, packets: seq<int>)
      modifies this
      ensures amount == 0 ==> accepted && packets == [] && batchedScrollDelta == old(batchedScrollDelta)
      ensures forall i :: 0 <= i < |packets| ==> packets[i] == if amount > 0 then 120 else -120
      ensures |packets| <= room && (!accepted ==> |packets| == room)
      ensures amount > 0 ==>
                && (if old(batchedScrollDelta) < 0 then 0 else old(batchedScrollDelta)) + amount == 120 * |packets| + batchedScrollDelta
                && batchedScrollDelta >= 0 && (accepted <==> batchedScrollDelta < 120)
      ensures amount < 0 ==>
                && (if old(batchedScrollDelta) > 0 then 0 else old(batchedScrollDelta)) + amount == -120 * |packets| + batchedScrollDelta
                && batchedScrollDelta <= 0 && (accepted <==> batchedScrollDelta > -120)
    {
      packets := [];
      if amount == 0 {
        return true, [];
      }
      if (batchedScrollDelta < 0 && amount > 0) || (batchedScrollDelta > 0 && amount < 0) {
        batchedScrollDelta := 0;
      }
      batchedScrollDelta := batchedScrollDelta + amount;
      ghost var total := batchedScrollDelta;
      while batchedScrollDelta >= WHEEL_DELTA || batchedScrollDelta <= -WHEEL_DELTA
        invariant total == (if amount > 0 then 120 else -120) * |packets| + batchedScrollDelta
        invariant |packets| <= room
        invariant forall i :: 0 <= i < |packets| ==> packets[i] == if amount > 0 then 120 else -120
        invariant if amount > 0 then batchedScrollDelta >= 0 else batchedScrollDelta <= 0
        decreases Length(batchedScrollDelta)
      {
        var scrollAmount := if batchedScrollDelta > 0 then WHEEL_DELTA else -WHEEL_DELTA;
        if |packets| == room {
          return false, packets;
        }
        packets := packets + [scrollAmount];
        batchedScrollDelta := batchedScrollDelta - scrollAmount;
      }
      accepted := true;
    }
  }
}
