/** What a channel makes of reliable commands that arrive: the decisions of peer.c and protocol.c on
    16-bit numbers, as functions. */
module Incoming {
  import opened Words
  import opened SequenceNumbers
  import opened Packets

  /** A packet that has started to arrive; count is 0 for a packet sent whole. */
  datatype Entry = Entry(number: uint16, count: nat, remaining: int, marks: seq<bool>, data: seq<byte>)

  /** current is the number of the last command handed on; pending what arrived early. */
  datatype Channel = Channel(current: uint16, pending: seq<Entry>, dispatched: seq<seq<byte>>)

  datatype Result = Result(channel: Channel, ok: bool)

  function Following(n: uint16): uint16 {
    (n + 1) % WORD16
  }

  /** The number of the last command of a packet. */
  function LastNumber(e: Entry): uint16 {
    if e.count > 0 then (e.number + e.count - 1) % WORD16 else e.number
  }

  /** Hands on packets from the front of the pending list while they are complete and in sequence. */
  function Dispatch(ch: Channel): (ch': Channel)
    decreases |ch.pending|
  {
    if ch.pending == [] || ch.pending[0].remaining > 0 || ch.pending[0].number != Following(ch.current) then ch
    else Dispatch(Channel(LastNumber(ch.pending[0]), ch.pending[1..], ch.dispatched + [ch.pending[0].data]))
  }

  predicate Settled(ch: Channel) {
    Dispatch(ch) == ch
  }

  /** Sorted by distance from the current number, none of them current. */
  predicate Sorted(pending: seq<Entry>, current: uint16) {
    && (forall i :: 0 <= i < |pending| ==> pending[i].number != current)
    && forall i, j :: 0 <= i < j < |pending| ==> Distance(current, pending[i].number) < Distance(current, pending[j].number)
  }

  /** How many pending entries are nearer to the current number than n. */
  function Before(pending: seq<Entry>, current: uint16, n: uint16): (k: nat)
    ensures k <= |pending|
  {
    if pending == [] || Distance(current, pending[0].number) >= Distance(current, n) then 0
    else 1 + Before(pending[1..], current, n)
  }

  predicate Known(ch: Channel, n: uint16) {
    var k := Before(ch.pending, ch.current, n);
    k < |ch.pending| && ch.pending[k].number == n
  }

  lemma {:induction false} BeforeMeaning(pending: seq<Entry>, current: uint16, n: uint16)
    requires Sorted(pending, current)
    ensures var k := Before(pending, current, n);
            && (forall i :: 0 <= i < k ==> Distance(current, pending[i].number) < Distance(current, n))
            && (forall i :: k <= i < |pending| ==> Distance(current, pending[i].number) >= Distance(current, n))
  {
    if pending != [] && Distance(current, pending[0].number) < Distance(current, n) {
      BeforeMeaning(pending[1..], current, n);
    }
  }

  lemma {:induction false} BeforeUnique(pending: seq<Entry>, current: uint16, n: uint16, k: nat)
    requires Sorted(pending, current) && k <= |pending|
    requires forall i :: 0 <= i < k ==> Distance(current, pending[i].number) < Distance(current, n)
    requires forall i :: k <= i < |pending| ==> Distance(current, pending[i].number) >= Distance(current, n)
    ensures Before(pending, current, n) == k
  {
    if k > 0 { BeforeUnique(pending[1..], current, n, k - 1); }
  }

  /** Only numbers matter. */
  lemma {:induction false} BeforeReplaced(pending: seq<Entry>, current: uint16, n: uint16, k: nat, e: Entry)
    requires k < |pending| && e.number == pending[k].number
    ensures Before(pending[k := e], current, n) == Before(pending, current, n)
  {
    if k == 0 {
      assert pending[0 := e][1..] == pending[1..];
    } else {
      assert pending[k := e][1..] == pending[1..][k - 1 := e];
      BeforeReplaced(pending[1..], current, n, k - 1, e);
    }
  }

  function Store(ch: Channel, e: Entry): Channel {
    var k := Before(ch.pending, ch.current, e.number);
    ch.(pending := ch.pending[..k] + [e] + ch.pending[k..])
  }

  /** A command that carries a whole packet, refused if it is too long. Otherwise it counts as handled although it is dropped if it is
      known already or too far ahead; full says that too much data waits for the application. */
  function HandleReliable(ch: Channel, cmd: Command, maximumSize: nat, full: bool): Result {
    if |cmd.payload| > maximumSize then Result(ch, false)
    else if !Acceptable(cmd.number, ch.current) || cmd.number == ch.current || Known(ch, cmd.number) then Result(ch, true)
    else if full then Result(ch, false)
    else Result(Dispatch(Store(ch, Entry(cmd.number, 0, 0, [], cmd.payload))), true)
  }

  predicate WellFormed(cmd: Command, maximumSize: nat) {
    && cmd.count <= MAXIMUM_FRAGMENTS && cmd.fragment < cmd.count
    && cmd.total <= maximumSize && cmd.count <= cmd.total
    && cmd.offset < cmd.total && |cmd.payload| <= cmd.total - cmd.offset
  }

  function Blank(cmd: Command): Entry {
    Entry(cmd.start, cmd.count, cmd.count, seq(cmd.count, _ => false), seq(cmd.total, _ => 0))
  }

  predicate Fits(e: Entry, cmd: Command) {
    && e.count > 0 && |e.data| == cmd.total && e.count == cmd.count == |e.marks|
  }

  function Overwrite(data: seq<byte>, offset: nat, payload: seq<byte>): (d: seq<byte>)
    requires offset + |payload| <= |data|
    ensures |d| == |data|
    ensures forall b :: 0 <= b < |data| ==> d[b] == if offset <= b < offset + |payload| then payload[b - offset] else data[b]
  {
    data[..offset] + payload + data[offset + |payload|..]
  }

  function Marked(e: Entry, cmd: Command): Entry
    requires Fits(e, cmd) && cmd.fragment < cmd.count && cmd.offset + |cmd.payload| <= cmd.total
  {
    if e.marks[cmd.fragment] then e
    else e.(remaining := e.remaining - 1, marks := e.marks[cmd.fragment := true], data := Overwrite(e.data, cmd.offset, cmd.payload))
  }

  /** Puts a fragment in its place. */
  function Mark(ch: Channel, cmd: Command): Channel
    requires Known(ch, cmd.start) && cmd.fragment < cmd.count && cmd.offset + |cmd.payload| <= cmd.total
    requires Fits(ch.pending[Before(ch.pending, ch.current, cmd.start)], cmd)
  {
    var k := Before(ch.pending, ch.current, cmd.start);
    var e := Marked(ch.pending[k], cmd);
    var ch' := ch.(pending := ch.pending[k := e]);
    if !ch.pending[k].marks[cmd.fragment] && e.remaining <= 0 then Dispatch(ch') else ch'
  }

  lemma {:induction false} BeforeStored(pending: seq<Entry>, current: uint16, e: Entry)
    ensures var k := Before(pending, current, e.number);
            Before(pending[..k] + [e] + pending[k..], current, e.number) == k
  {
    var k := Before(pending, current, e.number);
    var after := pending[..k] + [e] + pending[k..];
    if k > 0 {
      BeforeStored(pending[1..], current, e);
      assert after[1..] == pending[1..][..k - 1] + [e] + pending[1..][k - 1..];
    }
  }

  lemma StoredKnown(ch: Channel, e: Entry)
    ensures var ch' := Store(ch, e);
            var k := Before(ch.pending, ch.current, e.number);
            Before(ch'.pending, ch'.current, e.number) == k && ch'.pending[k] == e && Known(ch', e.number)
  {
    BeforeStored(ch.pending, ch.current, e);
  }

  /** A command that carries a fragment, refused if it is empty or too long. Fragments of a packet that is too far ahead, or handed on
      already, are dropped but count as handled. */
  function HandleFragment(ch: Channel, cmd: Command, maximumSize: nat, full: bool): Result {
    if |cmd.payload| == 0 || |cmd.payload| > maximumSize then Result(ch, false)
    else if !Acceptable(cmd.start, ch.current) then Result(ch, true)
    else if !WellFormed(cmd, maximumSize) then Result(ch, false)
    else if Known(ch, cmd.start) then
      if Fits(ch.pending[Before(ch.pending, ch.current, cmd.start)], cmd) then Result(Mark(ch, cmd), true) else Result(ch, false)
    else if cmd.start == ch.current || full then Result(ch, false)
    else
      StoredKnown(ch, Blank(cmd));
      Result(Mark(Store(ch, Blank(cmd)), cmd), true)
  }

  /** A fragment that makes no sense is refused, unless it is ignored because its packet is too far ahead
      or old: without data, with more data than the receiver takes, with more than 1048576 fragments or
      more than bytes, not one of its fragments, not within its packet, or unlike the other fragments. */
  lemma MalformedRefused(ch: Channel, cmd: Command, maximumSize: nat, full: bool)
    ensures |cmd.payload| == 0 || |cmd.payload| > maximumSize ==> HandleFragment(ch, cmd, maximumSize, full) == Result(ch, false)
    ensures && Acceptable(cmd.start, ch.current)
            && (|| cmd.count > 1048576 || cmd.fragment >= cmd.count || cmd.total > maximumSize || cmd.total < cmd.count
                || cmd.offset >= cmd.total || |cmd.payload| > cmd.total - cmd.offset) ==>
              HandleFragment(ch, cmd, maximumSize, full) == Result(ch, false)
    ensures Acceptable(cmd.start, ch.current) && Known(ch, cmd.start) ==>
              var e := ch.pending[Before(ch.pending, ch.current, cmd.start)];
              e.count == 0 || |e.data| != cmd.total || e.count != cmd.count ==>
                HandleFragment(ch, cmd, maximumSize, full) == Result(ch, false)
    ensures Acceptable(cmd.start, ch.current) && !Known(ch, cmd.start) && (cmd.start == ch.current || full) ==>
              HandleFragment(ch, cmd, maximumSize, full) == Result(ch, false)
  {
    hide Mark, Store, Dispatch;
  }

  /** One command, whole or fragment. */
  function Handle(ch: Channel, cmd: Command, maximumSize: nat, full: bool): Result {
    if cmd.count == 0 then HandleReliable(ch, cmd, maximumSize, full) else HandleFragment(ch, cmd, maximumSize, full)
  }

  /** Whether a handled command is acknowledged, by its own number and the channel after it. */
  predicate Acknowledged(result: Result, cmd: Command) {
    result.ok && !AckRefused(cmd.number, result.channel.current)
  }

  // ---- Number of fragments missing

  function Clear(marks: seq<bool>): nat {
    if marks == [] then 0 else (if marks[|marks| - 1] then 0 else 1) + Clear(marks[..|marks| - 1])
  }

  lemma {:induction false} ClearSet(marks: seq<bool>, i: nat)
    requires i < |marks| && !marks[i]
    ensures Clear(marks[i := true]) == Clear(marks) - 1
  {
    var n := |marks| - 1;
    if i < n {
      assert marks[i := true][..n] == marks[..n][i := true];
      ClearSet(marks[..n], i);
    } else {
      assert marks[i := true][..n] == marks[..n];
    }
  }

  lemma {:induction false} ClearNone(marks: seq<bool>)
    ensures Clear(marks) == 0 <==> forall i :: 0 <= i < |marks| ==> marks[i]
  {
    if marks != [] { ClearNone(marks[..|marks| - 1]); }
  }

  lemma {:induction false} ClearAll(n: nat)
    ensures Clear(seq(n, _ => false)) == n
  {
    if n > 0 {
      assert seq(n, _ => false)[..n - 1] == seq(n - 1, _ => false);
      ClearAll(n - 1);
    }
  }
}
