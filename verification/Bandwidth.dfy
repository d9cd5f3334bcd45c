/** The arithmetic of sharing bandwidth among the peers of a host, from host.c. */
module Bandwidth {
  import opened Words

  const SCALE := 32
  const INTERVAL := 1000

  datatype State =
    | Disconnected | Connecting | AcknowledgingConnect | ConnectionPending | ConnectionSucceeded
    | Connected | DisconnectLater | Disconnecting | AcknowledgingDisconnect | Zombie

  datatype Peer = Peer(state: State, incomingBandwidth: uint32, outgoingBandwidth: uint32,
                       incomingDataTotal: nat, outgoingDataTotal: nat, packetThrottle: nat, packetThrottleLimit: nat,
                       incomingEpoch: uint32, outgoingEpoch: uint32)

  predicate Active(p: Peer) {
    p.state == Connected || p.state == DisconnectLater
  }

  // ---- Sums over peers

  function Total(v: seq<nat>): nat {
    if v == [] then 0 else Total(v[..|v| - 1]) + v[|v| - 1]
  }

  lemma {:induction false} TotalUpdate(v: seq<nat>, i: nat, x: nat)
    requires i < |v|
    ensures v[i] <= Total(v) && Total(v[i := x]) == Total(v) - v[i] + x
  {
    var n := |v| - 1;
    if i == n {
      assert v[i := x][..n] == v[..n];
    } else {
      assert v[i := x][..n] == v[..n][i := x];
      TotalUpdate(v[..n], i, x);
    }
  }

  lemma {:induction false} TotalZero(v: seq<nat>)
    requires forall i :: 0 <= i < |v| ==> v[i] == 0
    ensures Total(v) == 0
  {
    if v != [] { TotalZero(v[..|v| - 1]); }
  }

  /** A sum is bounded if its terms are. */
  lemma {:induction false} TotalBound(u: seq<nat>, v: seq<nat>, w: seq<nat>, a: nat, b: nat)
    requires |u| == |v| == |w| && forall i :: 0 <= i < |u| ==> u[i] <= a * v[i] + b * w[i]
    ensures Total(u) <= a * Total(v) + b * Total(w)
  {
    if u != [] {
      var n := |u| - 1;
      TotalBound(u[..n], v[..n], w[..n], a, b);
      Distribute(a, Total(v[..n]), v[n]);
      Distribute(b, Total(w[..n]), w[n]);
    }
  }

  lemma Distribute(a: nat, x: nat, y: nat)
    ensures a * (x + y) == a * x + a * y
  {
  }

  /** How many peers are active. */
  function CountActive(s: seq<Peer>): nat {
    if s == [] then 0 else CountActive(s[..|s| - 1]) + if Active(s[|s| - 1]) then 1 else 0
  }

  /** How many active peers have a limited bandwidth. */
  function CountLimited(s: seq<Peer>): nat {
    if s == [] then 0
    else CountLimited(s[..|s| - 1]) + if Active(s[|s| - 1]) && s[|s| - 1].incomingBandwidth != 0 then 1 else 0
  }

  /** The peers in one of the two states in which they count, and those of them with a bandwidth. */
  ghost function InCount(s: seq<Peer>): set<nat> {
    set i: nat | i < |s| && (s[i].state == Connected || s[i].state == DisconnectLater)
  }

  ghost function InLimitedCount(s: seq<Peer>): set<nat> {
    set i: nat | i in InCount(s) && s[i].incomingBandwidth > 0
  }

  lemma {:induction false} CountsInNumbers(s: seq<Peer>)
    ensures CountActive(s) == |InCount(s)| && CountLimited(s) == |InLimitedCount(s)|
  {
    if s == [] {
      assert InCount(s) == {} && InLimitedCount(s) == {};
    } else {
      var n := |s| - 1;
      CountsInNumbers(s[..n]);
      InCountNext(s);
    }
  }

  lemma InCountNext(s: seq<Peer>)
    requires s != []
    ensures var n := |s| - 1;
            && n !in InCount(s[..n])
            && InCount(s) == (if Active(s[n]) then InCount(s[..n]) + {n} else InCount(s[..n]))
            && InLimitedCount(s) == (if Active(s[n]) && s[n].incomingBandwidth > 0 then InLimitedCount(s[..n]) + {n} else InLimitedCount(s[..n]))
  {
    var t := s[..|s| - 1];
    forall i: nat | i < |t| ensures t[i] == s[i] {
    }
  }

  lemma {:induction false} CountUpdate(s: seq<Peer>, i: nat, p: Peer)
    requires i < |s|
    ensures CountActive(s[i := p]) == CountActive(s) - (if Active(s[i]) then 1 else 0) + if Active(p) then 1 else 0
    ensures CountLimited(s[i := p])
         == CountLimited(s) - (if Active(s[i]) && s[i].incomingBandwidth != 0 then 1 else 0) + if Active(p) && p.incomingBandwidth != 0 then 1 else 0
    ensures Active(s[i]) ==> CountActive(s) > 0
    ensures Active(s[i]) && s[i].incomingBandwidth != 0 ==> CountLimited(s) > 0
  {
    var n := |s| - 1;
    if i == n {
      assert s[i := p][..n] == s[..n];
    } else {
      assert s[i := p][..n] == s[..n][i := p];
      CountUpdate(s[..n], i, p);
    }
  }

  // ---- Shares of the outgoing bandwidth

  /** The largest throttle, in 32nds, that brings a total down to a bandwidth. */
  function Throttle(dataTotal: nat, bandwidth: nat): (t: nat)
    ensures t <= SCALE && t * dataTotal <= SCALE * bandwidth
    ensures t < SCALE ==> (t + 1) * dataTotal > SCALE * bandwidth
  {
    if dataTotal <= bandwidth then SCALE
    else
      QuotientLess(bandwidth * SCALE, dataTotal);
      Quotient(bandwidth * SCALE, dataTotal)
  }

  function Quotient(a: nat, b: nat): nat
    requires b > 0
  {
    a / b
  }

  lemma QuotientLess(a: nat, b: nat)
    requires b > 0
    ensures Quotient(a, b) * b <= a < (Quotient(a, b) + 1) * b && (a < SCALE * b ==> Quotient(a, b) < SCALE)
  {
    var q, r := a / b, a % b;
    assert a == q * b + r;
    if q >= SCALE { assert q * b >= SCALE * b; }
  }

  /** Taking the same from both never raises the throttle. */
  lemma ThrottleFalls(dataTotal: nat, bandwidth: nat, p: nat)
    requires p <= dataTotal && p <= bandwidth
    ensures Throttle(dataTotal - p, bandwidth - p) <= Throttle(dataTotal, bandwidth)
  {
    var t, t' := Throttle(dataTotal, bandwidth), Throttle(dataTotal - p, bandwidth - p);
    hide Throttle;
    if t' > t {
      Product(t + 1, t', dataTotal - p);
      Distribute(t + 1, dataTotal - p, p);
      Product(t + 1, SCALE, p);
    }
  }

  /** What a peer may receive in the elapsed time. */
  function Allowance(p: Peer, elapsed: nat): nat {
    p.incomingBandwidth * elapsed / 1000
  }

  function Share(allowance: nat, data: nat): nat
    requires data > 0
  {
    allowance * SCALE / data
  }

  function Limited(p: Peer, limit: nat): Peer {
    p.(packetThrottleLimit := limit, packetThrottle := if p.packetThrottle > limit then limit else p.packetThrottle,
       incomingDataTotal := 0, outgoingDataTotal := 0)
  }

  /** A peer that was given its own share, at least 1. */
  function Adjusted(p: Peer, allowance: nat, time: uint32): Peer
    requires p.outgoingDataTotal > 0
  {
    var limit := Share(allowance, p.outgoingDataTotal);
    Limited(p, if limit == 0 then 1 else limit).(outgoingEpoch := time)
  }

  /** Active and not given a share of its own yet. */
  predicate Waiting(p: Peer, time: uint32) {
    Active(p) && p.outgoingEpoch != time
  }

  /** With throttle t the peer stays within its own bandwidth. */
  predicate Content(p: Peer, elapsed: nat, t: nat) {
    p.incomingBandwidth == 0 || t * p.outgoingDataTotal / SCALE <= Allowance(p, elapsed)
  }

  ghost function WaitingData(s: seq<Peer>, time: uint32): (v: seq<nat>)
    ensures |v| == |s| && forall i :: 0 <= i < |s| ==> v[i] == if Waiting(s[i], time) then s[i].outgoingDataTotal else 0
  {
    seq(|s|, i requires 0 <= i < |s| => if Waiting(s[i], time) then s[i].outgoingDataTotal else 0)
  }

  ghost function WaitingOnes(s: seq<Peer>, time: uint32): (v: seq<nat>)
    ensures |v| == |s| && forall i :: 0 <= i < |s| ==> v[i] == if Waiting(s[i], time) then 1 else 0
  {
    seq(|s|, i requires 0 <= i < |s| => if Waiting(s[i], time) then 1 else 0)
  }

  /** What the peers adjusted so far were given. */
  ghost function Given(before: seq<Peer>, s: seq<Peer>, elapsed: nat, time: uint32): (v: seq<nat>)
    requires |before| == |s|
    ensures |v| == |s|
    ensures forall i :: 0 <= i < |s| ==> v[i] == if Active(s[i]) && !Waiting(s[i], time) then Allowance(before[i], elapsed) else 0
  {
    seq(|s|, i requires 0 <= i < |s| => if Active(s[i]) && !Waiting(s[i], time) then Allowance(before[i], elapsed) else 0)
  }

  /** Mid-way: every peer is as it was, or was given its own share because it exceeded it. */
  ghost predicate Partly(before: seq<Peer>, s: seq<Peer>, elapsed: nat, time: uint32) {
    && |before| == |s|
    && forall i :: 0 <= i < |s| ==>
         || (s[i] == before[i] && (Active(s[i]) ==> Waiting(s[i], time)))
         || (Active(before[i]) && before[i].incomingBandwidth != 0 && before[i].outgoingDataTotal > Allowance(before[i], elapsed)
             && s[i] == Adjusted(before[i], Allowance(before[i], elapsed), time))
  }

  /** The budget that is left covers the throttled data of the peers that wait; dataTotal covers their
      data; what was given and what is left add up. */
  ghost predicate Balanced(before: seq<Peer>, s: seq<Peer>, elapsed: nat, time: uint32,
                           remaining: int, dataTotal: int, bandwidth: int, budget: nat)
  {
    && Partly(before, s, elapsed, time)
    && remaining == Total(WaitingOnes(s, time))
    && bandwidth >= 0 && bandwidth + Total(Given(before, s, elapsed, time)) == budget
    && dataTotal >= Total(WaitingData(s, time))
  }

  lemma ExceedsAllowance(t: nat, data: nat, allowance: nat)
    requires t <= SCALE && t * data / SCALE > allowance
    ensures data > allowance && t * data >= SCALE * allowance
  {
    var q := t * data / SCALE;
    assert t * data >= SCALE * q;
    Product(t, SCALE, data);
  }

  lemma Product(a: nat, b: nat, c: nat)
    requires a <= b
    ensures a * c <= b * c
  {
  }

  /** Giving one waiting peer its own share keeps the balance, and the budget that is left does not
      fall below the throttled data that waits. */
  lemma AdjustBalanced(before: seq<Peer>, s: seq<Peer>, elapsed: nat, time: uint32,
                       remaining: int, dataTotal: int, bandwidth: int, budget: nat, i: nat, t: nat)
    requires Balanced(before, s, elapsed, time, remaining, dataTotal, bandwidth, budget)
    requires i < |s| && Waiting(s[i], time) && s[i].incomingBandwidth != 0 && t <= SCALE
    requires t * s[i].outgoingDataTotal / SCALE > Allowance(s[i], elapsed)
    requires t * Total(WaitingData(s, time)) <= SCALE * bandwidth
    ensures s[i].outgoingDataTotal > 0
    ensures var a := Allowance(s[i], elapsed);
            var s' := s[i := Adjusted(s[i], a, time)];
            && Balanced(before, s', elapsed, time, remaining - 1, dataTotal - a, bandwidth - a, budget)
            && t * Total(WaitingData(s', time)) <= SCALE * (bandwidth - a)
            && remaining > 0
  {
    hide Total, Allowance, Share;
    var a, d := Allowance(s[i], elapsed), s[i].outgoingDataTotal;
    ExceedsAllowance(t, d, a);
    var s' := s[i := Adjusted(s[i], a, time)];
    TotalUpdate(WaitingData(s, time), i, 0);
    TotalUpdate(WaitingOnes(s, time), i, 0);
    TotalUpdate(Given(before, s, elapsed, time), i, a);
    assert WaitingData(s', time) == WaitingData(s, time)[i := 0];
    assert WaitingOnes(s', time) == WaitingOnes(s, time)[i := 0];
    assert Given(before, s', elapsed, time) == Given(before, s, elapsed, time)[i := a];
    var r := Total(WaitingData(s, time));
    assert t * (r - d) == t * r - t * d by { Distribute(t, r - d, d); }
  }

  lemma StartBalanced(s: seq<Peer>, elapsed: nat, time: uint32, dataTotal: int, bandwidth: nat)
    requires forall i :: 0 <= i < |s| && Active(s[i]) ==> s[i].outgoingEpoch != time
    requires dataTotal >= Total(WaitingData(s, time))
    ensures Balanced(s, s, elapsed, time, CountActive(s), dataTotal, bandwidth, bandwidth)
  {
    hide Allowance, Total, CountActive;
    TotalZero(Given(s, s, elapsed, time));
    CountWaiting(s, time);
  }

  lemma {:induction false} CountWaiting(s: seq<Peer>, time: uint32)
    requires forall i :: 0 <= i < |s| && Active(s[i]) ==> s[i].outgoingEpoch != time
    ensures Total(WaitingOnes(s, time)) == CountActive(s)
  {
    if s != [] {
      CountWaiting(s[..|s| - 1], time);
      assert WaitingOnes(s, time)[..|s| - 1] == WaitingOnes(s[..|s| - 1], time);
    }
  }

  // ---- The result

  /** Every active peer has either its own share, because it would exceed its own bandwidth, or the
      common throttle t, which keeps it within its bandwidth. */
  ghost predicate Shared(before: seq<Peer>, after: seq<Peer>, elapsed: nat, time: uint32, t: nat) {
    && |before| == |after|
    && forall i :: 0 <= i < |before| ==>
         if !Active(before[i]) then after[i] == before[i]
         else
           || (before[i].incomingBandwidth != 0 && before[i].outgoingDataTotal > Allowance(before[i], elapsed)
               && after[i] == Adjusted(before[i], Allowance(before[i], elapsed), time))
           || (after[i] == Limited(before[i], t) && before[i].outgoingEpoch != time && Content(before[i], elapsed, t))
  }

  /** The peer after sharing, in numbers: what a peer is limited to, as 32nds of the data it was sent, stays
      within its own incoming bandwidth, if it has one, unless it is the least limit of 1. A share of its
      own, marked by the time, is the largest that does. Data counters start anew, the throttle does not
      exceed the limit, and nothing else changes. */
  predicate SharedInNumbers(before: Peer, after: Peer, elapsed: nat, time: uint32, t: nat) {
    var (limit, data, own) := (after.packetThrottleLimit, before.outgoingDataTotal, before.incomingBandwidth * elapsed / 1000);
    if before.state != Connected && before.state != DisconnectLater then after == before
    else
      && after == before.(packetThrottleLimit := limit, outgoingEpoch := after.outgoingEpoch,
                          packetThrottle := if before.packetThrottle > limit then limit else before.packetThrottle,
                          incomingDataTotal := 0, outgoingDataTotal := 0)
      && (before.incomingBandwidth != 0 ==> limit == 1 || limit * data / 32 <= own)
      && (if after.outgoingEpoch == time then
            && before.incomingBandwidth != 0 && data > own
            && limit >= 1 && (limit == 1 || limit * data <= 32 * own) && 32 * own < (limit + 1) * data
          else after.outgoingEpoch == before.outgoingEpoch && limit == t)
  }

  lemma SharedMeans(before: seq<Peer>, after: seq<Peer>, elapsed: nat, time: uint32, t: nat)
    requires Shared(before, after, elapsed, time, t)
    ensures |before| == |after| && forall i :: 0 <= i < |before| ==> SharedInNumbers(before[i], after[i], elapsed, time, t)
  {
    hide Share, SharedInNumbers;
    forall i | 0 <= i < |before| ensures SharedInNumbers(before[i], after[i], elapsed, time, t) {
      if Active(before[i]) && after[i].outgoingEpoch == time {
        OwnMeans(before[i], after[i], elapsed, time, t);
      } else {
        CommonMeans(before[i], after[i], elapsed, time, t);
      }
    }
  }

  lemma OwnMeans(before: Peer, after: Peer, elapsed: nat, time: uint32, t: nat)
    requires Active(before) && before.incomingBandwidth != 0 && before.outgoingDataTotal > Allowance(before, elapsed)
    requires after == Adjusted(before, Allowance(before, elapsed), time)
    ensures SharedInNumbers(before, after, elapsed, time, t)
  {
    hide Share;
    var a, data := Allowance(before, elapsed), before.outgoingDataTotal;
    ShareLargest(a, data);
    var limit := after.packetThrottleLimit;
    if limit != 1 { PartWithin(limit * data, a); }
  }

  lemma PartWithin(x: nat, a: nat)
    requires x <= SCALE * a
    ensures x / 32 <= a
  {
  }

  lemma ShareLargest(a: nat, data: nat)
    requires data > 0
    ensures Share(a, data) * data <= 32 * a < (Share(a, data) + 1) * data
  {
    QuotientLess(a * SCALE, data);
  }

  lemma CommonMeans(before: Peer, after: Peer, elapsed: nat, time: uint32, t: nat)
    requires after.outgoingEpoch != time || !Active(before)
    requires if !Active(before) then after == before
             else after == Limited(before, t) && before.outgoingEpoch != time && Content(before, elapsed, t)
    ensures SharedInNumbers(before, after, elapsed, time, t)
  {
  }

  /** The data to be shared out; without a limit of the host's own the code takes the largest word. */
  ghost function Demand(before: seq<Peer>, time: uint32, outgoingBandwidth: uint32): nat {
    if outgoingBandwidth == 0 then WORD - 1 else Total(WaitingData(before, time))
  }

  /** The common throttle t is the largest that brings what is left of the demand down to what is left
      of the budget, where the shares of the other peers count as demand met. */
  ghost predicate CommonShare(before: seq<Peer>, after: seq<Peer>, elapsed: nat, time: uint32, t: nat, demand: nat, budget: nat) {
    && |before| == |after|
    && var given := Total(Given(before, after, elapsed, time));
       given <= demand && given <= budget && t == Throttle(demand - given, budget - given)
  }

  /** The data of each active peer, and what those with a share of their own may receive. */
  ghost function ActiveData(s: seq<Peer>): (v: seq<nat>)
    ensures |v| == |s|
    ensures forall i :: 0 <= i < |s| ==> v[i] == if s[i].state == Connected || s[i].state == DisconnectLater then s[i].outgoingDataTotal else 0
  {
    seq(|s|, i requires 0 <= i < |s| => if Active(s[i]) then s[i].outgoingDataTotal else 0)
  }

  ghost function OwnShares(before: seq<Peer>, after: seq<Peer>, elapsed: nat, time: uint32): (v: seq<nat>)
    requires |before| == |after|
    ensures |v| == |before|
    ensures forall i :: 0 <= i < |before| ==>
              v[i] == if (after[i].state == Connected || after[i].state == DisconnectLater) && after[i].outgoingEpoch == time
                      then before[i].incomingBandwidth * elapsed / 1000 else 0
  {
    Given(before, after, elapsed, time)
  }

  /** The common throttle in numbers: the largest up to 32, in 32nds, that brings the data without these
      shares down to the bandwidth of the elapsed time without them. */
  ghost predicate CommonInNumbers(before: seq<Peer>, after: seq<Peer>, elapsed: nat, time: uint32, t: nat, bandwidth: nat)
    requires |before| == |after|
  {
    var own := Total(OwnShares(before, after, elapsed, time));
    var (data, room) := (Total(ActiveData(before)) - own, bandwidth * elapsed / 1000 - own);
    && data >= 0 && room >= 0 && t <= 32
    && t * data <= 32 * room && (t < 32 ==> (t + 1) * data > 32 * room)
  }

  lemma CommonMeaning(before: seq<Peer>, after: seq<Peer>, elapsed: nat, time: uint32, t: nat, bandwidth: uint32)
    requires bandwidth > 0 && forall i :: 0 <= i < |before| && Active(before[i]) ==> before[i].outgoingEpoch != time
    requires CommonShare(before, after, elapsed, time, t, Demand(before, time, bandwidth), bandwidth * elapsed / 1000)
    ensures |before| == |after| && CommonInNumbers(before, after, elapsed, time, t, bandwidth)
  {
    hide Total, Throttle, Given;
    assert ActiveData(before) == WaitingData(before, time);
  }

  /** The throttled data of each peer, leaving out those whose share was raised to 1. */
  ghost function Sent(before: seq<Peer>, after: seq<Peer>, elapsed: nat, time: uint32): (v: seq<nat>)
    requires |before| == |after|
    ensures |v| == |before|
  {
    seq(|before|, i requires 0 <= i < |before| => SentBy(before[i], after[i], elapsed, time))
  }

  /** Raised peers would have had a share of 0. */
  function SentBy(before: Peer, after: Peer, elapsed: nat, time: uint32): nat {
    if !Active(before) then 0
    else if after.outgoingEpoch == time && before.outgoingDataTotal > 0 && Share(Allowance(before, elapsed), before.outgoingDataTotal) == 0 then 0
    else after.packetThrottleLimit * before.outgoingDataTotal
  }

  lemma ShareWithin(allowance: nat, data: nat)
    requires data > 0
    ensures Share(allowance, data) * data <= SCALE * allowance
  {
    QuotientLess(allowance * SCALE, data);
  }

  /** The throttled data of all peers is within the budget. */
  lemma WithinBudget(before: seq<Peer>, s: seq<Peer>, after: seq<Peer>, elapsed: nat, time: uint32,
                     remaining: int, dataTotal: int, bandwidth: int, budget: nat, t: nat)
    requires Balanced(before, s, elapsed, time, remaining, dataTotal, bandwidth, budget)
    requires t * Total(WaitingData(s, time)) <= SCALE * bandwidth
    requires |after| == |s| && forall i :: 0 <= i < |s| ==> after[i] == if Waiting(s[i], time) then Limited(s[i], t) else s[i]
    ensures Total(Sent(before, after, elapsed, time)) <= SCALE * budget
  {
    hide Total, Allowance, Share;
    var sent, given, waiting := Sent(before, after, elapsed, time), Given(before, s, elapsed, time), WaitingData(s, time);
    forall i | 0 <= i < |s| ensures sent[i] <= SCALE * given[i] + t * waiting[i] {
      SentWithin(before[i], s[i], after[i], elapsed, time, t);
    }
    TotalBound(sent, given, waiting, SCALE, t);
    Distribute(SCALE, Total(given), bandwidth);
  }

  lemma SentWithin(before: Peer, now: Peer, after: Peer, elapsed: nat, time: uint32, t: nat)
    requires || (now == before && (Active(now) ==> Waiting(now, time)))
             || (Active(before) && before.incomingBandwidth != 0 && before.outgoingDataTotal > Allowance(before, elapsed)
                 && now == Adjusted(before, Allowance(before, elapsed), time))
    requires after == if Waiting(now, time) then Limited(now, t) else now
    ensures SentBy(before, after, elapsed, time)
         <= SCALE * (if Active(now) && !Waiting(now, time) then Allowance(before, elapsed) else 0)
          + t * (if Waiting(now, time) then now.outgoingDataTotal else 0)
  {
    hide Allowance, Share;
    var a := Allowance(before, elapsed);
    if Active(now) && !Waiting(now, time) {
      ShareWithin(a, before.outgoingDataTotal);
    }
  }

  // ---- Shares of the incoming bandwidth

  /** Active and not told yet to keep its own limit. */
  predicate Unmarked(p: Peer, time: uint32) {
    Active(p) && p.incomingEpoch != time
  }

  ghost function UnmarkedOnes(s: seq<Peer>, time: uint32): (v: seq<nat>)
    ensures |v| == |s| && forall i :: 0 <= i < |s| ==> v[i] == if Unmarked(s[i], time) then 1 else 0
  {
    seq(|s|, i requires 0 <= i < |s| => if Unmarked(s[i], time) then 1 else 0)
  }

  ghost function OwnLimits(s: seq<Peer>, time: uint32): (v: seq<nat>)
    ensures |v| == |s| && forall i :: 0 <= i < |s| ==> v[i] == if Active(s[i]) && !Unmarked(s[i], time) then s[i].outgoingBandwidth else 0
  {
    seq(|s|, i requires 0 <= i < |s| => if Active(s[i]) && !Unmarked(s[i], time) then s[i].outgoingBandwidth else 0)
  }

  /** Only the marks differ. */
  ghost predicate MarkedOnly(before: seq<Peer>, s: seq<Peer>, time: uint32) {
    && |before| == |s|
    && forall i :: 0 <= i < |s| ==> s[i] == before[i] || (Active(before[i]) && s[i] == before[i].(incomingEpoch := time))
  }

  ghost predicate Allotted(before: seq<Peer>, s: seq<Peer>, time: uint32, remaining: int, bandwidth: int, budget: nat) {
    && MarkedOnly(before, s, time)
    && remaining == Total(UnmarkedOnes(s, time))
    && bandwidth >= 0 && bandwidth + Total(OwnLimits(s, time)) == budget
  }

  lemma MarkAllotted(before: seq<Peer>, s: seq<Peer>, time: uint32, remaining: int, bandwidth: int, budget: nat, i: nat, limit: nat)
    requires Allotted(before, s, time, remaining, bandwidth, budget) && limit * remaining <= bandwidth
    requires i < |s| && Unmarked(s[i], time) && s[i].outgoingBandwidth <= limit
    ensures remaining > 0
    ensures var s' := s[i := s[i].(incomingEpoch := time)];
            && Allotted(before, s', time, remaining - 1, bandwidth - s[i].outgoingBandwidth, budget)
            && limit * (remaining - 1) <= bandwidth - s[i].outgoingBandwidth
  {
    hide Total;
    var s' := s[i := s[i].(incomingEpoch := time)];
    TotalUpdate(UnmarkedOnes(s, time), i, 0);
    TotalUpdate(OwnLimits(s, time), i, s[i].outgoingBandwidth);
    assert UnmarkedOnes(s', time) == UnmarkedOnes(s, time)[i := 0];
    assert OwnLimits(s', time) == OwnLimits(s, time)[i := s[i].outgoingBandwidth];
    Distribute(limit, remaining - 1, 1);
  }

  lemma StartAllotted(s: seq<Peer>, time: uint32, budget: nat)
    requires forall i :: 0 <= i < |s| && Active(s[i]) ==> s[i].incomingEpoch != time
    ensures Allotted(s, s, time, CountActive(s), budget, budget)
  {
    TotalZero(OwnLimits(s, time));
    CountUnmarked(s, time);
  }

  lemma {:induction false} CountUnmarked(s: seq<Peer>, time: uint32)
    requires forall i :: 0 <= i < |s| && Active(s[i]) ==> s[i].incomingEpoch != time
    ensures Total(UnmarkedOnes(s, time)) == CountActive(s)
  {
    if s != [] {
      CountUnmarked(s[..|s| - 1], time);
      assert UnmarkedOnes(s, time)[..|s| - 1] == UnmarkedOnes(s[..|s| - 1], time);
    }
  }

  /** Every peer that keeps its own limit stays below the common one, or has none. */
  ghost predicate MarkedBelow(s: seq<Peer>, time: uint32, limit: nat) {
    forall i :: 0 <= i < |s| && Active(s[i]) && !Unmarked(s[i], time) ==> s[i].outgoingBandwidth == 0 || s[i].outgoingBandwidth < limit
  }

  /** All other peers reach it. */
  ghost predicate OthersAbove(s: seq<Peer>, time: uint32, limit: nat) {
    forall i :: 0 <= i < |s| && Unmarked(s[i], time) ==> s[i].outgoingBandwidth > 0 && s[i].outgoingBandwidth >= limit
  }

  /** Max-min fairness: peers below the common limit keep their own, the others share equally what
      these leave of the budget. */
  ghost predicate Fair(s: seq<Peer>, time: uint32, limit: nat, budget: nat) {
    && MarkedBelow(s, time, limit)
    && OthersAbove(s, time, limit)
    && Total(OwnLimits(s, time)) <= budget
    && var sharing := Total(UnmarkedOnes(s, time));
       sharing > 0 ==> limit == (budget - Total(OwnLimits(s, time))) / sharing
  }

  /** A pass that leaves a share of at least the limit for everyone only raises the limit. */
  lemma LimitRises(limit: nat, remaining: nat, bandwidth: nat)
    requires limit * remaining <= bandwidth && remaining > 0
    ensures limit <= bandwidth / remaining
  {
    var q := bandwidth / remaining;
    assert bandwidth == q * remaining + bandwidth % remaining;
    ProductLess(q, limit, remaining);
  }

  lemma ProductLess(a: nat, b: nat, c: nat)
    ensures a < b ==> a * c + c <= b * c
  {
    if a < b {
      Product(a + 1, b, c);
    }
  }

  lemma FairAtEnd(before: seq<Peer>, s: seq<Peer>, time: uint32, remaining: int, bandwidth: int, budget: nat, limit: nat)
    requires Allotted(before, s, time, remaining, bandwidth, budget) && MarkedBelow(s, time, limit)
    requires remaining > 0 ==> limit == bandwidth / remaining
    requires OthersAbove(s, time, limit)
    ensures Fair(s, time, limit, budget)
  {
  }

  /** The limit a peer is told: its own, or the common one. */
  function Told(p: Peer, time: uint32, limit: nat): nat {
    if !Active(p) then 0 else if p.incomingEpoch == time then p.outgoingBandwidth else limit
  }

  function AllTold(s: seq<Peer>, time: uint32, limit: nat): (v: seq<nat>)
    ensures |v| == |s| && forall i :: 0 <= i < |s| ==> v[i] == Told(s[i], time, limit)
  {
    seq(|s|, i requires 0 <= i < |s| => Told(s[i], time, limit))
  }

  /** What the peers are told adds up to no more than the bandwidth of the host. But 0 means no limit. */
  lemma ToldWithin(before: seq<Peer>, s: seq<Peer>, time: uint32, remaining: int, bandwidth: int, budget: nat, limit: nat)
    requires Allotted(before, s, time, remaining, bandwidth, budget) && limit * remaining <= bandwidth
    ensures Total(AllTold(s, time, limit)) <= budget
  {
    hide Total;
    TotalBound(AllTold(s, time, limit), OwnLimits(s, time), UnmarkedOnes(s, time), 1, limit);
  }

  /** Every active peer is told a limit: 0 means that there is none. */
  ghost predicate EveryoneLimited(s: seq<Peer>, told: seq<nat>) {
    |told| == |s| && forall i :: 0 <= i < |s| && Active(s[i]) ==> told[i] > 0
  }

  /** What a caller can tell in advance: every active peer has a limit of its own, and the host's
      bandwidth is enough for a unit each. */
  ghost predicate Divisible(s: seq<Peer>, budget: nat) {
    CountActive(s) <= budget && forall i :: 0 <= i < |s| && Active(s[i]) ==> s[i].outgoingBandwidth > 0
  }

  /** Exactly then every active peer is limited. */
  lemma LimitedExactly(s: seq<Peer>, time: uint32, limit: nat, budget: nat)
    requires Fair(s, time, limit, budget) && Total(AllTold(s, time, limit)) <= budget
    ensures EveryoneLimited(s, AllTold(s, time, limit)) <==> Divisible(s, budget)
  {
    hide Total, CountActive;
    var told := AllTold(s, time, limit);
    if EveryoneLimited(s, told) {
      CountPositive(s, told);
    } else if Divisible(s, budget) {
      var i :| 0 <= i < |s| && Active(s[i]) && told[i] == 0;
      assert limit == 0 && Unmarked(s[i], time);
      CountUnmarked(s, time);
      TotalZero(OwnLimits(s, time));
      TotalUpdate(UnmarkedOnes(s, time), i, 0);
      EnoughForEach(budget, CountActive(s));
    }
  }

  lemma EnoughForEach(budget: nat, n: nat)
    requires 0 < n <= budget
    ensures budget / n > 0
  {
    ProductLess(budget / n, 1, n);
    assert budget == budget / n * n + budget % n;
  }

  lemma {:induction false} CountPositive(s: seq<Peer>, v: seq<nat>)
    requires |v| == |s| && forall i :: 0 <= i < |s| && Active(s[i]) ==> v[i] > 0
    ensures CountActive(s) <= Total(v)
  {
    if s != [] { CountPositive(s[..|s| - 1], v[..|s| - 1]); }
  }

  /** A connected peer with the given limit, not marked at time 7. */
  function ConnectedPeer(outgoingBandwidth: uint32): Peer {
    Peer(Connected, 0, outgoingBandwidth, 0, 0, 32, 32, 0, 0)
  }

  /** One unit for two peers that each have a limit: both are told 0, and so none. */
  lemma TooLittleToDivide()
    ensures var s := [ConnectedPeer(5), ConnectedPeer(5)];
            Fair(s, 7, 0, 1) && AllTold(s, 7, 0) == [0, 0] && !EveryoneLimited(s, AllTold(s, 7, 0))
  {
    var s := [ConnectedPeer(5), ConnectedPeer(5)];
    assert OwnLimits(s, 7) == [0, 0] && UnmarkedOnes(s, 7) == [1, 1];
    assert [0, 0][..1] == [0] && [1, 1][..1] == [1];
  }

  /** A peer without a limit of its own is told 0, however much the host has. */
  lemma NoLimitOfItsOwn(budget: nat)
    ensures var s := [ConnectedPeer(0).(incomingEpoch := 7)];
            Fair(s, 7, budget, budget) && AllTold(s, 7, budget) == [0] && !EveryoneLimited(s, AllTold(s, 7, budget))
  {
    var s := [ConnectedPeer(0).(incomingEpoch := 7)];
    assert OwnLimits(s, 7) == [0] && UnmarkedOnes(s, 7) == [0];
  }

  // ---- The common limit

  /** What the peers below a level use, and which peers reach it. */
  ghost function Kept(s: seq<Peer>, level: nat): (v: seq<nat>)
    ensures |v| == |s|
    ensures forall i :: 0 <= i < |s| ==> v[i] == if Active(s[i]) && s[i].outgoingBandwidth < level then s[i].outgoingBandwidth else 0
  {
    seq(|s|, i requires 0 <= i < |s| => if Active(s[i]) && s[i].outgoingBandwidth < level then s[i].outgoingBandwidth else 0)
  }

  ghost function Reaching(s: seq<Peer>, level: nat): (v: seq<nat>)
    ensures |v| == |s|
    ensures forall i :: 0 <= i < |s| ==> v[i] == if Active(s[i]) && s[i].outgoingBandwidth > 0 && s[i].outgoingBandwidth >= level then 1 else 0
  {
    seq(|s|, i requires 0 <= i < |s| => if Active(s[i]) && s[i].outgoingBandwidth > 0 && s[i].outgoingBandwidth >= level then 1 else 0)
  }

  /** An equal part, for those who reach it, of what the others leave. */
  ghost predicate Level(s: seq<Peer>, budget: nat, level: nat) {
    var n := Total(Reaching(s, level));
    n > 0 && Total(Kept(s, level)) <= budget && level == (budget - Total(Kept(s, level))) / n
  }

  /** The peers are told their own limit or the common one, whichever is less, where 0 is no limit; and the
      common one is the least level there is. If there is none, every peer is told its own. */
  ghost predicate ToldInNumbers(s: seq<Peer>, told: seq<nat>, limit: nat, budget: nat) {
    && |told| == |s|
    && (forall i :: 0 <= i < |s| ==>
          told[i] == if s[i].state != Connected && s[i].state != DisconnectLater then 0
                     else if s[i].outgoingBandwidth < limit then s[i].outgoingBandwidth
                     else if s[i].outgoingBandwidth == 0 then 0 else limit)
    && LeastLevel(s, limit, budget)
  }

  ghost predicate LeastLevel(s: seq<Peer>, limit: nat, budget: nat) {
    && NoneBelow(s, limit, budget)
    && (Level(s, budget, limit)
        || ((forall l: nat :: !Level(s, budget, l))
            && forall i :: 0 <= i < |s| && Active(s[i]) ==> s[i].outgoingBandwidth == 0 || s[i].outgoingBandwidth < limit))
  }

  ghost predicate NoneBelow(s: seq<Peer>, limit: nat, budget: nat) {
    forall l: nat :: Level(s, budget, l) ==> limit <= l
  }

  lemma {:induction false} TotalExchange(kept: seq<nat>, reaching: seq<nat>, own: seq<nat>, ones: seq<nat>, l: nat)
    requires |kept| == |reaching| == |own| == |ones|
    requires forall i :: 0 <= i < |kept| ==> kept[i] + l * reaching[i] <= own[i] + l * ones[i] && reaching[i] <= ones[i]
    ensures Total(kept) + l * Total(reaching) <= Total(own) + l * Total(ones) && Total(reaching) <= Total(ones)
  {
    if kept != [] {
      var n := |kept| - 1;
      TotalExchange(kept[..n], reaching[..n], own[..n], ones[..n], l);
      Distribute(l, Total(reaching[..n]), reaching[n]);
      Distribute(l, Total(ones[..n]), ones[n]);
    }
  }

  /** The share of what the marked peers leave is below every level that is above the limit so far. */
  lemma ShareBelow(before: seq<Peer>, s: seq<Peer>, time: uint32, remaining: int, bandwidth: int, budget: nat, limit: nat, l: nat)
    requires Allotted(before, s, time, remaining, bandwidth, budget) && MarkedBelow(s, time, limit)
    requires Level(s, budget, l) && limit <= l
    ensures remaining > 0 && bandwidth / remaining <= l
  {
    hide Total;
    var kept, reaching, own, ones := Kept(s, l), Reaching(s, l), OwnLimits(s, time), UnmarkedOnes(s, time);
    TotalExchange(kept, reaching, own, ones, l);
    var n := Total(reaching);
    RestBelow(budget - Total(kept), n, l);
    LessThanShare(bandwidth, remaining, l, n);
  }

  lemma RestBelow(x: nat, n: nat, l: nat)
    requires n > 0 && l == x / n
    ensures x < l * n + n
  {
  }

  lemma LessThanShare(bandwidth: nat, remaining: nat, l: nat, n: nat)
    requires 0 < n <= remaining && bandwidth < l * remaining + n
    ensures bandwidth / remaining <= l
  {
    var q := bandwidth / remaining;
    assert bandwidth == q * remaining + bandwidth % remaining;
    ProductLess(l, q, remaining);
  }

  lemma SharesBelow(before: seq<Peer>, s: seq<Peer>, time: uint32, remaining: int, bandwidth: int, budget: nat, limit: nat)
    requires Allotted(before, s, time, remaining, bandwidth, budget) && MarkedBelow(s, time, limit) && NoneBelow(before, limit, budget)
    ensures remaining > 0 ==> NoneBelow(before, bandwidth / remaining, budget)
    ensures remaining == 0 ==> forall l: nat :: !Level(before, budget, l)
  {
    hide Total, Level, MarkedBelow;
    forall l: nat | Level(before, budget, l) ensures remaining > 0 && bandwidth / remaining <= l {
      LevelSame(before, s, time, budget, l);
      ShareBelow(before, s, time, remaining, bandwidth, budget, limit, l);
    }
  }

  lemma LevelSame(before: seq<Peer>, s: seq<Peer>, time: uint32, budget: nat, l: nat)
    requires MarkedOnly(before, s, time)
    ensures Level(before, budget, l) == Level(s, budget, l)
  {
    hide Total;
    assert Kept(before, l) == Kept(s, l) && Reaching(before, l) == Reaching(s, l);
  }

  lemma LeastAtEnd(before: seq<Peer>, s: seq<Peer>, time: uint32, remaining: int, bandwidth: int, budget: nat, limit: nat)
    requires Allotted(before, s, time, remaining, bandwidth, budget) && MarkedBelow(s, time, limit) && OthersAbove(s, time, limit)
    requires NoneBelow(before, limit, budget) && (remaining > 0 ==> limit == bandwidth / remaining)
    ensures LeastLevel(before, limit, budget)
  {
    hide Total, NoneBelow;
    LevelSame(before, s, time, budget, limit);
    assert Kept(s, limit) == OwnLimits(s, time) && Reaching(s, limit) == UnmarkedOnes(s, time);
    if remaining == 0 {
      SharesBelow(before, s, time, remaining, bandwidth, budget, limit);
      forall i: nat | i < |s| && Active(s[i]) ensures s[i].outgoingBandwidth == 0 || s[i].outgoingBandwidth < limit {
        TotalUpdate(UnmarkedOnes(s, time), i, 0);
      }
    }
  }

  lemma ToldSameStates(a: seq<Peer>, b: seq<Peer>, told: seq<nat>, limit: nat, budget: nat)
    requires |a| == |b|
    requires forall i :: 0 <= i < |a| ==> a[i].state == b[i].state && a[i].outgoingBandwidth == b[i].outgoingBandwidth
    ensures ToldInNumbers(a, told, limit, budget) == ToldInNumbers(b, told, limit, budget)
  {
    hide Total;
    forall l: nat ensures Level(a, budget, l) == Level(b, budget, l) {
      assert Kept(a, l) == Kept(b, l) && Reaching(a, l) == Reaching(b, l);
    }
  }

  lemma ToldMeans(before: seq<Peer>, s: seq<Peer>, time: uint32, limit: nat, budget: nat)
    requires MarkedOnly(before, s, time) && MarkedBelow(s, time, limit) && OthersAbove(s, time, limit) && LeastLevel(before, limit, budget)
    ensures ToldInNumbers(before, AllTold(s, time, limit), limit, budget)
  {
    hide Total, LeastLevel;
  }
}
