/** A host and the states of its peers, from host.c, peer.c and protocol.c: the counters of connected
    and of bandwidth-limited peers, and the shares of the bandwidth that depend on them. */
module Host {
  import opened Words
  import opened Bandwidth

  class Host {
    const peers: array<Peer>
    var connectedPeers: nat
    var bandwidthLimitedPeers: nat
    var incomingBandwidth: uint32
    var outgoingBandwidth: uint32
    var throttleEpoch: uint32
    var recalculateBandwidthLimits: bool

    /** The counters are right. */
    ghost predicate Valid()
      reads this, peers
    {
      connectedPeers == CountActive(peers[..]) && bandwidthLimitedPeers == CountLimited(peers[..])
    }

    constructor (peerCount: nat, incomingBandwidth: uint32, outgoingBandwidth: uint32)
      ensures Valid() && fresh(peers) && peers.Length == peerCount
      ensures forall i :: 0 <= i < peerCount ==> peers[i].state == Disconnected
    {
      peers := new Peer[peerCount](_ => Blank());
      connectedPeers, bandwidthLimitedPeers, throttleEpoch, recalculateBandwidthLimits := 0, 0, 0, false;
      this.incomingBandwidth, this.outgoingBandwidth := incomingBandwidth, outgoingBandwidth;
      new;
      NoneActive(peers[..]);
    }

    // ---- Changes of state

    method OnConnect(i: nat)
      requires i < peers.Length && Valid()
      modifies this`connectedPeers, this`bandwidthLimitedPeers
      ensures connectedPeers == CountActive(peers[..][i := peers[i].(state := Connected)])
      ensures bandwidthLimitedPeers == CountLimited(peers[..][i := peers[i].(state := Connected)])
    {
      CountUpdate(peers[..], i, peers[i].(state := Connected));
      if peers[i].state != Connected && peers[i].state != DisconnectLater {
        if peers[i].incomingBandwidth != 0 {
          bandwidthLimitedPeers := bandwidthLimitedPeers + 1;
        }
        connectedPeers := connectedPeers + 1;
      }
    }

    method OnDisconnect(i: nat)
      requires i < peers.Length && Valid()
      modifies this`connectedPeers, this`bandwidthLimitedPeers
      ensures connectedPeers == CountActive(peers[..][i := peers[i].(state := Disconnected)])
      ensures bandwidthLimitedPeers == CountLimited(peers[..][i := peers[i].(state := Disconnected)])
    {
      CountUpdate(peers[..], i, peers[i].(state := Disconnected));
      if peers[i].state == Connected || peers[i].state == DisconnectLater {
        if peers[i].incomingBandwidth != 0 {
          bandwidthLimitedPeers := bandwidthLimitedPeers - 1;
        }
        connectedPeers := connectedPeers - 1;
      }
    }

    /** Stores a peer that counts as the one the counters were made for. */
    method Put(i: nat, p: Peer, ghost counted: Peer)
      requires i < peers.Length
      requires connectedPeers == CountActive(peers[..][i := counted]) && bandwidthLimitedPeers == CountLimited(peers[..][i := counted])
      requires Active(p) == Active(counted) && (Active(p) ==> p.incomingBandwidth == counted.incomingBandwidth)
      modifies peers
      ensures Valid() && peers[..] == old(peers[..])[i := p]
    {
      CountUpdate(peers[..], i, p);
      CountUpdate(peers[..], i, counted);
      peers[i] := p;
      assert peers[..] == old(peers[..])[i := p];
    }

    method ChangeState(i: nat, state: State)
      requires i < peers.Length && Valid()
      modifies this`connectedPeers, this`bandwidthLimitedPeers, peers
      ensures Valid() && peers[..] == old(peers[..])[i := old(peers[i]).(state := state)]
    {
      if state == Connected || state == DisconnectLater {
        OnConnect(i);
        Put(i, peers[i].(state := state), peers[i].(state := Connected));
      } else {
        OnDisconnect(i);
        Put(i, peers[i].(state := state), peers[i].(state := Disconnected));
      }
    }

    method Reset(i: nat)
      requires i < peers.Length && Valid()
      modifies this`connectedPeers, this`bandwidthLimitedPeers, peers
      ensures Valid() && peers[..] == old(peers[..])[i := Blank()]
      ensures peers[i].state == Disconnected && peers[i].incomingBandwidth == 0 == peers[i].outgoingBandwidth
      ensures peers[i].packetThrottle == 32 == peers[i].packetThrottleLimit
      ensures peers[i].incomingDataTotal == 0 == peers[i].outgoingDataTotal && peers[i].incomingEpoch == 0 == peers[i].outgoingEpoch
    {
      OnDisconnect(i);
      Put(i, Blank(), peers[i].(state := Disconnected));
    }

    /** The first disconnected peer starts to connect; -1 if there is none. */
    method Connect() returns (i: int)
      requires Valid()
      modifies peers
      ensures Valid() && -1 <= i < peers.Length
      ensures i >= 0 ==> old(peers[i].state) == Disconnected && peers[..] == old(peers[..])[i := old(peers[i]).(state := Connecting)]
      ensures i == -1 ==> peers[..] == old(peers[..]) && forall j :: 0 <= j < peers.Length ==> peers[j].state != Disconnected
    {
      i := 0;
      while i < peers.Length && peers[i].state != Disconnected
        invariant 0 <= i <= peers.Length && forall j :: 0 <= j < i ==> peers[j].state != Disconnected
      {
        i := i + 1;
      }
      if i == peers.Length {
        return -1;
      }
      assert peers[..] == peers[..][i := peers[i]];
      Put(i, peers[i].(state := Connecting), peers[i]);
    }

    /** The first disconnected peer acknowledges a connection and learns the other side's bandwidth,
        unless the connection exists already or there are too many from the same address. */
    method HandleConnect(sameAddress: seq<bool>, sameConnection: seq<bool>, duplicateLimit: nat, channelsAccepted: bool,
                         incoming: uint32, outgoing: uint32) returns (i: int)
      requires Valid() && |sameAddress| == |sameConnection| == peers.Length
      modifies peers
      ensures Valid() && -1 <= i < peers.Length
      ensures i >= 0 <==>
                && channelsAccepted && CountDuplicates(old(peers[..]), sameAddress) < duplicateLimit
                && (forall j :: 0 <= j < peers.Length && Duplicate(old(peers[j]), sameAddress[j]) ==> !sameConnection[j])
                && (exists j :: 0 <= j < peers.Length && old(peers[j].state) == Disconnected)
      ensures i == -1 ==> peers[..] == old(peers[..])
      ensures i >= 0 ==>
                && old(peers[i].state) == Disconnected && (forall j :: 0 <= j < i ==> old(peers[j].state) != Disconnected)
                && peers[..] == old(peers[..])[i := old(peers[i]).(state := AcknowledgingConnect, incomingBandwidth := incoming, outgoingBandwidth := outgoing)]
    {
      if !channelsAccepted {
        return -1;
      }
      ghost var s := peers[..];
      i := -1;
      var duplicates := 0;
      for j := 0 to peers.Length
        invariant -1 <= i < j && peers[..] == s
        invariant i == -1 ==> forall k :: 0 <= k < j ==> peers[k].state != Disconnected
        invariant i >= 0 ==> peers[i].state == Disconnected && forall k :: 0 <= k < i ==> peers[k].state != Disconnected
        invariant duplicates == CountDuplicates(s[..j], sameAddress[..j])
        invariant forall k :: 0 <= k < j && Duplicate(peers[k], sameAddress[k]) ==> !sameConnection[k]
      {
        assert s[..j + 1][..j] == s[..j] && sameAddress[..j + 1][..j] == sameAddress[..j];
        if peers[j].state == Disconnected {
          if i == -1 {
            i := j;
          }
        } else if peers[j].state != Connecting && sameAddress[j] {
          if sameConnection[j] {
            return -1;
          }
          duplicates := duplicates + 1;
        }
      }
      assert s[..peers.Length] == s && sameAddress[..peers.Length] == sameAddress;
      if i == -1 || duplicates >= duplicateLimit {
        return -1;
      }
      assert peers[..] == peers[..][i := peers[i]];
      Put(i, peers[i].(state := AcknowledgingConnect, incomingBandwidth := incoming, outgoingBandwidth := outgoing), peers[i]);
    }

    /** The connection is there; without a place for the event it waits in the dispatch queue. */
    method NotifyConnect(i: nat, immediately: bool)
      requires i < peers.Length && Valid()
      modifies this`connectedPeers, this`bandwidthLimitedPeers, this`recalculateBandwidthLimits, peers
      ensures Valid()
      ensures peers[..] == old(peers[..])[i := old(peers[i]).(state :=
                if immediately then Connected else if old(peers[i].state) == Connecting then ConnectionSucceeded else ConnectionPending)]
      ensures recalculateBandwidthLimits
    {
      recalculateBandwidthLimits := true;
      if immediately {
        ChangeState(i, Connected);
      } else {
        ChangeState(i, if peers[i].state == Connecting then ConnectionSucceeded else ConnectionPending);
      }
    }

    /** The other side accepted the connection, or answered something else. */
    method HandleVerifyConnect(i: nat, matches: bool, incoming: uint32, outgoing: uint32, immediately: bool) returns (status: int)
      requires i < peers.Length && Valid()
      modifies this`connectedPeers, this`bandwidthLimitedPeers, this`recalculateBandwidthLimits, peers
      ensures Valid()
      ensures var p := old(peers[i]);
              if p.state != Connecting then status == 0 && peers[..] == old(peers[..])
              else if !matches then status == -1 && peers[..] == old(peers[..])[i := p.(state := Zombie)]
              else status == 0 && peers[..] == old(peers[..])[i := p.(incomingBandwidth := incoming, outgoingBandwidth := outgoing,
                                                                state := if immediately then Connected else ConnectionSucceeded)]
      ensures recalculateBandwidthLimits == (old(recalculateBandwidthLimits) || (old(peers[i].state) == Connecting && matches))
    {
      if peers[i].state != Connecting {
        return 0;
      }
      if !matches {
        ChangeState(i, Zombie);
        return -1;
      }
      assert peers[..] == peers[..][i := peers[i]];
      Put(i, peers[i].(incomingBandwidth := incoming, outgoingBandwidth := outgoing), peers[i]);
      NotifyConnect(i, immediately);
      return 0;
    }

    method NotifyDisconnect(i: nat, immediately: bool)
      requires i < peers.Length && Valid()
      modifies this`connectedPeers, this`bandwidthLimitedPeers, this`recalculateBandwidthLimits, peers
      ensures Valid()
      ensures var p := old(peers[i]);
              peers[..] == old(peers[..])[i :=
                if p.state == Disconnected || p.state == AcknowledgingConnect || p.state == ConnectionPending || immediately then Blank()
                else p.(state := Zombie)]
      ensures var p := old(peers[i]);
              recalculateBandwidthLimits ==
                (old(recalculateBandwidthLimits)
                 || p.state == ConnectionPending || p.state == ConnectionSucceeded || p.state == Connected || p.state == DisconnectLater
                 || p.state == Disconnecting || p.state == AcknowledgingDisconnect || p.state == Zombie)
    {
      if Rank(peers[i].state) >= Rank(ConnectionPending) {
        recalculateBandwidthLimits := true;
      }
      if peers[i].state != Connecting && Rank(peers[i].state) < Rank(ConnectionSucceeded) {
        Reset(i);
      } else if immediately {
        Reset(i);
      } else {
        ChangeState(i, Zombie);
      }
    }

    /** What dispatching does to the state of a peer: connections become known, zombies are buried. */
    method Dispatch(i: nat)
      requires i < peers.Length && Valid()
      modifies this`connectedPeers, this`bandwidthLimitedPeers, this`recalculateBandwidthLimits, peers
      ensures Valid()
      ensures var p := old(peers[i]);
              peers[..] == old(peers[..])[i :=
                if p.state == ConnectionPending || p.state == ConnectionSucceeded then p.(state := Connected)
                else if p.state == Zombie then Blank() else p]
      ensures recalculateBandwidthLimits == (old(recalculateBandwidthLimits) || old(peers[i].state) == Zombie)
    {
      match peers[i].state
      case ConnectionPending => ChangeState(i, Connected);
      case ConnectionSucceeded => ChangeState(i, Connected);
      case Zombie =>
        recalculateBandwidthLimits := true;
        Reset(i);
      case _ =>
        assert peers[..] == peers[..][i := peers[i]];
    }

    method Disconnect(i: nat)
      requires i < peers.Length && Valid()
      modifies this`connectedPeers, this`bandwidthLimitedPeers, peers
      ensures Valid()
      ensures var p := old(peers[i]);
              peers[..] == old(peers[..])[i :=
                if p.state == Disconnecting || p.state == Disconnected || p.state == AcknowledgingDisconnect || p.state == Zombie then p
                else if Active(p) then p.(state := Disconnecting) else Blank()]
    {
      var state := peers[i].state;
      if state == Disconnecting || state == Disconnected || state == AcknowledgingDisconnect || state == Zombie {
        assert peers[..] == peers[..][i := peers[i]];
        return;
      }
      if state == Connected || state == DisconnectLater {
        OnDisconnect(i);
        Put(i, peers[i].(state := Disconnecting), peers[i].(state := Disconnected));
      } else {
        Reset(i);
      }
    }

    method DisconnectNow(i: nat)
      requires i < peers.Length && Valid()
      modifies this`connectedPeers, this`bandwidthLimitedPeers, peers
      ensures Valid()
      ensures peers[..] == old(peers[..])[i := if old(peers[i].state) == Disconnected then old(peers[i]) else Blank()]
    {
      if peers[i].state == Disconnected {
        assert peers[..] == peers[..][i := peers[i]];
        return;
      }
      Reset(i);
    }

    method PeerDisconnectLater(i: nat, hasOutgoing: bool)
      requires i < peers.Length && Valid()
      modifies this`connectedPeers, this`bandwidthLimitedPeers, peers
      ensures Valid()
      ensures var p := old(peers[i]);
              peers[..] == old(peers[..])[i :=
                if Active(p) && hasOutgoing then p.(state := DisconnectLater)
                else if p.state == Disconnecting || p.state == Disconnected || p.state == AcknowledgingDisconnect || p.state == Zombie then p
                else if Active(p) then p.(state := Disconnecting) else Blank()]
    {
      if (peers[i].state == Connected || peers[i].state == DisconnectLater) && hasOutgoing {
        assert peers[..] == peers[..][i := peers[i]];
        Put(i, peers[i].(state := DisconnectLater), peers[i]);
      } else {
        Disconnect(i);
      }
    }

    method HandleDisconnect(i: nat, acknowledge: bool)
      requires i < peers.Length && Valid()
      modifies this`connectedPeers, this`bandwidthLimitedPeers, this`recalculateBandwidthLimits, peers
      ensures Valid()
      ensures var p := old(peers[i]);
              peers[..] == old(peers[..])[i :=
                if p.state == Disconnected || p.state == Zombie || p.state == AcknowledgingDisconnect then p
                else if p.state == ConnectionSucceeded || p.state == Disconnecting || p.state == Connecting then p.(state := Zombie)
                else if !Active(p) then Blank()
                else p.(state := if acknowledge then AcknowledgingDisconnect else Zombie)]
      ensures recalculateBandwidthLimits == (old(recalculateBandwidthLimits) || old(peers[i].state) == ConnectionPending)
    {
      var state := peers[i].state;
      if state == Disconnected || state == Zombie || state == AcknowledgingDisconnect {
        assert peers[..] == peers[..][i := peers[i]];
        return;
      }
      if state == ConnectionSucceeded || state == Disconnecting || state == Connecting {
        ChangeState(i, Zombie);
      } else if state != Connected && state != DisconnectLater {
        if state == ConnectionPending {
          recalculateBandwidthLimits := true;
        }
        Reset(i);
      } else if acknowledge {
        ChangeState(i, AcknowledgingDisconnect);
      } else {
        ChangeState(i, Zombie);
      }
    }

    method HandleBandwidthLimit(i: nat, incoming: uint32, outgoing: uint32) returns (status: int)
      requires i < peers.Length && Valid()
      modifies this`bandwidthLimitedPeers, peers
      ensures Valid()
      ensures if Active(old(peers[i])) then
                status == 0 && peers[..] == old(peers[..])[i := old(peers[i]).(incomingBandwidth := incoming, outgoingBandwidth := outgoing)]
              else status == -1 && peers[..] == old(peers[..])
    {
      if peers[i].state != Connected && peers[i].state != DisconnectLater {
        return -1;
      }
      var p := peers[i].(incomingBandwidth := incoming, outgoingBandwidth := outgoing);
      CountUpdate(peers[..], i, p);
      if peers[i].incomingBandwidth != 0 {
        bandwidthLimitedPeers := bandwidthLimitedPeers - 1;
      }
      peers[i] := p;
      assert peers[..] == old(peers[..])[i := p];
      if peers[i].incomingBandwidth != 0 {
        bandwidthLimitedPeers := bandwidthLimitedPeers + 1;
      }
      return 0;
    }

    // ---- Sharing the outgoing bandwidth

    /** New limits for the host; the peers are told at the next throttling. */
    method BandwidthLimit(incoming: uint32, outgoing: uint32)
      requires Valid()
      modifies this`incomingBandwidth, this`outgoingBandwidth, this`recalculateBandwidthLimits
      ensures Valid() && incomingBandwidth == incoming && outgoingBandwidth == outgoing && recalculateBandwidthLimits
    {
      incomingBandwidth, outgoingBandwidth := incoming, outgoing;
      recalculateBandwidthLimits := true;
    }

    /** The data sent to all active peers. */
    method TotalOutgoing(time: uint32) returns (dataTotal: nat)
      requires forall i :: 0 <= i < peers.Length && Active(peers[i]) ==> peers[i].outgoingEpoch != time
      ensures dataTotal == Total(WaitingData(peers[..], time))
    {
      dataTotal := 0;
      ghost var v := WaitingData(peers[..], time);
      assert v[..0] == [];
      for i := 0 to peers.Length
        invariant dataTotal == Total(v[..i])
      {
        assert v[..i + 1][..i] == v[..i];
        if peers[i].state != Connected && peers[i].state != DisconnectLater {
          continue;
        }
        dataTotal := dataTotal + peers[i].outgoingDataTotal;
      }
      assert v[..peers.Length] == v;
    }

    /** Gives those peers their own share that would exceed it with the common throttle. */
    method AdjustPass(time: uint32, elapsed: nat, throttle: nat, peersRemaining: nat, dataTotal: nat, bandwidth: nat,
                      ghost before: seq<Peer>, ghost budget: nat)
      returns (needsAdjustment: bool, remaining: nat, data: nat, left: nat)
      requires Balanced(before, peers[..], elapsed, time, peersRemaining, dataTotal, bandwidth, budget)
      requires throttle <= SCALE && throttle * Total(WaitingData(peers[..], time)) <= SCALE * bandwidth
      modifies peers
      ensures Balanced(before, peers[..], elapsed, time, remaining, data, left, budget)
      ensures needsAdjustment ==> remaining < peersRemaining
      ensures data - left == dataTotal - bandwidth && Throttle(data, left) <= Throttle(dataTotal, bandwidth)
      ensures !needsAdjustment ==> peers[..] == old(peers[..]) && data == dataTotal && left == bandwidth && remaining == peersRemaining
      ensures !needsAdjustment ==> forall i :: 0 <= i < peers.Length && Waiting(peers[i], time) ==> Content(peers[i], elapsed, throttle)
    {
      hide Balanced, Total, Allowance, Share, Throttle;
      needsAdjustment, remaining, data, left := false, peersRemaining, dataTotal, bandwidth;
      for i := 0 to peers.Length
        invariant Balanced(before, peers[..], elapsed, time, remaining, data, left, budget)
        invariant throttle * Total(WaitingData(peers[..], time)) <= SCALE * left && data - left == dataTotal - bandwidth && left <= bandwidth
        invariant needsAdjustment ==> remaining < peersRemaining
        invariant !needsAdjustment ==> peers[..] == old(peers[..]) && data == dataTotal && left == bandwidth && remaining == peersRemaining
        invariant !needsAdjustment ==> forall j :: 0 <= j < i && Waiting(peers[j], time) ==> Content(peers[j], elapsed, throttle)
      {
        if (peers[i].state != Connected && peers[i].state != DisconnectLater) ||
           peers[i].incomingBandwidth == 0 || peers[i].outgoingEpoch == time {
          continue;
        }
        var peerBandwidth := Allowance(peers[i], elapsed);
        if throttle * peers[i].outgoingDataTotal / SCALE <= peerBandwidth {
          continue;
        }
        AdjustBalanced(before, peers[..], elapsed, time, remaining, data, left, budget, i, throttle);
        ghost var s := peers[..];
        AdjustPeer(i, peerBandwidth, time);
        BalancedFacts(before, peers[..], elapsed, time, remaining - 1, data - peerBandwidth, left - peerBandwidth, budget);
        needsAdjustment := true;
        remaining := remaining - 1;
        left := left - peerBandwidth;
        data := data - peerBandwidth;
      }
      ThrottleFalls(dataTotal, bandwidth, bandwidth - left);
    }

    method AdjustPeer(i: nat, peerBandwidth: nat, time: uint32)
      requires i < peers.Length && peers[i].outgoingDataTotal > 0
      modifies peers
      ensures peers[..] == old(peers[..])[i := Adjusted(old(peers[i]), peerBandwidth, time)]
    {
      peers[i] := peers[i].(packetThrottleLimit := peerBandwidth * SCALE / peers[i].outgoingDataTotal);
      if peers[i].packetThrottleLimit == 0 {
        peers[i] := peers[i].(packetThrottleLimit := 1);
      }
      if peers[i].packetThrottle > peers[i].packetThrottleLimit {
        peers[i] := peers[i].(packetThrottle := peers[i].packetThrottleLimit);
      }
      peers[i] := peers[i].(outgoingEpoch := time, incomingDataTotal := 0, outgoingDataTotal := 0);
      assert peers[..] == old(peers[..])[i := Adjusted(old(peers[i]), peerBandwidth, time)];
    }

    /** Gives the other peers the common throttle. */
    method ThrottleRest(time: uint32, throttle: nat)
      modifies peers
      ensures forall i :: 0 <= i < peers.Length ==>
                peers[i] == if Waiting(old(peers[i]), time) then Limited(old(peers[i]), throttle) else old(peers[i])
    {
      for i := 0 to peers.Length
        invariant forall j :: 0 <= j < i ==>
                    peers[j] == if Waiting(old(peers[j]), time) then Limited(old(peers[j]), throttle) else old(peers[j])
        invariant forall j :: i <= j < peers.Length ==> peers[j] == old(peers[j])
      {
        if (peers[i].state != Connected && peers[i].state != DisconnectLater) || peers[i].outgoingEpoch == time {
          continue;
        }
        peers[i] := peers[i].(packetThrottleLimit := throttle);
        if peers[i].packetThrottle > peers[i].packetThrottleLimit {
          peers[i] := peers[i].(packetThrottle := peers[i].packetThrottleLimit);
        }
        peers[i] := peers[i].(incomingDataTotal := 0, outgoingDataTotal := 0);
      }
    }

    /** Divides the outgoing bandwidth of the elapsed time among the active peers. */
    method ShareOutgoing(time: uint32, elapsed: nat) returns (ghost t: nat, ghost budget: nat)
      requires Valid() && connectedPeers > 0
      requires forall i :: 0 <= i < peers.Length && Active(peers[i]) ==> peers[i].outgoingEpoch != time
      requires Total(WaitingData(peers[..], time)) < WORD
      modifies peers
      ensures t <= SCALE && budget == if outgoingBandwidth == 0 then WORD - 1 else outgoingBandwidth * elapsed / 1000
      ensures Shared(old(peers[..]), peers[..], elapsed, time, t)
      ensures forall i :: 0 <= i < peers.Length ==> SharedInNumbers(old(peers[i]), peers[i], elapsed, time, t)
      ensures if outgoingBandwidth == 0 then t == 32 else CommonInNumbers(old(peers[..]), peers[..], elapsed, time, t, outgoingBandwidth)
      ensures CommonShare(old(peers[..]), peers[..], elapsed, time, t, Demand(old(peers[..]), time, outgoingBandwidth), budget)
      ensures Total(Sent(old(peers[..]), peers[..], elapsed, time)) <= SCALE * budget
    {
      hide Total, Allowance, Throttle, Content, Share, CountActive, CountLimited, Balanced, Shared, SharedInNumbers, Sent, CommonShare, CommonInNumbers;
      ghost var before := peers[..];
      var dataTotal: nat, bandwidth: nat := WORD - 1, WORD - 1;
      var needsAdjustment := bandwidthLimitedPeers > 0;
      var peersRemaining := connectedPeers;
      if outgoingBandwidth != 0 {
        bandwidth := outgoingBandwidth * elapsed / 1000;
        dataTotal := TotalOutgoing(time);
      }
      budget := bandwidth;
      ghost var demand := dataTotal;
      StartBalanced(before, elapsed, time, dataTotal, bandwidth);
      if !needsAdjustment { UnlimitedContent(before, elapsed, time); }
      while peersRemaining > 0 && needsAdjustment
        invariant Balanced(before, peers[..], elapsed, time, peersRemaining, dataTotal, bandwidth, budget)
        invariant dataTotal - bandwidth == demand - budget
        invariant !needsAdjustment ==>
                    forall i :: 0 <= i < peers.Length && Waiting(peers[i], time) ==> Content(peers[i], elapsed, Throttle(dataTotal, bandwidth))
        decreases peersRemaining, needsAdjustment
      {
        var throttle := CommonThrottle(dataTotal, bandwidth);
        ThrottleCovers(before, peers[..], elapsed, time, peersRemaining, dataTotal, bandwidth, budget);
        needsAdjustment, peersRemaining, dataTotal, bandwidth :=
          AdjustPass(time, elapsed, throttle, peersRemaining, dataTotal, bandwidth, before, budget);
      }
      t := Throttle(dataTotal, bandwidth);
      ThrottleCovers(before, peers[..], elapsed, time, peersRemaining, dataTotal, bandwidth, budget);
      ghost var s := peers[..];
      NoneWaiting(before, s, elapsed, time, peersRemaining, dataTotal, bandwidth, budget);
      if peersRemaining > 0 {
        var throttle := CommonThrottle(dataTotal, bandwidth);
        ThrottleRest(time, throttle);
      }
      SharedFrom(before, s, peers[..], elapsed, time, peersRemaining, dataTotal, bandwidth, budget, t);
      WithinBudget(before, s, peers[..], elapsed, time, peersRemaining, dataTotal, bandwidth, budget, t);
      SharesLeft(before, s, peers[..], elapsed, time, peersRemaining, dataTotal, bandwidth, budget, t, demand);
      SharedMeans(before, peers[..], elapsed, time, t);
      if outgoingBandwidth == 0 { FullThrottle(dataTotal, bandwidth); } else { CommonMeaning(before, peers[..], elapsed, time, t, outgoingBandwidth); }
    }

    method CommonThrottle(dataTotal: nat, bandwidth: nat) returns (throttle: nat)
      ensures throttle == Throttle(dataTotal, bandwidth) && throttle <= SCALE
    {
      if dataTotal <= bandwidth {
        throttle := SCALE;
      } else {
        throttle := bandwidth * SCALE / dataTotal;
      }
      assert Throttle(dataTotal, bandwidth) <= SCALE;
    }

    // ---- Sharing the incoming bandwidth

    /** Lets those peers keep their own limit that stay below the common one. */
    method MarkPass(time: uint32, bandwidthLimit: nat, peersRemaining: nat, bandwidth: nat, ghost before: seq<Peer>, ghost budget: nat)
      returns (needsAdjustment: bool, remaining: nat, left: nat)
      requires Allotted(before, peers[..], time, peersRemaining, bandwidth, budget) && bandwidthLimit * peersRemaining <= bandwidth
      requires MarkedBelow(peers[..], time, bandwidthLimit)
      modifies peers
      ensures MarkedBelow(peers[..], time, bandwidthLimit) && OthersAbove(peers[..], time, bandwidthLimit)
      ensures Allotted(before, peers[..], time, remaining, left, budget) && bandwidthLimit * remaining <= left
      ensures needsAdjustment ==> remaining < peersRemaining
      ensures !needsAdjustment ==> remaining == peersRemaining && left == bandwidth
    {
      hide Allotted, Total;
      needsAdjustment, remaining, left := false, peersRemaining, bandwidth;
      for i := 0 to peers.Length
        invariant Allotted(before, peers[..], time, remaining, left, budget) && bandwidthLimit * remaining <= left
        invariant MarkedBelow(peers[..], time, bandwidthLimit)
        invariant needsAdjustment ==> remaining < peersRemaining
        invariant !needsAdjustment ==> remaining == peersRemaining && left == bandwidth
        invariant OthersAbove(peers[..i], time, bandwidthLimit)
      {
        if (peers[i].state != Connected && peers[i].state != DisconnectLater) || peers[i].incomingEpoch == time {
          continue;
        }
        if peers[i].outgoingBandwidth > 0 && peers[i].outgoingBandwidth >= bandwidthLimit {
          continue;
        }
        MarkAllotted(before, peers[..], time, remaining, left, budget, i, bandwidthLimit);
        ghost var s := peers[..];
        peers[i] := peers[i].(incomingEpoch := time);
        assert peers[..] == s[i := s[i].(incomingEpoch := time)];
        AllottedFacts(before, peers[..], time, remaining - 1, left - peers[i].outgoingBandwidth, budget);
        needsAdjustment := true;
        remaining := remaining - 1;
        left := left - peers[i].outgoingBandwidth;
      }
    }

    /** Tells every active peer how much it may send: its own limit, or an equal share of what the
        others leave. */
    method ShareIncoming(time: uint32) returns (told: seq<nat>, ghost limit: nat)
      requires Valid() && forall i :: 0 <= i < peers.Length && Active(peers[i]) ==> peers[i].incomingEpoch != time
      modifies peers
      ensures |told| == peers.Length && told == AllTold(peers[..], time, limit)
      ensures MarkedOnly(old(peers[..]), peers[..], time)
      ensures incomingBandwidth > 0 ==> Total(told) <= incomingBandwidth
      ensures incomingBandwidth > 0 ==> ToldInNumbers(old(peers[..]), told, limit, incomingBandwidth)
      ensures incomingBandwidth == 0 ==> forall i :: 0 <= i < peers.Length ==> told[i] == 0
      ensures incomingBandwidth == 0 ==> limit == 0 && peers[..] == old(peers[..])
      ensures incomingBandwidth > 0 ==> Fair(peers[..], time, limit, incomingBandwidth)
      ensures incomingBandwidth > 0 ==> (EveryoneLimited(peers[..], told) <==> Divisible(old(peers[..]), incomingBandwidth))
    {
      hide Allotted, Fair, EveryoneLimited, Divisible, Total, CountActive, CountLimited, Level, LeastLevel, ToldInNumbers;
      ghost var before := peers[..];
      var peersRemaining: nat, bandwidth: nat, needsAdjustment := connectedPeers, incomingBandwidth, true;
      var bandwidthLimit: nat := 0;
      StartAllotted(before, time, incomingBandwidth);
      if bandwidth == 0 {
        bandwidthLimit := 0;
      } else {
        while peersRemaining > 0 && needsAdjustment
          invariant Allotted(before, peers[..], time, peersRemaining, bandwidth, incomingBandwidth)
          invariant bandwidthLimit * peersRemaining <= bandwidth && MarkedBelow(peers[..], time, bandwidthLimit)
          invariant !needsAdjustment && peersRemaining > 0 ==> bandwidthLimit == bandwidth / peersRemaining
          invariant !needsAdjustment ==> OthersAbove(peers[..], time, bandwidthLimit)
          invariant NoneBelow(before, bandwidthLimit, incomingBandwidth)
          decreases peersRemaining, needsAdjustment
        {
          LimitRises(bandwidthLimit, peersRemaining, bandwidth);
          SharesBelow(before, peers[..], time, peersRemaining, bandwidth, incomingBandwidth, bandwidthLimit);
          bandwidthLimit := bandwidth / peersRemaining;
          EqualShare(bandwidth, peersRemaining);
          needsAdjustment, peersRemaining, bandwidth := MarkPass(time, bandwidthLimit, peersRemaining, bandwidth, before, incomingBandwidth);
        }
        AllMarked(before, peers[..], time, peersRemaining, bandwidth, incomingBandwidth);
        LeastAtEnd(before, peers[..], time, peersRemaining, bandwidth, incomingBandwidth, bandwidthLimit);
        ToldMeans(before, peers[..], time, bandwidthLimit, incomingBandwidth);
        FairAtEnd(before, peers[..], time, peersRemaining, bandwidth, incomingBandwidth, bandwidthLimit);
        ToldWithin(before, peers[..], time, peersRemaining, bandwidth, incomingBandwidth, if peersRemaining == 0 then 0 else bandwidthLimit);
        ToldSame(peers[..], time, bandwidthLimit, if peersRemaining == 0 then 0 else bandwidthLimit, peersRemaining);
      }
      AllottedMarks(before, peers[..], time);
      limit := bandwidthLimit;
      told := [];
      for i := 0 to peers.Length
        invariant |told| == i && forall j :: 0 <= j < i ==> told[j] == Told(peers[j], time, bandwidthLimit)
      {
        if peers[i].state != Connected && peers[i].state != DisconnectLater {
          told := told + [0];
          continue;
        }
        if peers[i].incomingEpoch == time {
          told := told + [peers[i].outgoingBandwidth];
        } else {
          told := told + [bandwidthLimit];
        }
      }
      assert told == AllTold(peers[..], time, limit);
      if incomingBandwidth > 0 {
        LimitedExactly(peers[..], time, limit, incomingBandwidth);
        MarkedFacts(before, peers[..], time);
        DivisibleSame(before, peers[..], incomingBandwidth);
      }
    }

    /** Once a second or less often: shares the outgoing bandwidth, and the incoming one after
        connections changed; told is empty unless limits are sent. */
    method BandwidthThrottle(time: uint32) returns (told: seq<nat>, ghost t: nat, ghost budget: nat, ghost limit: nat)
      requires Valid()
      requires forall i :: 0 <= i < peers.Length && Active(peers[i]) ==> peers[i].outgoingEpoch != time && peers[i].incomingEpoch != time
      requires Total(WaitingData(peers[..], time)) < WORD
      modifies peers, this`throttleEpoch, this`recalculateBandwidthLimits
      ensures Valid() && |told| <= peers.Length
      ensures var elapsed := (time - old(throttleEpoch)) % WORD;
              if elapsed < 1000 || connectedPeers == 0 then
                && peers[..] == old(peers[..]) && told == [] && recalculateBandwidthLimits == old(recalculateBandwidthLimits)
                && throttleEpoch == (if elapsed < 1000 then old(throttleEpoch) else time)
              else
                && throttleEpoch == time && t <= SCALE
                && budget == (if outgoingBandwidth == 0 then WORD - 1 else outgoingBandwidth * elapsed / 1000)
                && !recalculateBandwidthLimits
                && (!old(recalculateBandwidthLimits) ==> told == [])
                && (old(recalculateBandwidthLimits) ==> told == AllTold(peers[..], time, limit))
                && (old(recalculateBandwidthLimits) && incomingBandwidth > 0 ==> Fair(peers[..], time, limit, incomingBandwidth))
                && (old(recalculateBandwidthLimits) && incomingBandwidth > 0 ==>
                      (EveryoneLimited(peers[..], told) <==> Divisible(old(peers[..]), incomingBandwidth)))
      ensures told != [] && incomingBandwidth > 0 ==> ToldInNumbers(old(peers[..]), told, limit, incomingBandwidth)
      ensures incomingBandwidth > 0 ==> Total(told) <= incomingBandwidth
      ensures var elapsed := (time - old(throttleEpoch)) % WORD;
              elapsed >= 1000 && connectedPeers > 0 ==>
                exists shared: seq<Peer> ::
                  && Shared(old(peers[..]), shared, elapsed, time, t)
                  && (forall i :: 0 <= i < peers.Length ==> SharedInNumbers(old(peers[i]), shared[i], elapsed, time, t))
                  && CommonShare(old(peers[..]), shared, elapsed, time, t, Demand(old(peers[..]), time, outgoingBandwidth), budget)
                  && (if outgoingBandwidth == 0 then t == 32 else CommonInNumbers(old(peers[..]), shared, elapsed, time, t, outgoingBandwidth))
                  && Total(Sent(old(peers[..]), shared, elapsed, time)) <= SCALE * budget
                  && MarkedOnly(shared, peers[..], time)
    {
      hide Total, Shared, SharedInNumbers, ToldInNumbers, CommonShare, CommonInNumbers, Demand, Sent, Fair, EveryoneLimited, Divisible, CountActive, CountLimited, MarkedOnly;
      told, t, budget, limit := [], 0, 0, 0;
      assert Total([]) == 0 by { TotalZero([]); }
      var elapsed := (time - throttleEpoch) % WORD;
      if elapsed < INTERVAL {
        return;
      }
      throttleEpoch := time;
      if connectedPeers == 0 {
        return;
      }
      ghost var before := peers[..];
      t, budget := ShareOutgoing(time, elapsed);
      ghost var shared := peers[..];
      SharedFacts(before, shared, elapsed, time, t);
      CountsKept(before, shared);
      DivisibleSame(before, shared, incomingBandwidth);
      AllottedMarks(shared, peers[..], time);
      if recalculateBandwidthLimits {
        recalculateBandwidthLimits := false;
        told, limit := ShareIncoming(time);
        MarkedFacts(shared, peers[..], time);
        ToldSameStates(before, shared, told, limit, incomingBandwidth);
        CountsKept(shared, peers[..]);
      }
    }
  }

  /** The order of the states in the enumeration of the C code. */
  function Rank(state: State): nat {
    match state
    case Disconnected => 0
    case Connecting => 1
    case AcknowledgingConnect => 2
    case ConnectionPending => 3
    case ConnectionSucceeded => 4
    case Connected => 5
    case DisconnectLater => 6
    case Disconnecting => 7
    case AcknowledgingDisconnect => 8
    case Zombie => 9
  }

  /** A peer that is connected, or about to be, from the same address. */
  predicate Duplicate(p: Peer, sameAddress: bool) {
    p.state != Disconnected && p.state != Connecting && sameAddress
  }

  function CountDuplicates(s: seq<Peer>, sameAddress: seq<bool>): nat
    requires |s| == |sameAddress|
  {
    if s == [] then 0
    else
      var n := |s| - 1;
      CountDuplicates(s[..n], sameAddress[..n]) + if Duplicate(s[n], sameAddress[n]) then 1 else 0
  }

  /** The peers from the same address that are neither disconnected nor connecting. */
  ghost function Duplicates(s: seq<Peer>, sameAddress: seq<bool>): set<nat>
    requires |s| == |sameAddress|
  {
    set i: nat | i < |s| && s[i].state != Disconnected && s[i].state != Connecting && sameAddress[i]
  }

  lemma {:induction false} DuplicatesInNumbers(s: seq<Peer>, sameAddress: seq<bool>)
    requires |s| == |sameAddress|
    ensures CountDuplicates(s, sameAddress) == |Duplicates(s, sameAddress)|
  {
    if s == [] {
      assert Duplicates(s, sameAddress) == {};
    } else {
      hide Duplicates;
      DuplicatesInNumbers(s[..|s| - 1], sameAddress[..|s| - 1]);
      DuplicatesNext(s, sameAddress);
    }
  }

  lemma DuplicatesNext(s: seq<Peer>, sameAddress: seq<bool>)
    requires |s| == |sameAddress| && s != []
    ensures var n := |s| - 1;
            var fewer := Duplicates(s[..n], sameAddress[..n]);
            && n !in fewer
            && Duplicates(s, sameAddress) == if Duplicate(s[n], sameAddress[n]) then fewer + {n} else fewer
  {
    var t, same := s[..|s| - 1], sameAddress[..|s| - 1];
    forall i: nat | i < |t| ensures t[i] == s[i] && same[i] == sameAddress[i] {
    }
  }

  function Blank(): Peer {
    Peer(Disconnected, 0, 0, 0, 0, SCALE, SCALE, 0, 0)
  }

  lemma {:induction false} NoneActive(s: seq<Peer>)
    requires forall i :: 0 <= i < |s| ==> !Active(s[i])
    ensures CountActive(s) == 0 && CountLimited(s) == 0
  {
    if s != [] { NoneActive(s[..|s| - 1]); }
  }

  lemma BalancedFacts(before: seq<Peer>, s: seq<Peer>, elapsed: nat, time: uint32, remaining: int, dataTotal: int, bandwidth: int, budget: nat)
    requires Balanced(before, s, elapsed, time, remaining, dataTotal, bandwidth, budget)
    ensures remaining >= 0 && dataTotal >= 0 && bandwidth >= 0
  {
  }

  lemma AllottedFacts(before: seq<Peer>, s: seq<Peer>, time: uint32, remaining: int, bandwidth: int, budget: nat)
    requires Allotted(before, s, time, remaining, bandwidth, budget)
    ensures remaining >= 0 && bandwidth >= 0
  {
  }

  lemma {:induction false} UnlimitedContent(s: seq<Peer>, elapsed: nat, time: uint32)
    requires CountLimited(s) == 0
    ensures forall i, t: nat :: 0 <= i < |s| && Waiting(s[i], time) ==> Content(s[i], elapsed, t)
  {
    hide Allowance;
    if s != [] { UnlimitedContent(s[..|s| - 1], elapsed, time); }
  }

  /** The common throttle keeps the waiting data within the bandwidth. */
  lemma ThrottleCovers(before: seq<Peer>, s: seq<Peer>, elapsed: nat, time: uint32, remaining: int, dataTotal: nat, bandwidth: nat, budget: nat)
    requires Balanced(before, s, elapsed, time, remaining, dataTotal, bandwidth, budget)
    ensures Throttle(dataTotal, bandwidth) * Total(WaitingData(s, time)) <= SCALE * bandwidth
  {
    hide Throttle, Total;
    var t, r := Throttle(dataTotal, bandwidth), Total(WaitingData(s, time));
    Distribute(t, r, dataTotal - r);
  }

  lemma NoneWaiting(before: seq<Peer>, s: seq<Peer>, elapsed: nat, time: uint32, remaining: int, dataTotal: int, bandwidth: int, budget: nat)
    requires Balanced(before, s, elapsed, time, remaining, dataTotal, bandwidth, budget)
    ensures remaining == 0 ==> forall i :: 0 <= i < |s| ==> !Waiting(s[i], time)
  {
    hide Total;
    forall i: nat | i < |s| && remaining == 0 ensures !Waiting(s[i], time) {
      TotalUpdate(WaitingOnes(s, time), i, 0);
    }
  }

  lemma SharedFrom(before: seq<Peer>, s: seq<Peer>, after: seq<Peer>, elapsed: nat, time: uint32,
                   remaining: int, dataTotal: nat, bandwidth: nat, budget: nat, t: nat)
    requires Balanced(before, s, elapsed, time, remaining, dataTotal, bandwidth, budget)
    requires |after| == |s| && forall i :: 0 <= i < |s| ==> after[i] == if Waiting(s[i], time) then Limited(s[i], t) else s[i]
    requires forall i :: 0 <= i < |s| && Waiting(s[i], time) ==> Content(s[i], elapsed, t)
    ensures Shared(before, after, elapsed, time, t)
  {
    hide Total, Allowance, Share, Content;
  }

  lemma SharesLeft(before: seq<Peer>, s: seq<Peer>, after: seq<Peer>, elapsed: nat, time: uint32,
                   remaining: int, dataTotal: nat, bandwidth: nat, budget: nat, t: nat, demand: nat)
    requires Balanced(before, s, elapsed, time, remaining, dataTotal, bandwidth, budget)
    requires dataTotal - bandwidth == demand - budget && t == Throttle(dataTotal, bandwidth)
    requires |after| == |s| && forall i :: 0 <= i < |s| ==> after[i] == if Waiting(s[i], time) then Limited(s[i], t) else s[i]
    ensures CommonShare(before, after, elapsed, time, t, demand, budget)
  {
    hide Total, Allowance, Share, Throttle;
    assert Given(before, after, elapsed, time) == Given(before, s, elapsed, time);
  }

  lemma FullThrottle(dataTotal: nat, bandwidth: nat)
    ensures dataTotal <= bandwidth ==> Throttle(dataTotal, bandwidth) == 32
  {
  }

  lemma EqualShare(bandwidth: nat, n: nat)
    requires n > 0
    ensures bandwidth / n * n <= bandwidth
  {
    assert bandwidth == bandwidth / n * n + bandwidth % n;
  }

  lemma AllMarked(before: seq<Peer>, s: seq<Peer>, time: uint32, remaining: int, bandwidth: int, budget: nat)
    requires Allotted(before, s, time, remaining, bandwidth, budget)
    ensures remaining == 0 ==> forall i :: 0 <= i < |s| ==> !Unmarked(s[i], time)
    ensures MarkedOnly(before, s, time)
  {
    hide Total;
    forall i: nat | i < |s| && remaining == 0 ensures !Unmarked(s[i], time) {
      TotalUpdate(UnmarkedOnes(s, time), i, 0);
    }
  }

  lemma ToldSame(s: seq<Peer>, time: uint32, limit: nat, other: nat, remaining: int)
    requires limit == other || forall i :: 0 <= i < |s| ==> !Unmarked(s[i], time)
    ensures AllTold(s, time, limit) == AllTold(s, time, other)
  {
  }

  lemma AllottedMarks(before: seq<Peer>, s: seq<Peer>, time: uint32)
    ensures s == before ==> MarkedOnly(before, s, time)
  {
  }

  lemma {:induction false} CountsKept(s: seq<Peer>, s': seq<Peer>)
    requires |s| == |s'|
    requires forall i :: 0 <= i < |s| ==> s'[i].state == s[i].state && s'[i].incomingBandwidth == s[i].incomingBandwidth
    ensures CountActive(s') == CountActive(s) && CountLimited(s') == CountLimited(s)
  {
    if s != [] { CountsKept(s[..|s| - 1], s'[..|s| - 1]); }
  }

  lemma SharedFacts(before: seq<Peer>, after: seq<Peer>, elapsed: nat, time: uint32, t: nat)
    requires Shared(before, after, elapsed, time, t)
    ensures |before| == |after|
    ensures forall i :: 0 <= i < |before| ==>
              after[i].state == before[i].state && after[i].incomingBandwidth == before[i].incomingBandwidth
              && after[i].incomingEpoch == before[i].incomingEpoch && after[i].outgoingBandwidth == before[i].outgoingBandwidth
  {
  }

  lemma DivisibleSame(before: seq<Peer>, s: seq<Peer>, budget: nat)
    requires |before| == |s|
    requires forall i :: 0 <= i < |s| ==>
               s[i].state == before[i].state && s[i].incomingBandwidth == before[i].incomingBandwidth
               && s[i].outgoingBandwidth == before[i].outgoingBandwidth
    ensures Divisible(before, budget) == Divisible(s, budget)
  {
    hide CountActive, CountLimited;
    CountsKept(before, s);
  }

  lemma MarkedFacts(before: seq<Peer>, after: seq<Peer>, time: uint32)
    requires MarkedOnly(before, after, time)
    ensures |before| == |after|
    ensures forall i :: 0 <= i < |before| ==>
              after[i].state == before[i].state && after[i].incomingBandwidth == before[i].incomingBandwidth
              && after[i].outgoingBandwidth == before[i].outgoingBandwidth
  {
  }
}
