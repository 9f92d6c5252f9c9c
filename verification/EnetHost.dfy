/** The life of a peer and the counters the host keeps about its peers (toxtun/peer.c and
    toxtun/protocol.c). */
module EnetHost {
  import opened Words

  datatype State =
    | Disconnected | Connecting | AcknowledgingConnect | ConnectionPending | ConnectionSucceeded
    | Connected | DisconnectLater | Disconnecting | AcknowledgingDisconnect | Zombie

  /** The numeric order of the states. */
  function Rank(s: State): (r: nat)
  {
    match s
    case Disconnected => 0
    case Connecting => 1
    case AcknowledgingConnect => 2
    case ConnectionPending => 3
    case ConnectionSucceeded => 4
    case Connected => 5
    case DisconnectLater => 6
    case Disconnecting => 7
    case AcknowledgingDisconnect => 8
    case Zombie => 9
  }

  /** waiting is the number of dispatched commands, busy whether anything is still to be sent
      or acknowledged. */
  datatype Peer = Peer(state: State, incomingBandwidth: u32, outgoingBandwidth: u32,
                       needsDispatch: bool, waiting: nat, busy: bool)

  const BLANK := Peer(Disconnected, 0, 0, false, 0, false)

  datatype Event = NoEvent | ConnectEvent(peer: nat) | DisconnectEvent(peer: nat) | ReceiveEvent(peer: nat)

  predicate IsConnected(p: Peer)
  {
    p.state == Connected || p.state == DisconnectLater
  }

  /** A peer whose queues were emptied. */
  function Cleared(p: Peer): (r: Peer)
  {
    p.(needsDispatch := false, waiting := 0, busy := false)
  }

  /** The peer after enet_peer_disconnect: it waits for the acknowledgement of its disconnect
      command if it was connected, and is as new if it was not yet. */
  function AfterDisconnect(p: Peer): (r: Peer)
  {
    if p.state in {Disconnecting, Disconnected, AcknowledgingDisconnect, Zombie} then p
    else if IsConnected(p) then Cleared(p).(state := Disconnecting, busy := true)
    else BLANK
  }

  // ---------- What the dispatch queue has to report ----------

  predicate HasEvent(p: Peer)
  {
    p.state in {ConnectionPending, ConnectionSucceeded, Zombie} || (p.state == Connected && p.waiting > 0)
  }

  function EventOf(k: nat, p: Peer): (event: Event)
  {
    if p.state == Zombie then DisconnectEvent(k) else if p.state == Connected then ReceiveEvent(k) else ConnectEvent(k)
  }

  /** The peer after its event was reported. */
  function Reported(p: Peer): (r: Peer)
    requires HasEvent(p)
  {
    if p.state == Zombie then BLANK
    else if p.state == Connected then p.(waiting := p.waiting - 1, needsDispatch := p.waiting > 1)
    else p.(state := Connected, needsDispatch := false)
  }

  /** What is reported of peer k, and how it goes on: a connection, after which it is connected; its
      end, after which it is free; or a packet, after which it needs dispatch as long as more wait. */
  ghost predicate Reports(k: nat, p: Peer, event: Event, p': Peer)
  {
    match p.state
    case Zombie => event == DisconnectEvent(k) && p' == BLANK
    case ConnectionPending => event == ConnectEvent(k) && p' == p.(state := Connected, needsDispatch := false)
    case ConnectionSucceeded => event == ConnectEvent(k) && p' == p.(state := Connected, needsDispatch := false)
    case Connected =>
      p.waiting > 0 && event == ReceiveEvent(k)
      && p' == p.(waiting := p.waiting - 1, needsDispatch := p.waiting >= 2)
    case _ => false
  }

  lemma ReportsIs(k: nat, p: Peer)
    requires HasEvent(p)
    ensures Reports(k, p, EventOf(k, p), Reported(p))
  {
  }

  /** The place in the queue of the first peer with an event, or the length of the queue. */
  ghost predicate FirstEvent(queue: seq<nat>, peers: seq<Peer>, i: nat)
  {
    && i <= |queue| && (forall m :: 0 <= m < |queue| ==> queue[m] < |peers|)
    && (forall m :: 0 <= m < i ==> !HasEvent(peers[queue[m]]))
    && (i < |queue| ==> HasEvent(peers[queue[i]]))
  }

  /** Those of the first i in the queue no longer need dispatch. */
  ghost predicate PassedOver(before: seq<Peer>, after: seq<Peer>, queue: seq<nat>, i: nat)
    requires i <= |queue|
  {
    && |after| == |before|
    && forall j :: 0 <= j < |before| ==>
         after[j] == if j in queue[..i] then before[j].(needsDispatch := false) else before[j]
  }

  function ConnectedCount(peers: seq<Peer>): (n: nat)
  {
    if peers == [] then 0
    else ConnectedCount(peers[..|peers| - 1]) + if IsConnected(peers[|peers| - 1]) then 1 else 0
  }

  function LimitedCount(peers: seq<Peer>): (n: nat)
  {
    if peers == [] then 0
    else
      var p := peers[|peers| - 1];
      LimitedCount(peers[..|peers| - 1]) + if IsConnected(p) && p.incomingBandwidth != 0 then 1 else 0
  }

  function One(b: bool): (n: nat)
  {
    if b then 1 else 0
  }

  lemma {:induction false} CountsChange(peers: seq<Peer>, k: nat, p: Peer)
    requires k < |peers|
    ensures ConnectedCount(peers[k := p]) == ConnectedCount(peers) - One(IsConnected(peers[k])) + One(IsConnected(p))
    ensures LimitedCount(peers[k := p])
         == LimitedCount(peers) - One(IsConnected(peers[k]) && peers[k].incomingBandwidth != 0)
           + One(IsConnected(p) && p.incomingBandwidth != 0)
    decreases |peers|
  {
    var last := |peers| - 1;
    if k < last {
      assert peers[k := p][..last] == peers[..last][k := p];
      CountsChange(peers[..last], k, p);
    } else {
      assert peers[k := p][..last] == peers[..last];
    }
  }

  ghost predicate Distinct(queue: seq<nat>)
  {
    forall i, k :: 0 <= i < k < |queue| ==> queue[i] != queue[k]
  }

  /** The dispatch queue names, once each, the peers that need dispatch. */
  ghost predicate QueueOk(queue: seq<nat>, peers: seq<Peer>)
  {
    && Distinct(queue)
    && (forall i :: 0 <= i < |queue| ==> queue[i] < |peers| && peers[queue[i]].needsDispatch)
    && (forall k :: 0 <= k < |peers| && peers[k].needsDispatch ==> k in queue)
  }

  function Without(queue: seq<nat>, k: nat): (r: seq<nat>)
    ensures forall x :: x in r <==> x in queue && x != k
    ensures |r| <= |queue|
  {
    if queue == [] then [] else if queue[0] == k then Without(queue[1..], k) else [queue[0]] + Without(queue[1..], k)
  }

  /** Taking k out of a queue makes no difference to what is left when it is taken out again, or was
      put at the end. */
  lemma {:induction false} WithoutSame(queue: seq<nat>, k: nat)
    ensures Without(Without(queue, k), k) == Without(queue, k) == Without(queue + [k], k)
    decreases |queue|
  {
    if queue == [] {
      assert queue + [k] == [k] && [k][1..] == [];
    } else {
      WithoutSame(queue[1..], k);
      assert (queue + [k])[1..] == queue[1..] + [k];
      if queue[0] != k {
        var r := Without(queue[1..], k);
        assert ([queue[0]] + r)[1..] == r;
      }
    }
  }

  lemma DistinctTail(queue: seq<nat>)
    requires Distinct(queue) && queue != []
    ensures Distinct(queue[1..]) && queue[0] !in queue[1..]
  {
  }

  lemma DistinctCons(x: nat, queue: seq<nat>)
    requires Distinct(queue) && x !in queue
    ensures Distinct([x] + queue)
  {
  }

  lemma {:induction false} WithoutDistinct(queue: seq<nat>, k: nat)
    requires Distinct(queue)
    ensures Distinct(Without(queue, k))
    decreases |queue|
  {
    hide Distinct;
    if queue != [] {
      DistinctTail(queue);
      WithoutDistinct(queue[1..], k);
      if queue[0] != k {
        DistinctCons(queue[0], Without(queue[1..], k));
      }
    } else {
      assert Without(queue, k) == queue;
    }
  }

  lemma QueueWithout(queue: seq<nat>, peers: seq<Peer>, k: nat, p: Peer)
    requires QueueOk(queue, peers) && k < |peers| && !p.needsDispatch
    ensures QueueOk(Without(queue, k), peers[k := p])
  {
    hide Distinct, Without;
    WithoutDistinct(queue, k);
    var r := Without(queue, k);
    forall i | 0 <= i < |r|
      ensures r[i] < |peers| && peers[k := p][r[i]].needsDispatch
    {
      assert r[i] in r && r[i] in queue;
      var m :| 0 <= m < |queue| && queue[m] == r[i];
    }
  }

  lemma QueueSame(queue: seq<nat>, peers: seq<Peer>, k: nat, p: Peer)
    requires QueueOk(queue, peers) && k < |peers| && p.needsDispatch == peers[k].needsDispatch
    ensures QueueOk(queue, peers[k := p])
  {
  }

  lemma QueueMore(queue: seq<nat>, peers: seq<Peer>, k: nat, p: Peer)
    requires QueueOk(queue, peers) && k < |peers| && !peers[k].needsDispatch && p.needsDispatch
    ensures QueueOk(queue + [k], peers[k := p])
  {
  }

  function Free(n: nat): (peers: seq<Peer>)
    ensures |peers| == n && forall i :: 0 <= i < n ==> peers[i] == BLANK
  {
    if n == 0 then [] else Free(n - 1) + [BLANK]
  }

  lemma {:induction false} NoneConnected(n: nat)
    ensures ConnectedCount(Free(n)) == 0 && LimitedCount(Free(n)) == 0
  {
    if n > 0 {
      NoneConnected(n - 1);
      assert Free(n)[..n - 1] == Free(n - 1);
    }
  }

  class Host {
    var peers: seq<Peer>
    var connectedPeers: nat
    var bandwidthLimitedPeers: nat
    var dispatchQueue: seq<nat>
    var recalculate: bool

    /** connectedPeers is the number of peers connected or about to disconnect,
        bandwidthLimitedPeers of those with a bandwidth limit, and a peer is in the dispatch
        queue exactly when it needs dispatch. */
    ghost predicate Valid()
      reads this
    {
      && connectedPeers == ConnectedCount(peers) && bandwidthLimitedPeers == LimitedCount(peers)
      && QueueOk(dispatchQueue, peers)
    }

    /** A host with n free peers. */
    constructor (n: nat)
      ensures Valid() && |peers| == n && forall i :: 0 <= i < n ==> peers[i] == BLANK
    {
      peers, connectedPeers, bandwidthLimitedPeers, dispatchQueue, recalculate := Free(n), 0, 0, [], false;
      new;
      NoneConnected(n);
    }

    /** enet_peer_on_connect */
    method OnConnect(k: nat)
      requires k < |peers|
      modifies this`connectedPeers, this`bandwidthLimitedPeers
      ensures connectedPeers == old(connectedPeers) + One(!IsConnected(peers[k]))
      ensures bandwidthLimitedPeers == old(bandwidthLimitedPeers)
        + One(!IsConnected(peers[k]) && peers[k].incomingBandwidth != 0)
    {
      if peers[k].state != Connected && peers[k].state != DisconnectLater {
        if peers[k].incomingBandwidth != 0 {
          bandwidthLimitedPeers := bandwidthLimitedPeers + 1;
        }
        connectedPeers := connectedPeers + 1;
      }
    }

    /** enet_peer_on_disconnect; the counters do not go below zero. */
    method OnDisconnect(k: nat)
      requires k < |peers| && Valid()
      modifies this`connectedPeers, this`bandwidthLimitedPeers
      ensures connectedPeers == old(connectedPeers) - One(IsConnected(peers[k]))
      ensures bandwidthLimitedPeers == old(bandwidthLimitedPeers) - One(IsConnected(peers[k])
        && peers[k].incomingBandwidth != 0)
    {
      CountsChange(peers, k, BLANK);
      if peers[k].state == Connected || peers[k].state == DisconnectLater {
        if peers[k].incomingBandwidth != 0 {
          bandwidthLimitedPeers := bandwidthLimitedPeers - 1;
        }
        connectedPeers := connectedPeers - 1;
      }
    }

    /** enet_protocol_change_state */
    method ChangeState(k: nat, state: State)
      requires Valid() && k < |peers|
      modifies this`peers, this`connectedPeers, this`bandwidthLimitedPeers
      ensures Valid() && peers == old(peers)[k := old(peers)[k].(state := state)]
    {
      var p := peers[k].(state := state);
      CountsChange(peers, k, p);
      QueueSame(dispatchQueue, peers, k, p);
      if state == Connected || state == DisconnectLater {
        OnConnect(k);
      } else {
        OnDisconnect(k);
      }
      peers := peers[k := p];
    }

    /** The peer joins the dispatch queue unless it is there. */
    method QueueDispatch(k: nat)
      requires Valid() && k < |peers|
      modifies this`peers, this`dispatchQueue
      ensures Valid() && peers == old(peers)[k := old(peers)[k].(needsDispatch := true)]
      ensures dispatchQueue == old(dispatchQueue) + if old(peers)[k].needsDispatch then [] else [k]
      ensures Without(dispatchQueue, k) == Without(old(dispatchQueue), k)
    {
      hide Without;
      WithoutSame(dispatchQueue, k);
      assert dispatchQueue + [] == dispatchQueue;
      var p := peers[k].(needsDispatch := true);
      CountsChange(peers, k, p);
      if !peers[k].needsDispatch {
        QueueMore(dispatchQueue, peers, k, p);
        dispatchQueue := dispatchQueue + [k];
        peers := peers[k := p];
      }
    }

    /** enet_protocol_dispatch_state */
    method DispatchState(k: nat, state: State)
      requires Valid() && k < |peers|
      modifies this`peers, this`dispatchQueue, this`connectedPeers, this`bandwidthLimitedPeers
      ensures Valid() && peers == old(peers)[k := old(peers)[k].(state := state, needsDispatch := true)]
      ensures Without(dispatchQueue, k) == Without(old(dispatchQueue), k)
    {
      hide ConnectedCount, LimitedCount, QueueOk, Without;
      ChangeState(k, state);
      QueueDispatch(k);
    }

    /** enet_peer_reset_queues */
    method ResetQueues(k: nat)
      requires Valid() && k < |peers|
      modifies this`peers, this`dispatchQueue
      ensures Valid() && peers == old(peers)[k := old(peers)[k].(needsDispatch := false, waiting := 0, busy := false)]
      ensures dispatchQueue == Without(old(dispatchQueue), k)
      ensures Without(dispatchQueue, k) == Without(old(dispatchQueue), k)
    {
      hide Without;
      WithoutSame(dispatchQueue, k);
      var p := peers[k].(needsDispatch := false, waiting := 0, busy := false);
      CountsChange(peers, k, p);
      QueueWithout(dispatchQueue, peers, k, p);
      dispatchQueue := Without(dispatchQueue, k);
      peers := peers[k := p];
    }

    /** enet_peer_reset */
    method Reset(k: nat)
      requires Valid() && k < |peers|
      modifies this`peers, this`dispatchQueue, this`connectedPeers, this`bandwidthLimitedPeers
      ensures Valid() && peers == old(peers)[k := BLANK] && dispatchQueue == Without(old(dispatchQueue), k)
      ensures Without(dispatchQueue, k) == Without(old(dispatchQueue), k)
    {
      hide Without;
      var p := peers[k].(state := Disconnected, incomingBandwidth := 0, outgoingBandwidth := 0);
      CountsChange(peers, k, p);
      QueueSame(dispatchQueue, peers, k, p);
      OnDisconnect(k);
      peers := peers[k := p];
      ResetQueues(k);
    }

    /** enet_host_connect and enet_protocol_handle_connect take the first free peer. */
    method TakeFree(state: State, incomingBandwidth: u32, outgoingBandwidth: u32) returns (found: bool, k: nat)
      requires Valid() && state in {Connecting, AcknowledgingConnect}
      modifies this`peers
      ensures Valid()
      ensures found ==> k < |old(peers)| && old(peers)[k].state == Disconnected
      ensures found ==> forall i :: 0 <= i < k ==> old(peers)[i].state != Disconnected
      ensures found ==>
        peers == old(peers)[k := old(peers)[k].(state := state, incomingBandwidth := incomingBandwidth,
                                                outgoingBandwidth := outgoingBandwidth, busy := true)]
      ensures !found ==> peers == old(peers) && forall i :: 0 <= i < |peers| ==> peers[i].state != Disconnected
    {
      k := 0;
      while k < |peers| && peers[k].state != Disconnected
        invariant k <= |peers|
        invariant forall i :: 0 <= i < k ==> peers[i].state != Disconnected
      {
        k := k + 1;
      }
      found := k < |peers|;
      if found {
        var p := peers[k].(state := state, incomingBandwidth := incomingBandwidth,
          outgoingBandwidth := outgoingBandwidth, busy := true);
        CountsChange(peers, k, p);
        QueueSame(dispatchQueue, peers, k, p);
        peers := peers[k := p];
      }
    }

    /** enet_protocol_notify_connect */
    method NotifyConnect(k: nat, wantsEvent: bool) returns (event: Event)
      requires Valid() && k < |peers|
      modifies this
      ensures Valid() && recalculate
      ensures event == if wantsEvent then ConnectEvent(k) else NoEvent
      ensures peers == old(peers)[k :=
        if wantsEvent then old(peers)[k].(state := Connected)
        else old(peers)[k].(state := if old(peers)[k].state == Connecting then ConnectionSucceeded
          else ConnectionPending, needsDispatch := true)]
      ensures Without(dispatchQueue, k) == Without(old(dispatchQueue), k)
    {
      hide ConnectedCount, LimitedCount, QueueOk, Without;
      recalculate := true;
      event := NoEvent;
      if wantsEvent {
        ChangeState(k, Connected);
        event := ConnectEvent(k);
      } else {
        DispatchState(k, if peers[k].state == Connecting then ConnectionSucceeded else ConnectionPending);
      }
    }

    /** enet_protocol_notify_disconnect */
    method NotifyDisconnect(k: nat, wantsEvent: bool) returns (event: Event)
      requires Valid() && k < |peers|
      modifies this
      ensures Valid()
      ensures recalculate == (old(recalculate) || Rank(old(peers)[k].state) >= Rank(ConnectionPending))
      ensures var early := old(peers)[k].state != Connecting && Rank(old(peers)[k].state) < Rank(ConnectionSucceeded);
        && event == (if !early && wantsEvent then DisconnectEvent(k) else NoEvent)
        && peers == old(peers)[k := if early || wantsEvent then BLANK
           else old(peers)[k].(state := Zombie, needsDispatch := true)]
      ensures Without(dispatchQueue, k) == Without(old(dispatchQueue), k)
    {
      hide ConnectedCount, LimitedCount, QueueOk, Without;
      event := NoEvent;
      if Rank(peers[k].state) >= Rank(ConnectionPending) {
        recalculate := true;
      }
      if peers[k].state != Connecting && Rank(peers[k].state) < Rank(ConnectionSucceeded) {
        Reset(k);
      } else if wantsEvent {
        event := DisconnectEvent(k);
        Reset(k);
      } else {
        DispatchState(k, Zombie);
      }
    }

    /** enet_protocol_handle_verify_connect: a peer being connected to answers; it is dropped if
        the answer does not fit the request. */
    method HandleVerifyConnect(k: nat, fits: bool, incomingBandwidth: u32, outgoingBandwidth: u32, wantsEvent: bool)
      returns (code: int, event: Event)
      requires Valid() && k < |peers|
      modifies this
      ensures Valid() && (old(peers)[k].state != Connecting ==> code == 0 && event == NoEvent && peers == old(peers))
      ensures old(peers)[k].state == Connecting && !fits ==>
        && code == -1 && event == NoEvent
        && peers == old(peers)[k := old(peers)[k].(state := Zombie, needsDispatch := true)]
      ensures old(peers)[k].state == Connecting && fits ==>
        && code == 0 && event == (if wantsEvent then ConnectEvent(k) else NoEvent)
        && var p := old(peers)[k].(incomingBandwidth := incomingBandwidth, outgoingBandwidth := outgoingBandwidth);
           peers == old(peers)[k :=
             if wantsEvent then p.(state := Connected) else p.(state := ConnectionSucceeded, needsDispatch := true)]
      ensures Without(dispatchQueue, k) == Without(old(dispatchQueue), k)
      ensures recalculate == (old(recalculate) || (old(peers)[k].state == Connecting && fits))
    {
      hide ConnectedCount, LimitedCount, QueueOk, Without;
      event := NoEvent;
      if peers[k].state != Connecting {
        return 0, event;
      }
      if !fits {
        DispatchState(k, Zombie);
        return -1, event;
      }
      var p := peers[k].(incomingBandwidth := incomingBandwidth, outgoingBandwidth := outgoingBandwidth);
      CountsChange(peers, k, p);
      QueueSame(dispatchQueue, peers, k, p);
      peers := peers[k := p];
      event := NotifyConnect(k, wantsEvent);
      return 0, event;
    }

    /** enet_protocol_handle_disconnect */
    method HandleDisconnect(k: nat, acknowledge: bool)
      requires Valid() && k < |peers|
      modifies this
      ensures Valid()
      ensures var p, zombie := Cleared(old(peers)[k]), Cleared(old(peers)[k]).(state := Zombie, needsDispatch := true);
        peers == old(peers)[k :=
          if p.state in {Disconnected, Zombie, AcknowledgingDisconnect} then old(peers)[k]
          else if p.state in {ConnectionSucceeded, Disconnecting, Connecting} then zombie
          else if !IsConnected(p) then BLANK
          else if acknowledge then p.(state := AcknowledgingDisconnect)
          else zombie]
      ensures Without(dispatchQueue, k) == Without(old(dispatchQueue), k)
      ensures recalculate == (old(recalculate) || old(peers)[k].state == ConnectionPending)
    {
      hide ConnectedCount, LimitedCount, QueueOk, Without;
      if peers[k].state == Disconnected || peers[k].state == Zombie || peers[k].state == AcknowledgingDisconnect {
        return;
      }
      ResetQueues(k);
      if peers[k].state == ConnectionSucceeded || peers[k].state == Disconnecting || peers[k].state == Connecting {
        DispatchState(k, Zombie);
      } else if peers[k].state != Connected && peers[k].state != DisconnectLater {
        if peers[k].state == ConnectionPending {
          recalculate := true;
        }
        Reset(k);
      } else if acknowledge {
        ChangeState(k, AcknowledgingDisconnect);
      } else {
        DispatchState(k, Zombie);
      }
    }

    /** enet_protocol_handle_bandwidth_limit */
    method HandleBandwidthLimit(k: nat, incomingBandwidth: u32, outgoingBandwidth: u32) returns (code: int)
      requires Valid() && k < |peers|
      modifies this`peers, this`bandwidthLimitedPeers
      ensures Valid() && code == (if IsConnected(old(peers)[k]) then 0 else -1)
      ensures var p := old(peers)[k].(incomingBandwidth := incomingBandwidth, outgoingBandwidth := outgoingBandwidth);
        peers == if code == 0 then old(peers)[k := p] else old(peers)
    {
      if peers[k].state != Connected && peers[k].state != DisconnectLater {
        return -1;
      }
      var p := peers[k].(incomingBandwidth := incomingBandwidth, outgoingBandwidth := outgoingBandwidth);
      CountsChange(peers, k, p);
      CountsChange(peers, k, BLANK);
      QueueSame(dispatchQueue, peers, k, p);
      if peers[k].incomingBandwidth != 0 {
        bandwidthLimitedPeers := bandwidthLimitedPeers - 1;
      }
      peers := peers[k := p];
      if peers[k].incomingBandwidth != 0 {
        bandwidthLimitedPeers := bandwidthLimitedPeers + 1;
      }
      return 0;
    }

    /** enet_peer_disconnect, up to the flush of a peer that was not connected. */
    method Disconnect(k: nat)
      requires Valid() && k < |peers|
      modifies this
      ensures Valid() && peers == old(peers)[k := AfterDisconnect(old(peers)[k])]
      ensures var p := old(peers)[k];
        && (p.state in {Disconnecting, Disconnected, AcknowledgingDisconnect, Zombie} ==> peers == old(peers))
        && (p.state in {Connected, DisconnectLater} ==>
              peers[k] == p.(state := Disconnecting, needsDispatch := false, waiting := 0, busy := true))
        && (p.state in {Connecting, AcknowledgingConnect, ConnectionPending, ConnectionSucceeded} ==> peers[k] == BLANK)
      ensures Without(dispatchQueue, k) == Without(old(dispatchQueue), k)
      ensures recalculate == old(recalculate)
    {
      hide ConnectedCount, LimitedCount, QueueOk, Without;
      if peers[k].state == Disconnecting || peers[k].state == Disconnected
         || peers[k].state == AcknowledgingDisconnect || peers[k].state == Zombie {
        return;
      }
      ResetQueues(k);
      var p := peers[k].(busy := true);
      CountsChange(peers, k, p);
      QueueSame(dispatchQueue, peers, k, p);
      peers := peers[k := p];
      if peers[k].state == Connected || peers[k].state == DisconnectLater {
        var q := peers[k].(state := Disconnecting);
        CountsChange(peers, k, q);
        QueueSame(dispatchQueue, peers, k, q);
        OnDisconnect(k);
        peers := peers[k := q];
      } else {
        Reset(k);
      }
    }

    /** enet_peer_disconnect_now, apart from the flush. */
    method DisconnectNow(k: nat)
      requires Valid() && k < |peers|
      modifies this
      ensures Valid() && peers == if old(peers)[k].state == Disconnected then old(peers) else old(peers)[k := BLANK]
      ensures Without(dispatchQueue, k) == Without(old(dispatchQueue), k)
      ensures recalculate == old(recalculate)
    {
      hide ConnectedCount, LimitedCount, QueueOk, Without;
      if peers[k].state == Disconnected {
        return;
      }
      if peers[k].state != Zombie && peers[k].state != Disconnecting {
        ResetQueues(k);
      }
      Reset(k);
    }

    /** enet_peer_disconnect_later */
    method DisconnectWhenIdle(k: nat)
      requires Valid() && k < |peers|
      modifies this
      ensures Valid()
      ensures var p := old(peers)[k];
        peers == old(peers)[k := if IsConnected(p) && p.busy then p.(state := DisconnectLater) else AfterDisconnect(p)]
      ensures Without(dispatchQueue, k) == Without(old(dispatchQueue), k)
      ensures recalculate == old(recalculate)
    {
      hide ConnectedCount, LimitedCount, QueueOk, Without;
      if (peers[k].state == Connected || peers[k].state == DisconnectLater) && peers[k].busy {
        var p := peers[k].(state := DisconnectLater);
        CountsChange(peers, k, p);
        QueueSame(dispatchQueue, peers, k, p);
        peers := peers[k := p];
      } else {
        Disconnect(k);
      }
    }

    /** The state changes of enet_protocol_handle_acknowledge: verified and disconnect say which
        command was acknowledged, idle whether that was the last one outstanding. */
    method HandleAcknowledge(k: nat, verified: bool, disconnect: bool, idle: bool, wantsEvent: bool)
      returns (code: int, event: Event)
      requires Valid() && k < |peers|
      modifies this
      ensures Valid()
      ensures var p := old(peers)[k];
        && code == (if (p.state == AcknowledgingConnect && !verified)
           || (p.state == Disconnecting && !disconnect) then -1 else 0)
        && peers == old(peers)[k :=
             if p.state == AcknowledgingConnect && verified then
               if wantsEvent then p.(state := Connected) else p.(state := ConnectionPending, needsDispatch := true)
             else if p.state == Disconnecting && disconnect then
               if wantsEvent then BLANK else p.(state := Zombie, needsDispatch := true)
             else if p.state == DisconnectLater && idle then AfterDisconnect(p)
             else p]
        && event == (if code < 0 || !wantsEvent then NoEvent
                     else if p.state == AcknowledgingConnect then ConnectEvent(k)
                     else if p.state == Disconnecting then DisconnectEvent(k)
                     else NoEvent)
      ensures Without(dispatchQueue, k) == Without(old(dispatchQueue), k)
      ensures recalculate == (old(recalculate) || (old(peers)[k].state == AcknowledgingConnect && verified)
        || (old(peers)[k].state == Disconnecting && disconnect))
    {
      hide ConnectedCount, LimitedCount, QueueOk, Without;
      event := NoEvent;
      code := 0;
      match peers[k].state {
        case AcknowledgingConnect =>
          if !verified {
            return -1, event;
          }
          event := NotifyConnect(k, wantsEvent);
        case Disconnecting =>
          if !disconnect {
            return -1, event;
          }
          event := NotifyDisconnect(k, wantsEvent);
        case DisconnectLater =>
          if idle {
            Disconnect(k);
          }
        case _ =>
      }
    }

    /** The end of enet_peer_dispatch_incoming_reliable_commands: n packets, complete and in
        order, wait for the user, and the peer needs dispatch. */
    method DispatchPackets(k: nat, n: nat)
      requires Valid() && k < |peers|
      modifies this`peers, this`dispatchQueue
      ensures Valid()
      ensures peers == if n == 0 then old(peers)
                       else old(peers)[k := old(peers)[k].(waiting := old(peers)[k].waiting + n, needsDispatch := true)]
      ensures dispatchQueue == old(dispatchQueue) + if n == 0 || old(peers)[k].needsDispatch then [] else [k]
    {
      hide ConnectedCount, LimitedCount, QueueOk, Without;
      assert dispatchQueue + [] == dispatchQueue;
      if n == 0 {
        return;
      }
      var p := peers[k].(waiting := peers[k].waiting + n);
      CountsChange(peers, k, p);
      QueueSame(dispatchQueue, peers, k, p);
      peers := peers[k := p];
      QueueDispatch(k);
    }

    /** enet_protocol_dispatch_incoming_commands: peers are taken from the front of the queue
        until one has an event to report; a peer with more packets goes to its end. */
    method DispatchIncoming() returns (event: Event, ghost i: nat)
      requires Valid()
      modifies this
      ensures Valid() && FirstEvent(old(dispatchQueue), old(peers), i)
      ensures forall m :: 0 <= m < i ==>
        var p := old(peers)[old(dispatchQueue)[m]];
        p.state !in {ConnectionPending, ConnectionSucceeded, Zombie} && (p.state == Connected ==> p.waiting == 0)
      ensures i < |old(dispatchQueue)| ==>
        var k := old(dispatchQueue)[i];
        k < |peers| && Reports(k, old(peers)[k], event, peers[k])
      ensures i == |old(dispatchQueue)| ==>
        event == NoEvent && dispatchQueue == [] && PassedOver(old(peers), peers, old(dispatchQueue), i)
      ensures i < |old(dispatchQueue)| ==>
        var k := old(dispatchQueue)[i];
        var p := old(peers)[k];
        && event == EventOf(k, p) && k < |peers| && peers[k] == Reported(p)
        && PassedOver(old(peers), peers[k := p], old(dispatchQueue), i)
        && dispatchQueue == old(dispatchQueue)[i + 1..] + (if Reported(p).needsDispatch then [k] else [])
        && recalculate == (old(recalculate) || p.state == Zombie)
    {
      hide ConnectedCount, LimitedCount, HasEvent, EventOf, Reported, QueueOk, Distinct, PassedOver, FirstEvent,
        Reports;
      ghost var queue, was := dispatchQueue, peers;
      QueueNames(queue, was);
      FirstAtLeast(queue, was);
      i := 0;
      while |dispatchQueue| > 0
        invariant i <= |queue| && Valid() && dispatchQueue == queue[i..] && recalculate == old(recalculate)
        invariant NoneBefore(queue, was, i) && PassedOver(was, peers, queue, i)
        decreases |dispatchQueue|
      {
        var k := dispatchQueue[0];
        NotEarlier(queue, i);
        PassedAt(was, peers, queue, i, k);
        label Before:
        TakeFirst();
        label Taken:
        assert peers[k := was[k]] == old@Before(peers);
        PassedNext(was, peers, queue, i);
        FlagApart(was[k]);
        assert queue[i..][1..] == queue[i + 1..] && queue[i + 1..] + [] == queue[i + 1..];
        event := Report(k);
        if event != NoEvent {
          FirstFound(queue, was, i);
          NoneIs(queue, was, i);
          ReportsIs(k, was[k]);
          Restored(was, old@Taken(peers), peers, queue, i);
          return event, i;
        }
        NoneNext(queue, was, i);
        i := i + 1;
      }
      FirstNone(queue, was);
      NoneIs(queue, was, i);
      return NoEvent, i;
    }

    /** What the switch of that loop does with a peer just taken from the queue. */
    method Report(k: nat) returns (event: Event)
      requires Valid() && k < |peers| && k !in dispatchQueue && !peers[k].needsDispatch
      modifies this
      ensures Valid() && |peers| == |old(peers)| && (event != NoEvent ==> Reports(k, old(peers)[k], event, peers[k]))
      ensures var p := old(peers)[k];
        && event == (if HasEvent(p) then EventOf(k, p) else NoEvent)
        && peers == (if HasEvent(p) then old(peers)[k := Reported(p)] else old(peers))
        && dispatchQueue == old(dispatchQueue) + (if HasEvent(p) && Reported(p).needsDispatch then [k] else [])
        && recalculate == (old(recalculate) || p.state == Zombie)
    {
      hide ConnectedCount, LimitedCount, QueueOk, Without;
      if HasEvent(peers[k]) {
        ReportsIs(k, peers[k]);
      }
      assert dispatchQueue + [] == dispatchQueue;
      match peers[k].state {
        case ConnectionPending =>
          ChangeState(k, Connected);
          return ConnectEvent(k);
        case ConnectionSucceeded =>
          ChangeState(k, Connected);
          return ConnectEvent(k);
        case Zombie =>
          recalculate := true;
          WithoutAbsent(dispatchQueue, k);
          Reset(k);
          return DisconnectEvent(k);
        case Connected =>
          if peers[k].waiting == 0 {
            return NoEvent;
          }
          var p := peers[k].(waiting := peers[k].waiting - 1);
          CountsChange(peers, k, p);
          QueueSame(dispatchQueue, peers, k, p);
          peers := peers[k := p];
          if peers[k].waiting > 0 {
            QueueDispatch(k);
          }
          return ReceiveEvent(k);
        case _ =>
          return NoEvent;
      }
    }

    /** The first peer leaves the dispatch queue. */
    method TakeFirst()
      requires Valid() && dispatchQueue != []
      modifies this`peers, this`dispatchQueue
      ensures Valid() && old(dispatchQueue)[0] < |old(peers)| && dispatchQueue == old(dispatchQueue)[1..]
      ensures peers == old(peers)[old(dispatchQueue)[0] := old(peers)[old(dispatchQueue)[0]].(needsDispatch := false)]
      ensures old(dispatchQueue)[0] !in dispatchQueue
    {
      var k := dispatchQueue[0];
      var p := peers[k].(needsDispatch := false);
      CountsChange(peers, k, p);
      QueueTail(dispatchQueue, peers, p);
      dispatchQueue := dispatchQueue[1..];
      peers := peers[k := p];
    }
  }

  lemma QueueNames(queue: seq<nat>, peers: seq<Peer>)
    requires QueueOk(queue, peers)
    ensures forall m :: 0 <= m < |queue| ==> queue[m] < |peers|
    ensures Distinct(queue) && PassedOver(peers, peers, queue, 0)
  {
  }

  /** None of the first i in the queue has an event. */
  ghost predicate NoneBefore(queue: seq<nat>, peers: seq<Peer>, i: nat)
  {
    && i <= |queue| && (forall m :: 0 <= m < |queue| ==> queue[m] < |peers|)
    && forall m :: 0 <= m < i ==> !HasEvent(peers[queue[m]])
  }

  lemma FirstAtLeast(queue: seq<nat>, peers: seq<Peer>)
    requires forall m :: 0 <= m < |queue| ==> queue[m] < |peers|
    ensures NoneBefore(queue, peers, 0)
  {
  }

  lemma NoneNext(queue: seq<nat>, peers: seq<Peer>, i: nat)
    requires NoneBefore(queue, peers, i) && i < |queue| && !HasEvent(peers[queue[i]])
    ensures NoneBefore(queue, peers, i + 1)
  {
    hide HasEvent;
  }

  lemma FirstFound(queue: seq<nat>, peers: seq<Peer>, i: nat)
    requires NoneBefore(queue, peers, i) && i < |queue| && HasEvent(peers[queue[i]])
    ensures FirstEvent(queue, peers, i)
  {
    hide HasEvent;
  }

  lemma NoneIs(queue: seq<nat>, peers: seq<Peer>, i: nat)
    requires NoneBefore(queue, peers, i)
    ensures forall m :: 0 <= m < i ==>
      var p := peers[queue[m]];
      p.state !in {ConnectionPending, ConnectionSucceeded, Zombie} && (p.state == Connected ==> p.waiting == 0)
  {
  }

  lemma FirstNone(queue: seq<nat>, peers: seq<Peer>)
    requires NoneBefore(queue, peers, |queue|)
    ensures FirstEvent(queue, peers, |queue|)
  {
    hide HasEvent;
  }

  /** Whether a peer needs dispatch bears on no event. */
  lemma FlagApart(p: Peer)
    ensures var q := p.(needsDispatch := false);
      && HasEvent(q) == HasEvent(p) && q.state == p.state && (p.state == Zombie ==> HasEvent(p))
      && (HasEvent(p) ==> forall k: nat :: EventOf(k, q) == EventOf(k, p) && EventOf(k, p) != NoEvent)
      && (HasEvent(p) ==> Reported(q) == Reported(p))
  {
  }

  lemma PassedAt(before: seq<Peer>, after: seq<Peer>, queue: seq<nat>, i: nat, k: nat)
    requires i <= |queue| && PassedOver(before, after, queue, i) && k < |before| && k !in queue[..i]
    ensures |after| == |before| && after[k] == before[k] && after[k := before[k]] == after
  {
  }

  /** The peer whose event was reported apart, the others were passed over or left alone. */
  lemma Restored(before: seq<Peer>, taken: seq<Peer>, after: seq<Peer>, queue: seq<nat>, i: nat)
    requires i < |queue| && queue[i] < |before| == |taken| == |after| && queue[i] !in queue[..i]
    requires PassedOver(before, taken, queue, i + 1)
    requires after == taken[queue[i] := after[queue[i]]]
    ensures PassedOver(before, after[queue[i] := before[queue[i]]], queue, i)
  {
    assert queue[..i + 1] == queue[..i] + [queue[i]];
  }

  lemma NotEarlier(queue: seq<nat>, i: nat)
    requires Distinct(queue) && i < |queue|
    ensures queue[i] !in queue[..i]
  {
  }

  /** One more peer was taken from the queue. */
  lemma PassedNext(before: seq<Peer>, after: seq<Peer>, queue: seq<nat>, i: nat)
    requires i < |queue| && queue[i] < |before| && queue[i] !in queue[..i] && |after| == |before|
    requires PassedOver(before, after[queue[i] := before[queue[i]]], queue, i)
    requires after[queue[i]] == before[queue[i]].(needsDispatch := false)
    ensures PassedOver(before, after, queue, i + 1)
  {
    assert queue[..i + 1] == queue[..i] + [queue[i]];
  }

  lemma {:induction false} WithoutAbsent(queue: seq<nat>, k: nat)
    requires k !in queue
    ensures Without(queue, k) == queue
    decreases |queue|
  {
    if queue != [] {
      WithoutAbsent(queue[1..], k);
    }
  }

  lemma QueueTail(queue: seq<nat>, peers: seq<Peer>, p: Peer)
    requires QueueOk(queue, peers) && queue != [] && !p.needsDispatch
    ensures queue[0] < |peers| && QueueOk(queue[1..], peers[queue[0] := p]) && queue[0] !in queue[1..]
  {
  }
}
