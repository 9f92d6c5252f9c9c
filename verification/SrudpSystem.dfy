/** A client and a server of pytoxsh/srudp.py over a network that keeps every packet ever sent
    and may lose, repeat and reorder deliveries, but forges nothing. */
module SrudpSystem {
  import opened SrudpSpec

  /** An endpoint, the data packets it made, the packets its user read, and everything it put
      on the network. */
  datatype Side = Side(e: Endpoint, made: seq<Packet>, got: seq<Packet>, out: set<Packet>)

  datatype System = System(c: Side, s: Side)

  datatype Step =
    | Dial(isn: int)
    | Deliver(p: Packet, isn: int)
    | Arrange
    | Submit(data: string)
    | Push
    | Read

  function Sent(x: Side, r: Outcome): (x': Side)
  {
    x.(e := r.e, out := x.out + set p | p in r.sends)
  }

  /** Side x takes a step; only the client dials, once. */
  ghost predicate Takes(x: Side, y: Side, client: bool, step: Step, x': Side)
  {
    match step
    case Dial(isn) => client && x.e.state == INIT && isn > 0 && x' == Sent(x, Connect(x.e, isn))
    case Deliver(p, isn) => p in y.out && isn > 0 && x' == Sent(x, Receive(x.e, p, isn))
    case Arrange => x.e.state == ESTAB && x' == x.(e := OnRecvData(x.e))
    case Submit(data) =>
      && x.e.state != INIT
      && x' == Sent(x, SrudpSpec.Send(x.e, data)).(made := if Accepts(x.e) then x.made + [DataPacket(x.e, data)]
         else x.made)
    case Push => x' == Sent(x, Flush(x.e))
    case Read =>
      x' == if x.e.rcvwins == map[] then x else x.(e := AfterRead(x.e), got := x.got + [Readable(x.e)])
  }

  ghost predicate Next(t: System, t': System)
  {
    || (t'.s == t.s && exists step :: Takes(t.c, t.s, true, step, t'.c))
    || (t'.c == t.c && exists step :: Takes(t.s, t.c, false, step, t'.s))
  }

  ghost predicate Runs(states: seq<System>)
  {
    && states != []
    && states[0] == System(Side(Fresh(SERVER), [], [], {}), Side(Fresh(SERVER), [], [], {}))
    && forall i :: 0 < i < |states| ==> Next(states[i - 1], states[i])
  }

  // ---------- The invariant ----------

  /** The handshake: what each state and each packet on the network says about the other side. */
  ghost predicate Shaken(c: Side, s: Side)
  {
    && (c.e.mode == CLIENT <==> c.e.state != INIT) && s.e.mode == SERVER
    && c.e.state in {INIT, SYN_SENT, ESTAB} && s.e.state in {INIT, SYN_RCVD, ESTAB}
    && (c.e.state == INIT ==> c.out == {}) && (s.e.state == INIT ==> s.out == {})
    && (c.e.state != INIT ==> c.e.selfisn > 0) && (s.e.state != INIT ==> s.e.selfisn > 0)
    && (forall p :: p in c.out ==> ClientPacket(c, p)) && (forall p :: p in s.out ==> ServerPacket(s, p))
    && (s.e.state != INIT ==> c.e.state != INIT && s.e.peerisn == c.e.selfisn && s.e.peerseq == s.e.peerisn + 2)
    && (c.e.state == ESTAB ==> s.e.state != INIT && c.e.peerisn == s.e.selfisn && c.e.peerseq == c.e.peerisn + 2)
    && (s.e.state == ESTAB ==> c.e.state == ESTAB)
  }

  ghost predicate ClientPacket(c: Side, p: Packet)
  {
    && p.kind != SYN2 && (p.kind == SYN ==> p.sn == c.e.selfisn)
    && (p.kind == SYN_ACK ==> c.e.state == ESTAB && p.sn == c.e.selfisn + 1 && p.ack == c.e.peerisn + 1)
  }

  ghost predicate ServerPacket(s: Side, p: Packet)
  {
    && p.kind in {SYN2, DATA, DATA_ACK} && (p.kind == SYN2 ==> p.sn == s.e.selfisn && p.ack == s.e.peerisn + 1)
  }

  function Base(x: Side): (k: int)
  {
    x.e.selfisn + 2
  }

  /** Packet number k of x's data. */
  ghost predicate Made(x: Side, p: Packet)
  {
    Base(x) <= p.sn < Base(x) + |x.made| && p == x.made[p.sn - Base(x)]
  }

  ghost predicate Holds(x: Side, m: map<int, Packet>)
  {
    forall k :: k in m ==> m[k].sn == k && Made(x, m[k])
  }

  /** The sender's buffers: window before buffer, at most 208 in the window. */
  ghost predicate Buffers(x: Side)
  {
    && Holds(x, x.e.sndpkts) && Holds(x, x.e.sndwins) && |x.e.sndwins| <= WIN_SIZE
    && forall a, b :: a in x.e.sndwins && b in x.e.sndpkts ==> a < b
  }

  ghost predicate Numbering(x: Side)
  {
    && (x.e.state == INIT ==> x.made == [] && x.e.sndpkts == map[] && x.e.sndwins == map[])
    && (x.e.state != INIT ==> x.e.selfseq == Base(x) + |x.made|)
    && (forall i :: 0 <= i < |x.made| ==> x.made[i].kind == DATA && x.made[i].sn == Base(x) + i)
    && (forall p :: p in x.out && p.kind == DATA ==> Made(x, p))
  }

  ghost predicate Received(y: Side, k: int)
  {
    k in y.e.rcvpkts || (y.e.rcvseq != 0 && k < y.e.rcvseq)
  }

  /** What y has of x's data: the packets read, the readable ones that follow them, and others. */
  ghost predicate Reading(x: Side, y: Side)
  {
    && (y.e.state != ESTAB ==> y.e.rcvpkts == map[] && y.e.rcvseq == 0)
    && (y.e.state == ESTAB ==> x.e.state != INIT && x.e.selfisn > 0 && y.e.peerseq == Base(x))
    && Holds(x, y.e.rcvpkts) && Holds(x, y.e.rcvwins)
    && (y.e.rcvseq == 0 ==> y.e.rcvwins == map[] && y.got == [])
    && (y.e.rcvseq != 0 ==>
          && Base(x) + |y.got| <= y.e.rcvseq <= Base(x) + |x.made|
          && forall k :: k in y.e.rcvwins <==> Base(x) + |y.got| <= k < y.e.rcvseq)
    && |y.got| <= |x.made| && y.got == x.made[..|y.got|]
  }

  ghost predicate Acked(x: Side, y: Side)
  {
    && (forall p :: p in y.out && p.kind == DATA_ACK ==> Received(y, p.sn))
    && (forall k :: Base(x) <= k < Base(x) + |x.made| ==> k in x.e.sndpkts || k in x.e.sndwins || Received(y, k))
  }

  ghost predicate Towards(x: Side, y: Side)
  {
    Buffers(x) && Numbering(x) && Reading(x, y) && Acked(x, y)
  }

  ghost predicate Good(t: System)
  {
    Shaken(t.c, t.s) && Towards(t.c, t.s) && Towards(t.s, t.c)
  }

  // ---------- Flush ----------

  /** Flushing keeps the buffers in order and within the window, loses nothing, and sends only
      packets that were made. */
  lemma {:induction false} FlushKeeps(x: Side)
    requires Buffers(x)
    ensures var r := Flush(x.e);
      && r.e == x.e.(sndpkts := r.e.sndpkts, sndwins := r.e.sndwins)
      && Buffers(x.(e := r.e))
      && (forall k :: k in r.e.sndpkts || k in r.e.sndwins <==> k in x.e.sndpkts || k in x.e.sndwins)
      && (forall p :: p in r.sends ==> Made(x, p))
    decreases |x.e.sndpkts|
  {
    hide Made;
    if |x.e.sndwins| < WIN_SIZE && x.e.sndpkts != map[] {
      NonEmpty(x.e.sndpkts);
      var k := MinKey(x.e.sndpkts.Keys);
      var e1 := x.e.(sndwins := x.e.sndwins[k := x.e.sndpkts[k]], sndpkts := x.e.sndpkts - {k});
      Shrinks(x.e.sndpkts, k);
      assert k !in x.e.sndwins;
      Grows(x.e.sndwins, k, x.e.sndpkts[k]);
      var x1 := x.(e := e1);
      MadeSame(x, x1);
      assert Buffers(x1);
      FlushKeeps(x1);
      MadeSame(x1, x1.(e := Flush(e1).e));
    }
  }

  /** Being made depends only on the initial number and the packets made. */
  lemma MadeSame(x: Side, x': Side)
    requires x'.e.selfisn == x.e.selfisn && x'.made == x.made
    ensures forall p :: Made(x', p) <==> Made(x, p)
  {
  }

  // ---------- What a step leaves alone ----------

  ghost predicate Handshake(x: Side, y: Side, client: bool)
  {
    if client then Shaken(x, y) else Shaken(y, x)
  }

  /** Data and acknowledgements do not touch the handshake. */
  lemma HandshakeSame(x: Side, y: Side, client: bool, x': Side)
    requires Handshake(x, y, client)
    requires x'.e.mode == x.e.mode && x'.e.state == x.e.state && x'.e.selfisn == x.e.selfisn
    requires x'.e.peerisn == x.e.peerisn && x'.e.peerseq == x.e.peerseq
    requires forall p :: p in x'.out ==> p in x.out || (p.kind in {DATA, DATA_ACK} && x.e.state != INIT)
    ensures Handshake(x', y, client)
  {
  }

  lemma ReceiverSame(y: Side, x: Side, x': Side)
    requires Towards(y, x)
    requires x'.e.rcvpkts == x.e.rcvpkts && x'.e.rcvwins == x.e.rcvwins && x'.e.rcvseq == x.e.rcvseq
    requires x'.e.state == x.e.state && x'.e.peerseq == x.e.peerseq && x'.got == x.got
    requires forall p :: p in x'.out && p.kind == DATA_ACK ==> p in x.out
    ensures Towards(y, x')
  {
    hide Made, Holds;
  }

  lemma SenderSame(x: Side, y: Side, x': Side)
    requires Towards(x, y)
    requires x'.e.sndpkts == x.e.sndpkts && x'.e.sndwins == x.e.sndwins && x'.e.selfisn == x.e.selfisn
    requires x'.e.selfseq == x.e.selfseq && x'.made == x.made && (x'.e.state == INIT <==> x.e.state == INIT)
    requires forall p :: p in x'.out && p.kind == DATA ==> p in x.out
    ensures Towards(x', y)
  {
    hide Made;
    MadeSame(x, x');
  }

  // ---------- Sending ----------

  lemma MadeIsData(x: Side, p: Packet)
    requires Numbering(x) && Made(x, p)
    ensures p.kind == DATA && x.e.state != INIT
  {
  }

  /** A flush of x, whose buffers may already hold more than y knows. */
  lemma FlushTowards(x: Side, y: Side)
    requires Towards(x, y)
    ensures Towards(Sent(x, Flush(x.e)), y)
    ensures forall p :: p in Flush(x.e).sends ==> p.kind == DATA && x.e.state != INIT
  {
    hide Made, Holds, Flush, Received;
    FlushKeeps(x);
    var r := Flush(x.e);
    var x' := Sent(x, r);
    MadeSame(x, x');
    MadeSame(x, x.(e := r.e));
    MadeSame(x.(e := r.e), x');
    forall p | p in r.sends
      ensures p.kind == DATA && x.e.state != INIT
    {
      MadeIsData(x, p);
    }
    HoldsSame(x.(e := r.e), x', r.e.sndpkts);
    HoldsSame(x.(e := r.e), x', r.e.sndwins);
    HoldsSame(x, x', y.e.rcvpkts);
    HoldsSame(x, x', y.e.rcvwins);
    if x.e.state == INIT {
      FlushNothing(x.e);
    }
  }

  lemma FlushNothing(e: Endpoint)
    requires e.sndpkts == map[]
    ensures Flush(e) == Outcome(e, [])
  {
  }

  lemma HoldsSame(x: Side, x': Side, m: map<int, Packet>)
    requires Holds(x, m) && x'.e.selfisn == x.e.selfisn && x'.made == x.made
    ensures Holds(x', m)
  {
    MadeSame(x, x');
  }

  lemma PushKeeps(x: Side, y: Side, client: bool)
    requires Handshake(x, y, client) && Towards(x, y) && Towards(y, x)
    ensures var x' := Sent(x, Flush(x.e));
      Handshake(x', y, client) && Towards(x', y) && Towards(y, x')
  {
    hide Handshake, Towards, Flush;
    FlushTowards(x, y);
    FlushFields(x, y);
    HandshakeSame(x, y, client, Sent(x, Flush(x.e)));
    ReceiverSame(y, x, Sent(x, Flush(x.e)));
  }

  lemma FlushFields(x: Side, y: Side)
    requires Towards(x, y)
    ensures var e := Flush(x.e).e;
      e == x.e.(sndpkts := e.sndpkts, sndwins := e.sndwins)
  {
    FlushKeeps(x);
  }

  /** A packet made and put in the buffer. */
  lemma BufferTowards(x: Side, y: Side, data: string)
    requires Towards(x, y) && x.e.state != INIT && Accepts(x.e)
    ensures Towards(x.(e := Buffered(x.e, data), made := x.made + [DataPacket(x.e, data)]), y)
  {
    var p := DataPacket(x.e, data);
    var x' := x.(e := Buffered(x.e, data), made := x.made + [p]);
    assert forall i :: 0 <= i < |x.made| ==> x'.made[i] == x.made[i];
    assert x'.made[|x.made|] == p;
    MadeMore(x, x', p);
    BuffersMore(x, x', p);
    assert x'.made[..|y.got|] == x.made[..|y.got|];
  }

  lemma MadeMore(x: Side, x': Side, p: Packet)
    requires x'.e.selfisn == x.e.selfisn && x'.made == x.made + [p]
    ensures forall q :: Made(x, q) ==> Made(x', q)
    ensures p.sn == Base(x) + |x.made| ==> Made(x', p)
  {
  }

  lemma BuffersMore(x: Side, x': Side, p: Packet)
    requires Buffers(x) && x'.e.selfisn == x.e.selfisn && x'.made == x.made + [p] && p.sn == Base(x) + |x.made|
    requires x'.e.sndpkts == x.e.sndpkts[p.sn := p] && x'.e.sndwins == x.e.sndwins
    ensures Buffers(x')
  {
    MadeMore(x, x', p);
  }

  lemma SubmitKeeps(x: Side, y: Side, client: bool, data: string, x': Side)
    requires Handshake(x, y, client) && Towards(x, y) && Towards(y, x) && Takes(x, y, client, Submit(data), x')
    ensures Handshake(x', y, client) && Towards(x', y) && Towards(y, x')
  {
    hide Handshake, Towards, Flush;
    var x1 := x.(e := Buffered(x.e, data), made := if Accepts(x.e) then x.made + [DataPacket(x.e, data)] else x.made);
    if Accepts(x.e) {
      BufferTowards(x, y, data);
      HandshakeSame(x, y, client, x1);
      ReceiverSame(y, x, x1);
    } else {
      assert x1 == x;
    }
    var none: set<Packet> := set p | p in [];
    assert none == {};
    if 3 * |x1.e.sndpkts| >= BUF_SIZE || |x1.e.sndwins| < BUF_SIZE {
      PushKeeps(x1, y, client);
      assert x' == Sent(x1, Flush(x1.e));
    } else {
      assert x' == x1;
    }
  }

  // ---------- Receiving ----------

  lemma DataKeeps(x: Side, y: Side, client: bool, p: Packet)
    requires Handshake(x, y, client) && Towards(x, y) && Towards(y, x)
    requires x.e.state == ESTAB && p in y.out && p.kind == DATA
    ensures var x' := Sent(x, TakeData(x.e, p));
      Handshake(x', y, client) && Towards(x', y) && Towards(y, x')
  {
    hide Handshake;
    var x' := Sent(x, TakeData(x.e, p));
    HandshakeSame(x, y, client, x');
    SenderSame(x, y, x');
    DataArrives(y, x, p);
  }

  /** x takes in a data packet of y and acknowledges it. */
  lemma DataArrives(y: Side, x: Side, p: Packet)
    requires Towards(y, x) && x.e.state == ESTAB && p in y.out && p.kind == DATA
    ensures Towards(y, Sent(x, TakeData(x.e, p)))
  {
    hide Made;
    var x' := Sent(x, TakeData(x.e, p));
    assert Made(y, p);
    forall q | q in x'.out && q.kind == DATA_ACK
      ensures Received(x', q.sn)
    {
      assert q in x.out || q.sn == p.sn;
    }
  }

  lemma AckKeeps(x: Side, y: Side, client: bool, p: Packet)
    requires Handshake(x, y, client) && Towards(x, y) && Towards(y, x)
    requires p in y.out && p.kind == DATA_ACK
    ensures var x' := Sent(x, TakeAck(x.e, p));
      Handshake(x', y, client) && Towards(x', y) && Towards(y, x')
  {
    hide Handshake, Towards, Flush;
    var x1 := x.(e := x.e.(sndwins := x.e.sndwins - {p.sn}));
    AckTowards(x, y, p);
    HandshakeSame(x, y, client, x1);
    ReceiverSame(y, x, x1);
    PushKeeps(x1, y, client);
  }

  lemma HoldsLess(x: Side, x': Side, m: map<int, Packet>, k: int)
    requires Holds(x, m) && x'.e.selfisn == x.e.selfisn && x'.made == x.made
    ensures Holds(x', m - {k})
  {
    MadeSame(x, x');
  }

  lemma AckTowards(x: Side, y: Side, p: Packet)
    requires Towards(x, y) && p in y.out && p.kind == DATA_ACK
    ensures Towards(x.(e := x.e.(sndwins := x.e.sndwins - {p.sn})), y)
  {
    hide Made, Holds;
    var x' := x.(e := x.e.(sndwins := x.e.sndwins - {p.sn}));
    HoldsLess(x, x', x.e.sndwins, p.sn);
    HoldsSame(x, x', x.e.sndpkts);
    HoldsSame(x, x', y.e.rcvpkts);
    HoldsSame(x, x', y.e.rcvwins);
    MadeSame(x, x');
    assert Received(y, p.sn);
    if p.sn in x.e.sndwins {
      Shrinks(x.e.sndwins, p.sn);
    } else {
      assert x.e.sndwins - {p.sn} == x.e.sndwins;
    }
  }

  /** The client is answered. */
  lemma AnswerKeeps(c: Side, s: Side, p: Packet)
    requires Shaken(c, s) && Towards(c, s) && Towards(s, c)
    requires c.e.state == SYN_SENT && p in s.out && p.kind == SYN2 && p.ack == c.e.selfisn + 1 && p.sn > 0
    ensures var c' := Sent(c, Receive(c.e, p, 1));
      Shaken(c', s) && Towards(c', s) && Towards(s, c')
  {
    hide Made;
    var c' := Sent(c, Receive(c.e, p, 1));
    assert ServerPacket(s, p);
    forall q | q in c'.out
      ensures ClientPacket(c', q)
    {
      assert q in c.out ==> ClientPacket(c, q);
    }
    SenderSame(c, s, c');
    MadeSame(c, c');
  }

  /** The server is called. */
  lemma CallKeeps(s: Side, c: Side, p: Packet, isn: int)
    requires Shaken(c, s) && Towards(c, s) && Towards(s, c)
    requires s.e.state == INIT && p in c.out && p.kind == SYN && p.sn > 0 && isn > 0
    ensures var s' := Sent(s, Receive(s.e, p, isn));
      Shaken(c, s') && Towards(c, s') && Towards(s', c)
  {
    hide Made;
    assert ClientPacket(c, p);
    var s' := Sent(s, Receive(s.e, p, isn));
    assert s'.out == {Packet(SYN2, isn, p.sn + 1, "")};
    assert c.e.rcvwins == map[];
    ReceiverSilent(c, s, s');
  }

  lemma ReceiverSilent(c: Side, s: Side, s': Side)
    requires Towards(c, s) && s.e.state != ESTAB && s'.e.state != ESTAB
    requires s'.e.rcvpkts == s.e.rcvpkts && s'.e.rcvwins == s.e.rcvwins && s'.e.rcvseq == s.e.rcvseq && s'.got == s.got
    requires forall q :: q in s'.out && q.kind == DATA_ACK ==> q in s.out
    ensures Towards(c, s')
  {
    hide Made, Holds;
  }

  /** The server's call is confirmed. */
  lemma ConfirmKeeps(s: Side, c: Side, p: Packet)
    requires Shaken(c, s) && Towards(c, s) && Towards(s, c)
    requires s.e.state == SYN_RCVD && p in c.out && p.kind == SYN_ACK
    ensures var s' := s.(e := s.e.(state := ESTAB));
      Shaken(c, s') && Towards(c, s') && Towards(s', c)
  {
    hide Made;
    assert ClientPacket(c, p);
    var s' := s.(e := s.e.(state := ESTAB));
    forall q | q in s'.out
      ensures ServerPacket(s', q)
    {
      assert ServerPacket(s, q);
    }
    SenderSame(s, c, s');
  }

  lemma DeliverKeeps(x: Side, y: Side, client: bool, p: Packet, isn: int, x': Side)
    requires Handshake(x, y, client) && Towards(x, y) && Towards(y, x) && Takes(x, y, client, Deliver(p, isn), x')
    ensures Handshake(x', y, client) && Towards(x', y) && Towards(y, x')
  {
    hide Towards, TakeAck, TakeData, ClientPacket, ServerPacket;
    var none: set<Packet> := set q | q in [];
    assert none == {};
    if x.e.state == ESTAB && p.kind == DATA {
      DataKeeps(x, y, client, p);
    } else if x.e.state == ESTAB && p.kind == DATA_ACK {
      AckKeeps(x, y, client, p);
    } else if client && x.e.state == SYN_SENT && p.kind == SYN2 && p.ack == x.e.selfisn + 1 && p.sn > 0 {
      AnswerKeeps(x, y, p);
    } else if !client && x.e.state == INIT && p.kind == SYN && p.sn > 0 {
      CallKeeps(x, y, p, isn);
    } else if !client && x.e.state == SYN_RCVD && p.kind == SYN_ACK && p.ack == x.e.selfisn + 1
      && p.sn == x.e.peerisn + 1 {
      ConfirmKeeps(x, y, p);
      assert x' == x.(e := x.e.(state := ESTAB));
    } else {
      Ignored(x, y, client, p, isn);
      assert x' == x;
    }
  }

  lemma Ignored(x: Side, y: Side, client: bool, p: Packet, isn: int)
    requires Handshake(x, y, client) && p in y.out
    requires !(x.e.state == ESTAB && p.kind in {DATA, DATA_ACK})
    requires !(client && x.e.state == SYN_SENT && p.kind == SYN2 && p.ack == x.e.selfisn + 1 && p.sn > 0)
    requires !(!client && x.e.state == INIT && p.kind == SYN && p.sn > 0)
    requires !(!client && x.e.state == SYN_RCVD && p.kind == SYN_ACK && p.ack == x.e.selfisn + 1
      && p.sn == x.e.peerisn + 1)
    ensures Receive(x.e, p, isn) == Outcome(x.e, [])
  {
    if client {
      assert ServerPacket(y, p);
    }
  }

  // ---------- Reading ----------

  /** What becomes readable continues what was read, and ends where the numbering goes on. */
  lemma ArrangeKeeps(y: Side, x: Side)
    requires Towards(y, x) && x.e.state == ESTAB
    ensures Towards(y, x.(e := OnRecvData(x.e)))
  {
    hide Towards, Started, Run, Moved;
    StartedTowards(y, x);
    var x1 := x.(e := Started(x.e));
    var n := Run(x1.e.rcvpkts, x1.e.maxrcvseq, x1.e.rcvseq, BATCH);
    if n > 0 {
      var wins := Moved(x1.e.rcvpkts, x1.e.rcvwins, x1.e.rcvseq, n);
      MovedIs(x1.e.rcvpkts, x1.e.rcvwins, x1.e.rcvseq, n);
      assert x1.e.rcvseq in wins.Keys;
      RunMoves(y, x1, n);
    }
  }

  lemma RunMoves(y: Side, x: Side, n: nat)
    requires Towards(y, x) && x.e.state == ESTAB && x.e.rcvseq != 0 && n > 0
    requires forall i :: x.e.rcvseq <= i < x.e.rcvseq + n ==> i in x.e.rcvpkts
    ensures var wins := Moved(x.e.rcvpkts, x.e.rcvwins, x.e.rcvseq, n);
      && wins.Keys != {}
      && Towards(y, x.(e := x.e.(rcvwins := wins, rcvpkts := x.e.rcvpkts - Span(x.e.rcvseq, n),
         rcvseq := MaxKey(wins.Keys) + 1)))
  {
    hide Made, Moved, Span, Holds, Numbering, Buffers;
    var wins := Moved(x.e.rcvpkts, x.e.rcvwins, x.e.rcvseq, n);
    MovedIs(x.e.rcvpkts, x.e.rcvwins, x.e.rcvseq, n);
    TopIsLast(y, x, n);
    var x' := x.(e := x.e.(rcvwins := wins, rcvpkts := x.e.rcvpkts - Span(x.e.rcvseq, n), rcvseq := x.e.rcvseq + n));
    MovedHolds(y, x, n);
    forall k | Received(x, k)
      ensures Received(x', k)
    {
    }
  }

  lemma TopIsLast(y: Side, x: Side, n: nat)
    requires Towards(y, x) && x.e.rcvseq != 0 && n > 0
    requires forall i :: x.e.rcvseq <= i < x.e.rcvseq + n ==> i in x.e.rcvpkts
    ensures var wins := Moved(x.e.rcvpkts, x.e.rcvwins, x.e.rcvseq, n);
      wins.Keys != {} && MaxKey(wins.Keys) == x.e.rcvseq + n - 1 && x.e.rcvseq + n <= Base(y) + |y.made|
  {
    hide Made, Numbering, Buffers, Acked;
    var wins := Moved(x.e.rcvpkts, x.e.rcvwins, x.e.rcvseq, n);
    MovedIs(x.e.rcvpkts, x.e.rcvwins, x.e.rcvseq, n);
    var top := x.e.rcvseq + n - 1;
    assert top in x.e.rcvpkts && top in wins.Keys;
    MadeRange(y, x.e.rcvpkts[top]);
    assert IsMax(wins.Keys, top);
  }

  lemma MovedHolds(y: Side, x: Side, n: nat)
    requires Holds(y, x.e.rcvpkts) && Holds(y, x.e.rcvwins)
    requires forall i :: x.e.rcvseq <= i < x.e.rcvseq + n ==> i in x.e.rcvpkts
    ensures Holds(y, Moved(x.e.rcvpkts, x.e.rcvwins, x.e.rcvseq, n)) && Holds(y, x.e.rcvpkts - Span(x.e.rcvseq, n))
  {
    hide Made;
    MovedIs(x.e.rcvpkts, x.e.rcvwins, x.e.rcvseq, n);
  }

  lemma MadeRange(x: Side, p: Packet)
    requires Made(x, p)
    ensures Base(x) <= p.sn < Base(x) + |x.made|
  {
  }

  lemma StartedTowards(y: Side, x: Side)
    requires Towards(y, x) && x.e.state == ESTAB
    ensures Towards(y, x.(e := Started(x.e))) && Started(x.e).rcvseq != 0 && Started(x.e).state == x.e.state
  {
    hide Made, Holds;
    var x' := x.(e := Started(x.e));
    if x.e.rcvseq == 0 {
      forall k | Received(x, k)
        ensures Received(x', k)
      {
      }
    }
  }

  lemma ReadKeeps(y: Side, x: Side)
    requires Towards(y, x) && x.e.rcvwins != map[]
    ensures |x.got| < |y.made| && Readable(x.e) == y.made[|x.got|]
    ensures Towards(y, x.(e := AfterRead(x.e), got := x.got + [Readable(x.e)]))
  {
    hide Made;
    NonEmpty(x.e.rcvwins);
    var k := MinKey(x.e.rcvwins.Keys);
    assert k in x.e.rcvwins;
    assert Base(y) + |x.got| in x.e.rcvwins.Keys;
    assert k == Base(y) + |x.got|;
    MadeAt(y, x.e.rcvwins[k]);
    var x' := x.(e := AfterRead(x.e), got := x.got + [Readable(x.e)]);
    Shrinks(x.e.rcvwins, k);
    assert y.made[..|x.got| + 1] == y.made[..|x.got|] + [y.made[|x.got|]];
  }

  lemma MadeAt(x: Side, p: Packet)
    requires Made(x, p)
    ensures Base(x) <= p.sn < Base(x) + |x.made| && p == x.made[p.sn - Base(x)]
  {
  }

  // ---------- Whole runs ----------

  lemma DialKeeps(c: Side, s: Side, isn: int)
    requires Shaken(c, s) && Towards(c, s) && Towards(s, c) && c.e.state == INIT && isn > 0
    ensures var c' := Sent(c, Connect(c.e, isn));
      Shaken(c', s) && Towards(c', s) && Towards(s, c')
  {
    hide Made;
    var c' := Sent(c, Connect(c.e, isn));
    assert c'.out == {Packet(SYN, isn, 0, "")};
    assert s.e.state == INIT && s.e.rcvwins == map[];
    ReceiverSilent(s, c, c');
  }

  lemma TakesKeeps(x: Side, y: Side, client: bool, step: Step, x': Side)
    requires Handshake(x, y, client) && Towards(x, y) && Towards(y, x) && Takes(x, y, client, step, x')
    ensures Handshake(x', y, client) && Towards(x', y) && Towards(y, x')
  {
    hide Towards, Shaken, Receive, Flush, OnRecvData;
    match step
    case Dial(isn) => DialKeeps(x, y, isn);
    case Deliver(p, isn) => DeliverKeeps(x, y, client, p, isn, x');
    case Arrange =>
      ArrangeKeeps(y, x);
      ArrangeFields(x.e);
      SenderSame(x, y, x');
      HandshakeSame(x, y, client, x');
    case Submit(data) => SubmitKeeps(x, y, client, data, x');
    case Push => PushKeeps(x, y, client);
    case Read =>
      if x.e.rcvwins != map[] {
        ReadKeeps(y, x);
        SenderSame(x, y, x');
        HandshakeSame(x, y, client, x');
      }
  }

  lemma ArrangeFields(e: Endpoint)
    ensures var e' := OnRecvData(e);
      e' == e.(rcvpkts := e'.rcvpkts, rcvwins := e'.rcvwins, rcvseq := e'.rcvseq)
  {
  }

  lemma {:induction false} RunIsGood(states: seq<System>, k: nat)
    requires Runs(states) && k < |states|
    ensures Good(states[k])
    decreases k
  {
    hide Takes;
    if k > 0 {
      RunIsGood(states, k - 1);
      var t, t' := states[k - 1], states[k];
      assert Next(t, t');
      if t'.s == t.s && exists step :: Takes(t.c, t.s, true, step, t'.c) {
        var step :| Takes(t.c, t.s, true, step, t'.c);
        TakesKeeps(t.c, t.s, true, step, t'.c);
      } else {
        var step :| Takes(t.s, t.c, false, step, t'.s);
        TakesKeeps(t.s, t.c, false, step, t'.s);
      }
    }
  }

  /** An established server has a client that completed the handshake, and both know both
      initial numbers. */
  lemma EstablishedAgree(states: seq<System>, k: nat)
    requires Runs(states) && k < |states| && states[k].s.e.state == ESTAB
    ensures var c, s := states[k].c.e, states[k].s.e;
      c.state == ESTAB && c.mode == CLIENT && c.peerisn == s.selfisn && s.peerisn == c.selfisn
  {
    RunIsGood(states, k);
  }

  /** The packets a user read are a prefix of the data packets the other side made: each once,
      in order. */
  lemma ReadIsPrefix(states: seq<System>, k: nat)
    requires Runs(states) && k < |states|
    ensures states[k].s.got <= states[k].c.made && states[k].c.got <= states[k].s.made
  {
    RunIsGood(states, k);
  }

  /** The window never exceeds 208 packets and comes before what is still buffered. */
  lemma WindowBeforeBuffer(states: seq<System>, k: nat, a: int, b: int)
    requires Runs(states) && k < |states|
    ensures var e := states[k].c.e;
      |e.sndwins| <= WIN_SIZE && (a in e.sndwins && b in e.sndpkts ==> a < b)
    ensures var e := states[k].s.e;
      |e.sndwins| <= WIN_SIZE && (a in e.sndwins && b in e.sndpkts ==> a < b)
  {
    RunIsGood(states, k);
  }

  /** A data packet leaves the sender's buffers only when the other side has it. */
  lemma NothingIsLost(states: seq<System>, k: nat, i: nat)
    requires Runs(states) && k < |states| && i < |states[k].c.made|
    ensures var c, s, n := states[k].c, states[k].s, states[k].c.made[i].sn;
      n in c.e.sndpkts || n in c.e.sndwins || n in s.e.rcvpkts || n < s.e.rcvseq
  {
    RunIsGood(states, k);
  }

  // ---------- What is sent and what becomes readable ----------

  /** Everything in the window was put on the network, and maxrcvseq is as large as any number
      waiting. */
  ghost predicate Own(x: Side)
  {
    && (forall k :: k in x.e.sndwins ==> x.e.sndwins[k] in x.out)
    && (forall k :: k in x.e.rcvpkts ==> k <= x.e.maxrcvseq)
  }

  lemma {:induction false} FlushOwn(e: Endpoint)
    ensures var r := Flush(e);
      && r.e == e.(sndpkts := r.e.sndpkts, sndwins := r.e.sndwins)
      && forall k :: k in r.e.sndwins ==>
           (k in e.sndwins && r.e.sndwins[k] == e.sndwins[k]) || r.e.sndwins[k] in r.sends
    decreases |e.sndpkts|
  {
    if |e.sndwins| < WIN_SIZE && e.sndpkts != map[] {
      NonEmpty(e.sndpkts);
      var k := MinKey(e.sndpkts.Keys);
      Shrinks(e.sndpkts, k);
      FlushOwn(e.(sndwins := e.sndwins[k := e.sndpkts[k]], sndpkts := e.sndpkts - {k}));
    }
  }

  lemma OwnKeeps(x: Side, y: Side, client: bool, step: Step, x': Side)
    requires Own(x) && Takes(x, y, client, step, x')
    ensures Own(x') && x.out <= x'.out
  {
    hide Flush, Run, Moved, MaxKey, MinKey;
    match step
    case Dial(isn) =>
    case Deliver(p, isn) => DeliverOwn(x, p, isn);
    case Arrange => ArrangeOwn(x);
    case Submit(data) =>
      FlushOwn(Buffered(x.e, data));
      FlushOwn(x.e);
    case Push => FlushOwn(x.e);
    case Read =>
  }

  lemma DeliverOwn(x: Side, p: Packet, isn: int)
    requires Own(x)
    ensures Own(Sent(x, Receive(x.e, p, isn)))
  {
    hide Flush;
    FlushOwn(x.e.(sndwins := x.e.sndwins - {p.sn}));
  }

  lemma ArrangeOwn(x: Side)
    requires Own(x)
    ensures Own(x.(e := OnRecvData(x.e)))
  {
    ArrangeFields(x.e);
  }

  lemma {:induction false} RunOwn(states: seq<System>, k: nat)
    requires Runs(states) && k < |states|
    ensures Own(states[k].c) && Own(states[k].s)
    decreases k
  {
    hide Takes;
    if k > 0 {
      RunOwn(states, k - 1);
      var t, t' := states[k - 1], states[k];
      assert Next(t, t');
      if t'.s == t.s && exists step :: Takes(t.c, t.s, true, step, t'.c) {
        var step :| Takes(t.c, t.s, true, step, t'.c);
        OwnKeeps(t.c, t.s, true, step, t'.c);
      } else {
        var step :| Takes(t.s, t.c, false, step, t'.s);
        OwnKeeps(t.s, t.c, false, step, t'.s);
      }
    }
  }

  lemma {:induction false} OutGrows(states: seq<System>, k: nat, l: nat)
    requires Runs(states) && k <= l < |states|
    ensures states[k].c.out <= states[l].c.out && states[k].s.out <= states[l].s.out
    decreases l
  {
    hide Takes;
    if k < l {
      OutGrows(states, k, l - 1);
      RunOwn(states, l - 1);
      var t, t' := states[l - 1], states[l];
      assert Next(t, t');
      if t'.s == t.s && exists step :: Takes(t.c, t.s, true, step, t'.c) {
        var step :| Takes(t.c, t.s, true, step, t'.c);
        OwnKeeps(t.c, t.s, true, step, t'.c);
      } else {
        var step :| Takes(t.s, t.c, false, step, t'.s);
        OwnKeeps(t.s, t.c, false, step, t'.s);
      }
    }
  }

  /** Every packet that was ever in a window is on the network. */
  lemma WindowIsSent(states: seq<System>, k: nat, l: nat, n: int)
    requires Runs(states) && k <= l < |states|
    ensures n in states[k].c.e.sndwins ==> states[k].c.e.sndwins[n] in states[l].c.out
    ensures n in states[k].s.e.sndwins ==> states[k].s.e.sndwins[n] in states[l].s.out
  {
    RunOwn(states, k);
    OutGrows(states, k, l);
  }

  /** A packet made is waiting for room in the window or on the network. */
  lemma MadeIsSent(states: seq<System>, k: nat, i: nat)
    requires Runs(states) && k < |states| && i < |states[k].c.made|
    ensures var c, s, p := states[k].c, states[k].s, states[k].c.made[i];
      p.sn in c.e.sndpkts || p in c.out || p.sn in s.e.rcvpkts || p.sn < s.e.rcvseq
  {
    RunIsGood(states, k);
    RunOwn(states, k);
    var c := states[k].c;
    var p := c.made[i];
    if p.sn in c.e.sndwins {
      assert Made(c, c.e.sndwins[p.sn]);
    }
  }

  /** What x reads next of what y made: once it has arrived, it becomes readable, and is what
      readPacket returns. */
  lemma NextBecomesReadable(y: Side, x: Side)
    requires Towards(y, x) && Own(x) && x.e.state == ESTAB && |x.got| < |y.made|
    requires y.made[|x.got|].sn in x.e.rcvpkts || y.made[|x.got|].sn in x.e.rcvwins
    ensures var e := OnRecvData(x.e);
      e.rcvwins != map[] && Readable(e) == y.made[|x.got|]
  {
    hide Towards, Own, OnRecvData, Readable;
    var next := Base(y) + |x.got|;
    var x1 := x.(e := OnRecvData(x.e));
    ArrangeKeeps(y, x);
    NextNumber(y, x);
    NextIsIn(y, x);
    assert next in x1.e.rcvwins;
    ReadKeeps(y, x1);
  }

  lemma NextNumber(y: Side, x: Side)
    requires Towards(y, x) && |x.got| < |y.made|
    ensures y.made[|x.got|].sn == Base(y) + |x.got|
  {
    hide Made;
  }

  lemma NextIsIn(y: Side, x: Side)
    requires Towards(y, x) && Own(x) && x.e.state == ESTAB && |x.got| < |y.made|
    requires var next := Base(y) + |x.got|; next in x.e.rcvpkts || next in x.e.rcvwins
    ensures Base(y) + |x.got| in OnRecvData(x.e).rcvwins
  {
    hide Made, OnRecvData;
    assert forall k :: k in x.e.rcvwins ==> k < (if x.e.rcvseq == 0 then x.e.peerseq else x.e.rcvseq);
    var n := OnRecvDataIs(x.e);
  }

  /** In every run the next packet in order, once it has arrived, is the one read next. */
  lemma ArrivedIsRead(states: seq<System>, k: nat)
    requires Runs(states) && k < |states|
    ensures var c, s := states[k].c, states[k].s;
      s.e.state == ESTAB && |s.got| < |c.made| && c.made[|s.got|].sn in s.e.rcvpkts.Keys + s.e.rcvwins.Keys ==>
        OnRecvData(s.e).rcvwins != map[] && Readable(OnRecvData(s.e)) == c.made[|s.got|]
    ensures var c, s := states[k].c, states[k].s;
      c.e.state == ESTAB && |c.got| < |s.made| && s.made[|c.got|].sn in c.e.rcvpkts.Keys + c.e.rcvwins.Keys ==>
        OnRecvData(c.e).rcvwins != map[] && Readable(OnRecvData(c.e)) == s.made[|c.got|]
  {
    hide Towards, Own, OnRecvData, Readable;
    RunIsGood(states, k);
    RunOwn(states, k);
    var c, s := states[k].c, states[k].s;
    if s.e.state == ESTAB && |s.got| < |c.made| && c.made[|s.got|].sn in s.e.rcvpkts.Keys + s.e.rcvwins.Keys {
      NextBecomesReadable(c, s);
    }
    if c.e.state == ESTAB && |c.got| < |s.made| && s.made[|c.got|].sn in c.e.rcvpkts.Keys + c.e.rcvwins.Keys {
      NextBecomesReadable(s, c);
    }
  }

  /** Whatever numbers are drawn, the three packets of the handshake, each answered by the other
      side, establish both sides, and each knows the number of the other. */
  lemma HandshakeCompletes(isn: int, isn': int)
    requires isn > 0 && isn' > 0
    ensures var dial := Connect(Fresh(SERVER), isn);
      && |dial.sends| == 1 && dial.e.selfisn == isn
      && var call := Receive(Fresh(SERVER), dial.sends[0], isn');
        && |call.sends| == 1 && call.e.selfisn == isn'
        && var answer := Receive(dial.e, call.sends[0], 1);
          && |answer.sends| == 1 && answer.e.state == ESTAB && answer.e.peerisn == isn' && answer.e.peerseq == isn' + 2
          && var done := Receive(call.e, answer.sends[0], 1).e;
            done.state == ESTAB && done.peerisn == isn && done.peerseq == isn + 2
  {
  }
}
