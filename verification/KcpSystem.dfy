/** Two KCP endpoints and a network that keeps every segment ever sent and may deliver it
    late, repeatedly, reordered, regrouped or never (toxtun-go/kcp.go). */
module KcpSystem {
  import opened Words
  import opened KcpSpec
  import opened KcpDirection
  import opened KcpMessages

  /** An endpoint, the messages its user sent and was given, every segment it put on the
      network, and the unbounded numbers its pending acknowledgements stand for. */
  datatype Side = Side(mss: nat, sndWnd: nat, snd: Sender, rcv: Receiver,
                       sent: seq<seq<u8>>, got: seq<seq<u8>>, out: set<Packet>, acks: seq<nat>)

  datatype System = System(a: Side, b: Side)

  datatype Step =
    | Send(buffer: seq<u8>)
    | Recv(capacity: nat)
    | Flush(cwnd: u32, packets: seq<Packet>)
    | Deliver(packets: seq<Packet>)

  // ---------- Unbounded numbers ----------

  /** How many pieces of x were given a sequence number. */
  function NumberedBy(x: Side): (n: nat)
    requires x.mss > 0
  {
    var total := |AllPieces(x.mss, x.sent)|;
    if total < |x.snd.queue| then 0 else total - |x.snd.queue|
  }

  /** How many pieces of y the side x has in order. */
  function ReceivedBy(x: Side, y: Side): (n: nat)
    requires y.mss > 0
  {
    |AllPieces(y.mss, x.got)| + |x.rcv.queue|
  }

  /** The direction from x to y. */
  function Between(x: Side, y: Side): (h: History)
    requires x.mss > 0
  {
    History(x.sent, AllPieces(x.mss, x.sent), NumberedBy(x), ReceivedBy(y, x), |AllPieces(x.mss, y.got)|, y.got)
  }

  // ---------- Steps ----------

  ghost predicate Start(x: Side)
  {
    && 0 < x.mss && x.sndWnd <= LIMIT && 0 < x.rcv.wnd <= LIMIT
    && x.snd == Sender([], [], 0, 0) && x.rcv == Receiver(x.rcv.wnd, 0, [], [], [])
    && x.sent == [] && x.got == [] && x.out == {} && x.acks == []
  }

  function AfterSend(x: Side, buffer: seq<u8>): (x': Side)
    requires x.mss > 0
  {
    if SendResult(x.mss, buffer) != 0 then x
    else x.(snd := x.snd.(queue := x.snd.queue + MessagePieces(x.mss, buffer)), sent := x.sent + [buffer])
  }

  function AfterRead(x: Side, capacity: nat): (x': Side)
  {
    if RecvResult(x.rcv, capacity) < 0 then x
    else x.(rcv := AfterRecv(x.rcv, capacity), got := x.got + [Joined(x.rcv.queue[..FirstCount(x.rcv.queue)])])
  }

  /** A segment flush may write: snd is the sender after the queue was moved. */
  ghost predicate Emits(x: Side, y: Side, snd: Sender, nxt: nat, p: Packet)
    requires y.mss > 0
  {
    && p.wire.una == x.rcv.nxt && p.u == ReceivedBy(x, y)
    && (p.wire.cmd == PUSH ==>
          && WireEntry(p.wire) in snd.buf
          && p.wire.sn == Word(p.n) && p.n < nxt < p.n + WRAP)
    && (p.wire.cmd == ACK ==>
          exists i :: 0 <= i < |x.acks| && i < |x.rcv.acks| && p.wire.sn == x.rcv.acks[i] && p.n == x.acks[i])
  }

  function AfterFlush(x: Side, cwnd: u32, packets: seq<Packet>): (x': Side)
  {
    x.(snd := Moved(x.snd, cwnd), rcv := x.rcv.(acks := []), acks := [], out := x.out + set p | p in packets)
  }

  /** The packet is not older than the sequence numbers can tell. */
  ghost predicate Fresh(x: Side, y: Side, p: Packet)
    requires x.mss > 0 && y.mss > 0
  {
    && NumberedBy(x) <= p.u + LIMIT
    && (p.wire.cmd == PUSH ==> NumberedBy(y) <= p.n + LIMIT)
    && (p.wire.cmd == ACK ==> NumberedBy(x) <= p.n + LIMIT)
  }

  /** One segment of Input: the acknowledgement list grows with what is acknowledged. */
  function AfterPacket(x: Side, p: Packet): (x': Side)
  {
    var halves := AfterWire(Halves(x.snd, x.rcv), p.wire);
    x.(snd := halves.snd, rcv := halves.rcv, acks := if |halves.rcv.acks| > |x.rcv.acks| then x.acks + [p.n]
      else x.acks)
  }

  function AfterPackets(x: Side, packets: seq<Packet>): (x': Side)
    decreases |packets|
  {
    if packets == [] then x else AfterPackets(AfterPacket(x, packets[0]), packets[1..])
  }

  /** Side x takes a step while the other side y stands still. */
  ghost predicate Takes(x: Side, y: Side, step: Step, x': Side)
    requires x.mss > 0 && y.mss > 0
  {
    match step
    case Send(buffer) => x' == AfterSend(x, buffer)
    case Recv(capacity) => x' == AfterRead(x, capacity)
    case Flush(cwnd, packets) =>
      && cwnd <= x.sndWnd && x' == AfterFlush(x, cwnd, packets)
      && (forall p :: p in packets ==> Emits(x, y, x'.snd, NumberedBy(x'), p))
    case Deliver(packets) =>
      && (forall p :: p in packets ==> p in y.out && Fresh(x, y, p))
      && x' == AfterPackets(x, packets)
  }

  ghost predicate Next(s: System, s': System)
  {
    && s.a.mss > 0 && s.b.mss > 0
    && (|| (s'.b == s.b && exists step :: Takes(s.a, s.b, step, s'.a))
        || (s'.a == s.a && exists step :: Takes(s.b, s.a, step, s'.b)))
  }

  ghost predicate Run(states: seq<System>)
  {
    && states != [] && Start(states[0].a) && Start(states[0].b)
    && forall i :: 0 < i < |states| ==> Next(states[i - 1], states[i])
  }

  // ---------- The invariant of the system ----------

  ghost predicate Holds(x: Side, y: Side, una: nat, idx: seq<nat>, jdx: seq<nat>)
    requires x.mss > 0
  {
    Inv(x.snd, y.rcv, Between(x, y), x.out, y.out, x.mss, x.sndWnd, una, idx, jdx, y.acks)
  }

  ghost predicate Towards(x: Side, y: Side)
  {
    x.mss > 0 && exists una, idx, jdx :: Holds(x, y, una, idx, jdx)
  }

  ghost predicate Good(s: System)
  {
    Towards(s.a, s.b) && Towards(s.b, s.a)
  }

  lemma StartHolds(x: Side, y: Side)
    requires Start(x) && Start(y)
    ensures Towards(x, y)
  {
    assert Holds(x, y, 0, [], []);
  }

  /** The history of a direction is determined by what the two sides hold. */
  lemma HistoryIsBetween(x: Side, y: Side, h: History, jdx: seq<nat>, una: nat, idx: seq<nat>)
    requires x.mss > 0 && TextInv(h, x.mss) && h.msgs == x.sent && h.delivered == y.got
    requires SenderInv(x.snd, h, una, idx, x.sndWnd) && ReceiverInv(y.rcv, h, jdx)
    ensures h == Between(x, y)
  {
    hide Lists, AllPieces, SendResult;
  }

  lemma Known(x: Side, y: Side, una: nat, idx: seq<nat>, jdx: seq<nat>)
    requires x.mss > 0 && Holds(x, y, una, idx, jdx)
    ensures Inv(x.snd, y.rcv, Between(x, y), x.out, y.out, x.mss, x.sndWnd, una, idx, jdx, y.acks)
    ensures Between(x, y).msgs == x.sent && Between(x, y).delivered == y.got
    ensures Between(x, y).nxt == NumberedBy(x) && Between(x, y).rcv == ReceivedBy(y, x)
  {
    hide Inv, NumberedBy, ReceivedBy, AllPieces;
  }

  /** Re-establishes a direction from an invariant about any history that fits the sides. */
  lemma Establish(x: Side, y: Side, h: History, una: nat, idx: seq<nat>, jdx: seq<nat>)
    requires x.mss > 0 && h.msgs == x.sent && h.delivered == y.got
    requires Inv(x.snd, y.rcv, h, x.out, y.out, x.mss, x.sndWnd, una, idx, jdx, y.acks)
    ensures Towards(x, y) && h == Between(x, y)
  {
    hide SenderInv, ReceiverInv, NoLoss, AcksInv, ForwardOk, BackwardOk, TextInv, NumberedBy, ReceivedBy, AllPieces;
    HistoryIsBetween(x, y, h, jdx, una, idx);
    assert Holds(x, y, una, idx, jdx);
  }

  // ---------- Send ----------

  lemma SendKeeps(x: Side, y: Side, buffer: seq<u8>)
    requires Towards(x, y) && Towards(y, x)
    ensures Towards(AfterSend(x, buffer), y) && Towards(y, AfterSend(x, buffer))
  {
    hide Inv, MessagePieces, SendResult, NumberedBy, ReceivedBy, AllPieces;
    if SendResult(x.mss, buffer) == 0 {
      var x' := AfterSend(x, buffer);
      var una, idx, jdx :| Holds(x, y, una, idx, jdx);
      Known(x, y, una, idx, jdx);
      var h := Between(x, y);
      var ps := MessagePieces(x.mss, buffer);
      SendStep(x.snd, y.rcv, h, x.out, y.out, x.mss, x.sndWnd, una, idx, jdx, y.acks, buffer);
      Establish(x', y, h.(msgs := h.msgs + [buffer], pieces := h.pieces + ps), una, idx, jdx);
      SameReceiver(y, x, x');
    }
  }

  /** The direction from x to y does not look at what y sends. */
  lemma SameReceiver(x: Side, y: Side, y': Side)
    requires Towards(x, y) && y'.rcv == y.rcv && y'.got == y.got && y'.out == y.out && y'.acks == y.acks
    ensures Towards(x, y')
  {
    hide Inv, NumberedBy, AllPieces;
    var una, idx, jdx :| Holds(x, y, una, idx, jdx);
    assert Between(x, y') == Between(x, y);
    assert Holds(x, y', una, idx, jdx);
  }

  lemma SameSender(x: Side, y: Side, x': Side)
    requires Towards(x, y) && x'.snd == x.snd && x'.sent == x.sent && x'.out == x.out && x'.mss == x.mss
      && x'.sndWnd == x.sndWnd
    ensures Towards(x', y)
  {
    hide Inv, AllPieces;
    var una, idx, jdx :| Holds(x, y, una, idx, jdx);
    assert Between(x', y) == Between(x, y);
    assert Holds(x', y, una, idx, jdx);
  }

  // ---------- Recv ----------

  lemma RecvKeeps(x: Side, y: Side, capacity: nat)
    requires Towards(x, y) && Towards(y, x)
    ensures Towards(AfterRead(x, capacity), y) && Towards(y, AfterRead(x, capacity))
  {
    hide Inv, AfterRecv, RecvResult, Joined, FirstCount, NumberedBy, ReceivedBy, AllPieces;
    if RecvResult(x.rcv, capacity) >= 0 {
      var x' := AfterRead(x, capacity);
      var una, idx, jdx :| Holds(y, x, una, idx, jdx);
      Known(y, x, una, idx, jdx);
      var h', jdx' := RecvStep(y.snd, x.rcv, Between(y, x), y.out, x.out, y.mss, y.sndWnd, una, idx, jdx, x.acks,
        capacity);
      Establish(y, x', h', una, idx, jdx');
      SameSender(x, y, x');
    }
  }

  // ---------- Flush ----------

  /** Moving the queue gives the next numbers to the pieces moved: it stops when cwnd are
      outstanding, counted from the first unacknowledged one, or when the queue is empty. */
  lemma {:induction false} MovedInv(s: Sender, h: History, una: nat, idx: seq<nat>, sndWnd: nat, cwnd: u32)
    returns (nxt: nat, idx': seq<nat>)
    requires SenderInv(s, h, una, idx, sndWnd) && cwnd <= sndWnd
    ensures nxt >= h.nxt && SenderInv(Moved(s, cwnd), h.(nxt := nxt), una, idx', sndWnd)
    ensures forall m :: m in idx' <==> m in idx || h.nxt <= m < nxt
    ensures nxt == if una + cwnd <= h.nxt then h.nxt else if una + cwnd < |h.pieces| then una + cwnd else |h.pieces|
    decreases |s.queue|
  {
    hide Lists, Word, Diff;
    MoveTest(s, h, una, idx, sndWnd, cwnd);
    if s.queue != [] && Diff(s.nxt, Word(s.una + cwnd)) < 0 {
      var s1 := s.(queue := s.queue[1..], buf := s.buf + [Numbered(s.nxt, s.queue[0])], nxt := Word(s.nxt + 1));
      var h1 := h.(nxt := h.nxt + 1);
      WordOfWord(h.nxt, 1);
      MoveOne(s, h, una, idx, sndWnd, s1, h1);
      nxt, idx' := MovedInv(s1, h1, una, idx + [h.nxt], sndWnd, cwnd);
      assert h1.(nxt := nxt) == h.(nxt := nxt);
    } else {
      nxt, idx' := h.nxt, idx;
      assert h.(nxt := nxt) == h;
    }
  }

  lemma MoveTest(s: Sender, h: History, una: nat, idx: seq<nat>, sndWnd: nat, cwnd: u32)
    requires SenderInv(s, h, una, idx, sndWnd) && cwnd <= sndWnd
    ensures Diff(s.nxt, Word(s.una + cwnd)) < 0 <==> h.nxt < una + cwnd
  {
    hide Lists, Word, Diff;
    WordOfWord(una, cwnd);
    DiffExact(h.nxt, una + cwnd);
  }

  lemma MoveOne(s: Sender, h: History, una: nat, idx: seq<nat>, sndWnd: nat, s1: Sender, h1: History)
    requires SenderInv(s, h, una, idx, sndWnd) && s.queue != [] && h.nxt < una + sndWnd
    requires s1 == s.(queue := s.queue[1..], buf := s.buf + [Numbered(s.nxt, s.queue[0])], nxt := Word(h.nxt + 1))
    requires h1 == h.(nxt := h.nxt + 1)
    ensures SenderInv(s1, h1, una, idx + [h.nxt], sndWnd)
  {
    hide Lists, Word;
    assert forall m :: m in idx ==> m < h.nxt;
    ListsAppend(s.buf, idx, h.pieces, h.nxt);
    assert h.pieces[h.nxt..][1..] == h.pieces[h.nxt + 1..];
  }

  /** The direction from x to y when x numbers more pieces and sends its packets. */
  lemma FlushForward(x: Side, y: Side, cwnd: u32, packets: seq<Packet>)
    requires Towards(x, y) && y.mss > 0 && cwnd <= x.sndWnd
    requires forall p :: p in packets ==> Emits(x, y, Moved(x.snd, cwnd), NumberedBy(AfterFlush(x, cwnd, packets)), p)
    ensures Towards(AfterFlush(x, cwnd, packets), y)
  {
    hide SenderInv, ReceiverInv, NoLoss, AcksInv, ForwardOk, BackwardOk, TextInv, Emits, NumberedBy, ReceivedBy,
      AllPieces, Moved;
    var una, idx, jdx :| Holds(x, y, una, idx, jdx);
    Known(x, y, una, idx, jdx);
    var h := Between(x, y);
    var x' := AfterFlush(x, cwnd, packets);
    var nxt, idx' := MovedInv(x.snd, h, una, idx, x.sndWnd, cwnd);
    var h' := h.(nxt := nxt);
    SenderBounds(x'.snd, h', una, idx', x.sndWnd);
    OthersFlush(y.rcv, h, y.acks, x.mss, idx, jdx, nxt, idx');
    HistoryIsBetween(x', y, h', jdx, una, idx');
    forall p | p in x'.out
      ensures ForwardOk(h', p)
    {
      if p in x.out {
        ForwardStays(h, nxt, p);
      } else {
        NewForward(x, y, x'.snd, h', una, idx', p);
      }
    }
    forall p | p in y.out
      ensures BackwardOk(h', jdx, p)
    {
      BackwardStays(h, jdx, nxt, p);
    }
    Establish(x', y, h', una, idx', jdx);
  }

  lemma OthersFlush(r: Receiver, h: History, acks: seq<nat>, mss: nat, idx: seq<nat>, jdx: seq<nat>, nxt: nat,
                    idx': seq<nat>)
    requires mss > 0 && ReceiverInv(r, h, jdx) && NoLoss(h, idx, jdx) && AcksInv(r, h, jdx, acks) && TextInv(h, mss)
    requires h.nxt <= nxt <= |h.pieces| && forall m :: m in idx' <==> m in idx || h.nxt <= m < nxt
    ensures ReceiverInv(r, h.(nxt := nxt), jdx) && NoLoss(h.(nxt := nxt), idx', jdx)
    ensures AcksInv(r, h.(nxt := nxt), jdx, acks) && TextInv(h.(nxt := nxt), mss)
  {
    hide Lists, AllPieces, SendResult;
  }

  lemma ForwardStays(h: History, nxt: nat, p: Packet)
    requires ForwardOk(h, p) && h.nxt <= nxt <= |h.pieces|
    ensures ForwardOk(h.(nxt := nxt), p)
  {
  }

  lemma BackwardStays(h: History, jdx: seq<nat>, nxt: nat, p: Packet)
    requires BackwardOk(h, jdx, p)
    ensures BackwardOk(h.(nxt := nxt), jdx, p)
  {
  }

  /** A pushed segment carries the piece its unbounded number names. */
  lemma NewForward(x: Side, y: Side, snd: Sender, h: History, una: nat, idx: seq<nat>, p: Packet)
    requires y.mss > 0 && SenderInv(snd, h, una, idx, x.sndWnd) && Emits(x, y, snd, h.nxt, p)
    ensures ForwardOk(h, p)
  {
    hide Word, ReceivedBy, AllPieces;
    if p.wire.cmd == PUSH {
      var i :| 0 <= i < |snd.buf| && snd.buf[i] == WireEntry(p.wire);
      WordInjective(p.n, idx[i]);
    }
  }

  /** The direction from y to x when x acknowledges what it has. */
  lemma FlushBackward(x: Side, y: Side, cwnd: u32, packets: seq<Packet>)
    requires Towards(y, x) && x.mss > 0
    requires forall p :: p in packets ==> Emits(x, y, Moved(x.snd, cwnd), NumberedBy(AfterFlush(x, cwnd, packets)), p)
    ensures Towards(y, AfterFlush(x, cwnd, packets))
  {
    hide SenderInv, ReceiverInv, NoLoss, AcksInv, ForwardOk, BackwardOk, TextInv, Emits, NumberedBy, ReceivedBy,
      AllPieces, Moved;
    var una, idx, jdx :| Holds(y, x, una, idx, jdx);
    Known(y, x, una, idx, jdx);
    var h := Between(y, x);
    var x' := AfterFlush(x, cwnd, packets);
    AcksCleared(x.rcv, h, jdx);
    forall p | p in x'.out
      ensures BackwardOk(h, jdx, p)
    {
      if p !in x.out {
        NewBackward(x, y, x'.snd, NumberedBy(x'), h, jdx, p);
      }
    }
    Establish(y, x', h, una, idx, jdx);
  }

  lemma AcksCleared(r: Receiver, h: History, jdx: seq<nat>)
    requires ReceiverInv(r, h, jdx)
    ensures ReceiverInv(r.(acks := []), h, jdx) && AcksInv(r.(acks := []), h, jdx, [])
  {
  }

  lemma NewBackward(x: Side, y: Side, snd: Sender, nxt: nat, h: History, jdx: seq<nat>, p: Packet)
    requires y.mss > 0 && Emits(x, y, snd, nxt, p) && h.rcv == ReceivedBy(x, y)
    requires ReceiverInv(x.rcv, h, jdx) && AcksInv(x.rcv, h, jdx, x.acks)
    ensures BackwardOk(h, jdx, p)
  {
    hide Word, Lists, ReceivedBy;
  }

  // ---------- Deliver ----------

  /** x is told by p what y received: of the numbers outstanding exactly those leave that lie before the
      next one y expects, which every segment names, and the one an acknowledgement names. */
  lemma DeliverConfirms(x: Side, y: Side, p: Packet)
    returns (una: nat, idx: seq<nat>, jdx: seq<nat>, una': nat, idx': seq<nat>)
    requires Towards(x, y) && y.mss > 0 && p in y.out && Fresh(x, y, p)
    ensures x.mss > 0 && AfterPacket(x, p).mss == x.mss
    ensures Holds(x, y, una, idx, jdx) && Holds(AfterPacket(x, p), y, una', idx', jdx)
    ensures forall m :: m in idx' <==> m in idx && p.u <= m && !(p.wire.cmd == ACK && m == p.n)
    ensures Towards(AfterPacket(x, p), y)
  {
    hide Inv, AfterUna, AfterAck, AfterPush, Word, NumberedBy, ReceivedBy, AllPieces;
    una, idx, jdx := Witnesses(x, y);
    Known(x, y, una, idx, jdx);
    var h := Between(x, y);
    var x1 := x.(snd := AfterUna(x.snd, p.wire.una));
    BackwardKnown(x.snd, y.rcv, h, x.out, y.out, x.mss, x.sndWnd, una, idx, jdx, y.acks, p);
    una', idx' := UnaStep(x.snd, y.rcv, h, x.out, y.out, x.mss, x.sndWnd, una, idx, jdx, y.acks, p.u);
    if p.wire.cmd == ACK {
      una', idx' := AckStep(x1.snd, y.rcv, h, x.out, y.out, x.mss, x.sndWnd, una', idx', jdx, y.acks, p.n);
    }
    Establish(AfterPacket(x, p), y, h, una', idx', jdx);
  }

  /** The direction from x to y when x is told by p what y received. */
  lemma DeliverBackward(x: Side, y: Side, p: Packet)
    requires Towards(x, y) && y.mss > 0 && p in y.out && Fresh(x, y, p)
    ensures Towards(AfterPacket(x, p), y)
  {
    hide Towards, Holds, AfterPacket, Fresh;
    var una, idx, jdx, una', idx' := DeliverConfirms(x, y, p);
  }

  lemma BackwardKnown(s: Sender, r: Receiver, h: History, fwd: set<Packet>, back: set<Packet>, mss: nat, sndWnd: nat,
                      una: nat, idx: seq<nat>, jdx: seq<nat>, acks: seq<nat>, p: Packet)
    requires mss > 0 && Inv(s, r, h, fwd, back, mss, sndWnd, una, idx, jdx, acks) && p in back
    ensures p.wire.una == Word(p.u) && p.u <= h.rcv <= h.nxt
    ensures p.wire.cmd == ACK ==> p.wire.sn == Word(p.n) && Received(h, jdx, p.n)
  {
    hide SenderInv, NoLoss, AcksInv, ForwardOk, TextInv, Lists;
  }

  /** The direction from y to x when x takes in p's piece. */
  lemma DeliverForward(x: Side, y: Side, p: Packet)
    requires Towards(y, x) && x.mss > 0 && p in y.out && Fresh(x, y, p)
    ensures Towards(y, AfterPacket(x, p))
  {
    hide Inv, AfterUna, AfterAck, AfterPush, Word, NumberedBy, ReceivedBy, AllPieces, Received;
    var x' := AfterPacket(x, p);
    if p.wire.cmd == PUSH {
      var una, idx, jdx :| Holds(y, x, una, idx, jdx);
      Known(y, x, una, idx, jdx);
      var h := Between(y, x);
      ForwardKnown(y.snd, x.rcv, h, y.out, x.out, y.mss, y.sndWnd, una, idx, jdx, x.acks, p);
      var rcv, jdx', acks' := PushStep(y.snd, x.rcv, h, y.out, x.out, y.mss, y.sndWnd, una, idx, jdx, x.acks, p.n);
      Establish(y, x', h.(rcv := rcv), una, idx, jdx');
    } else {
      SameReceiver(y, x, x');
    }
  }

  lemma ForwardKnown(s: Sender, r: Receiver, h: History, fwd: set<Packet>, back: set<Packet>, mss: nat, sndWnd: nat,
                     una: nat, idx: seq<nat>, jdx: seq<nat>, acks: seq<nat>, p: Packet)
    requires mss > 0 && Inv(s, r, h, fwd, back, mss, sndWnd, una, idx, jdx, acks) && p in fwd && p.wire.cmd == PUSH
    ensures p.n < h.nxt <= |h.pieces|
    ensures WireEntry(p.wire) == Numbered(Word(p.n), h.pieces[p.n])
  {
    hide SenderInv, ReceiverInv, NoLoss, AcksInv, BackwardOk, TextInv, Word;
  }

  /** A delivered push is acknowledged exactly when its number lies before the end of the receive
      window, a repeat like the first; then the piece is held. Nothing else is acknowledged. */
  lemma DeliverAcknowledges(x: Side, y: Side, p: Packet)
    requires Towards(y, x) && x.mss > 0 && p in y.out && Fresh(x, y, p)
    ensures y.mss > 0
    ensures var x' := AfterPacket(x, p);
      var taken := p.wire.cmd == PUSH && p.n < ReceivedBy(x, y) + x.rcv.wnd;
      && x'.acks == (if taken then x.acks + [p.n] else x.acks)
      && x'.rcv.acks == (if taken then x.rcv.acks + [p.wire.sn] else x.rcv.acks)
      && x'.rcv.wnd == x.rcv.wnd && ReceivedBy(x, y) <= ReceivedBy(x', y)
      && (taken ==> Held(x', y, p.n))
  {
    hide Inv, AfterUna, AfterAck, AfterPush, Word, NumberedBy, ReceivedBy, AllPieces, Received, Held;
    MssPositive(y, x);
    if p.wire.cmd == PUSH {
      var una, idx, jdx := Witnesses(y, x);
      Known(y, x, una, idx, jdx);
      var h := Between(y, x);
      ForwardKnown(y.snd, x.rcv, h, y.out, x.out, y.mss, y.sndWnd, una, idx, jdx, x.acks, p);
      var rcv, jdx', acks' := PushStep(y.snd, x.rcv, h, y.out, x.out, y.mss, y.sndWnd, una, idx, jdx, x.acks, p.n);
      var x' := AfterPacket(x, p);
      Establish(y, x', h.(rcv := rcv), una, idx, jdx');
      if p.n < h.rcv + x.rcv.wnd {
        ReceivedIsHeld(y, x', una, idx, jdx', p.n);
      }
    } else {
      ReceivedAlike(x, AfterPacket(x, p), y);
    }
  }

  lemma ReceivedAlike(x: Side, x': Side, y: Side)
    requires y.mss > 0 && x'.got == x.got && x'.rcv.queue == x.rcv.queue
    ensures ReceivedBy(x', y) == ReceivedBy(x, y)
  {
    hide AllPieces;
  }

  /** Side x has piece number n of the messages of y: in order, or in the reorder buffer. */
  ghost predicate Held(x: Side, y: Side, n: nat)
    requires y.mss > 0
  {
    n < ReceivedBy(x, y) || (n < |AllPieces(y.mss, y.sent)| && Travelling(y, n) in x.rcv.buf)
  }

  lemma ReceivedIsHeld(y: Side, x: Side, una: nat, idx: seq<nat>, jdx: seq<nat>, n: nat)
    requires y.mss > 0 && Inv(y.snd, x.rcv, Between(y, x), y.out, x.out, y.mss, y.sndWnd, una, idx, jdx, x.acks)
    requires Received(Between(y, x), jdx, n)
    ensures Held(x, y, n)
  {
    hide SenderInv, NoLoss, AcksInv, ForwardOk, BackwardOk, TextInv, Word, NumberedBy, ReceivedBy, AllPieces;
    if n >= ReceivedBy(x, y) {
      var j :| 0 <= j < |jdx| && jdx[j] == n;
      assert x.rcv.buf[j] == Travelling(y, n);
    }
  }

  /** Delivery numbers nothing and reads nothing. */
  lemma PacketStays(x: Side, p: Packet)
    ensures AfterPacket(x, p).mss == x.mss && AfterPacket(x, p).sent == x.sent && AfterPacket(x, p).out == x.out
    ensures AfterPacket(x, p).snd.queue == x.snd.queue && AfterPacket(x, p).sndWnd == x.sndWnd
      && AfterPacket(x, p).got == x.got
  {
  }

  /** What is fresh stays fresh while others are delivered. */
  lemma RestStaysFresh(x: Side, y: Side, packets: seq<Packet>)
    requires x.mss > 0 && y.mss > 0 && packets != []
    requires forall p :: p in packets ==> p in y.out && Fresh(x, y, p)
    ensures var x1 := AfterPacket(x, packets[0]);
      x1.mss == x.mss && forall p :: p in packets[1..] ==> p in packets && p in y.out && Fresh(x1, y, p)
  {
    hide AfterPacket, AllPieces, Word;
    PacketStays(x, packets[0]);
    var x1 := AfterPacket(x, packets[0]);
    assert NumberedBy(x1) == NumberedBy(x);
    forall p | p in packets[1..]
      ensures p in packets && p in y.out && Fresh(x1, y, p)
    {
      assert p in packets;
      assert Fresh(x, y, p);
    }
  }

  lemma {:induction false} DeliverKeeps(x: Side, y: Side, packets: seq<Packet>)
    requires Towards(x, y) && Towards(y, x)
    requires forall p :: p in packets ==> p in y.out && Fresh(x, y, p)
    ensures Towards(AfterPackets(x, packets), y) && Towards(y, AfterPackets(x, packets))
    decreases |packets|
  {
    hide Towards, AfterPacket, Fresh;
    if packets != [] {
      var p := packets[0];
      MssPositive(x, y);
      MssPositive(y, x);
      assert p in packets && p in y.out && Fresh(x, y, p);
      DeliverBackward(x, y, p);
      DeliverForward(x, y, p);
      RestStaysFresh(x, y, packets);
      var x1 := AfterPacket(x, p);
      DeliverKeeps(x1, y, packets[1..]);
    }
  }

  lemma MssPositive(x: Side, y: Side)
    requires Towards(x, y)
    ensures x.mss > 0
  {
  }

  // ---------- Whole runs ----------

  lemma TakesKeeps(x: Side, y: Side, step: Step, x': Side)
    requires Towards(x, y) && Towards(y, x) && Takes(x, y, step, x')
    ensures Towards(x', y) && Towards(y, x')
  {
    hide Towards, Emits, Fresh, AfterSend, AfterRead, AfterPackets, NumberedBy;
    MssPositive(x, y);
    MssPositive(y, x);
    match step
    case Send(buffer) => SendKeeps(x, y, buffer);
    case Recv(capacity) => RecvKeeps(x, y, capacity);
    case Flush(cwnd, packets) =>
      FlushForward(x, y, cwnd, packets);
      FlushBackward(x, y, cwnd, packets);
    case Deliver(packets) => DeliverKeeps(x, y, packets);
  }

  lemma {:induction false} RunIsGood(states: seq<System>, k: nat)
    requires Run(states) && k < |states|
    ensures Good(states[k])
    decreases k
  {
    hide Towards, Takes;
    if k == 0 {
      StartHolds(states[0].a, states[0].b);
      StartHolds(states[0].b, states[0].a);
    } else {
      RunIsGood(states, k - 1);
      var s, s' := states[k - 1], states[k];
      assert Next(s, s');
      MssPositive(s.a, s.b);
      MssPositive(s.b, s.a);
      if s'.b == s.b && exists step :: Takes(s.a, s.b, step, s'.a) {
        var step :| Takes(s.a, s.b, step, s'.a);
        TakesKeeps(s.a, s.b, step, s'.a);
      } else {
        var step :| Takes(s.b, s.a, step, s'.b);
        TakesKeeps(s.b, s.a, step, s'.b);
      }
    }
  }

  /** A datagram delivered in a run: every pushed piece that lies inside the receive window when the
      datagram comes is on the list of acknowledgements afterwards, and what was on it stays. */
  lemma PushedIsAcknowledged(states: seq<System>, k: nat, packets: seq<Packet>, i: nat)
    requires Run(states) && k + 1 < |states| && states[k].a.mss > 0 && states[k].b.mss > 0
    requires Takes(states[k].a, states[k].b, Deliver(packets), states[k + 1].a)
    requires i < |packets| && packets[i].wire.cmd == PUSH
    requires packets[i].n < ReceivedBy(states[k].a, states[k].b) + states[k].a.rcv.wnd
    ensures packets[i].n in states[k + 1].a.acks && packets[i].wire.sn in states[k + 1].a.rcv.acks
    ensures states[k].a.acks <= states[k + 1].a.acks && states[k].a.rcv.acks <= states[k + 1].a.rcv.acks
  {
    hide Towards, Run, Fresh, ReceivedBy, AfterPackets;
    RunIsGood(states, k);
    PushesAcknowledged(states[k].a, states[k].b, packets);
  }

  lemma {:induction false} PushesAcknowledged(x: Side, y: Side, packets: seq<Packet>)
    requires Towards(x, y) && Towards(y, x) && x.mss > 0 && y.mss > 0
    requires forall p :: p in packets ==> p in y.out && Fresh(x, y, p)
    ensures var x' := AfterPackets(x, packets);
      && x.acks <= x'.acks && x.rcv.acks <= x'.rcv.acks
      && (forall p :: p in packets && p.wire.cmd == PUSH && p.n < ReceivedBy(x, y) + x.rcv.wnd ==>
            p.n in x'.acks && p.wire.sn in x'.rcv.acks)
    decreases |packets|
  {
    hide Towards, AfterPacket, Fresh, ReceivedBy;
    if packets != [] {
      var p := packets[0];
      assert p in packets && p in y.out && Fresh(x, y, p);
      DeliverBackward(x, y, p);
      DeliverForward(x, y, p);
      RestStaysFresh(x, y, packets);
      DeliverAcknowledges(x, y, p);
      var x1 := AfterPacket(x, p);
      PushesAcknowledged(x1, y, packets[1..]);
      var x' := AfterPackets(x, packets);
      forall q | q in packets && q.wire.cmd == PUSH && q.n < ReceivedBy(x, y) + x.rcv.wnd
        ensures q.n in x'.acks && q.wire.sn in x'.rcv.acks
      {
        if q == p {
          assert q.n in x1.acks && q.wire.sn in x1.rcv.acks;
        } else {
          assert q in packets[1..];
        }
      }
    }
  }

  /** End to end: at every moment of every run the buffers one user was given are a prefix of
      the buffers the other user sent, whole and in order, in both directions. */
  lemma DeliveredIsPrefix(states: seq<System>, k: nat)
    requires Run(states) && k < |states|
    ensures states[k].b.got <= states[k].a.sent && states[k].a.got <= states[k].b.sent
  {
    hide Towards;
    RunIsGood(states, k);
    GotIsPrefix(states[k].a, states[k].b);
    GotIsPrefix(states[k].b, states[k].a);
  }

  /** At every moment of every run Recv answers for the next message the other user sent: nothing has
      come in order, a piece of it is missing, it is too large for the buffer, or its length. */
  lemma RecvAnswersNext(states: seq<System>, k: nat, capacity: nat)
    requires Run(states) && k < |states|
    ensures states[k].a.mss > 0
    ensures var x, y := states[k].a, states[k].b;
      if y.rcv.queue == [] then RecvResult(y.rcv, capacity) == -1
      else
        && |y.got| < |x.sent|
        && var m, end := x.sent[|y.got|], |AllPieces(x.mss, x.sent[..|y.got| + 1])|;
           RecvResult(y.rcv, capacity) == if ReceivedBy(y, x) < end then -2 else if |m| > capacity then -3 else |m|
  {
    hide Towards, AllPieces, MessagePieces, RecvResult, SenderInv, ReceiverInv, NoLoss, AcksInv, ForwardOk, BackwardOk;
    RunIsGood(states, k);
    var x, y := states[k].a, states[k].b;
    var una, idx, jdx := Witnesses(x, y);
    Known(x, y, una, idx, jdx);
    RecvAnswers(y.rcv, Between(x, y), jdx, x.mss, capacity);
    if y.rcv.queue != [] {
      PiecesOfMessage(x.mss, x.sent, |y.got|);
    }
  }

  lemma GotIsPrefix(x: Side, y: Side)
    requires Towards(x, y)
    ensures y.got <= x.sent
  {
    hide SenderInv, ReceiverInv, NoLoss, AcksInv, ForwardOk, BackwardOk, AllPieces;
    var una, idx, jdx :| Holds(x, y, una, idx, jdx);
    assert TextInv(Between(x, y), x.mss);
  }

  /** The buffers stay in sequence order, as the code's signed comparison sees it: the send
      buffer from snd_una up to snd_nxt, the receive buffer from rcv_nxt on. */
  lemma BuffersStayOrdered(states: seq<System>, k: nat, i: nat, j: nat)
    requires Run(states) && k < |states|
    ensures var s := states[k].a.snd;
      && (i < |s.buf| ==> Diff(s.buf[i].sn, s.una) >= 0 && Diff(s.buf[i].sn, s.nxt) < 0)
      && (i < j < |s.buf| ==> Diff(s.buf[i].sn, s.buf[j].sn) < 0)
    ensures var r := states[k].b.rcv;
      && (i < |r.buf| ==> 0 <= Diff(r.buf[i].sn, r.nxt) < r.wnd)
      && (i < j < |r.buf| ==> Diff(r.buf[i].sn, r.buf[j].sn) < 0)
  {
    hide Towards, AllPieces, Word, Diff;
    RunIsGood(states, k);
    var x, y := states[k].a, states[k].b;
    var una, idx, jdx := Witnesses(x, y);
    Known(x, y, una, idx, jdx);
    OrderedSender(x.snd, Between(x, y), una, idx, x.sndWnd, i, j);
    OrderedReceiver(y.rcv, Between(x, y), jdx, i, j);
  }

  lemma OrderedSender(s: Sender, h: History, una: nat, idx: seq<nat>, sndWnd: nat, i: nat, j: nat)
    requires SenderInv(s, h, una, idx, sndWnd)
    ensures i < |s.buf| ==> Diff(s.buf[i].sn, s.una) >= 0 && Diff(s.buf[i].sn, s.nxt) < 0
    ensures i < j < |s.buf| ==> Diff(s.buf[i].sn, s.buf[j].sn) < 0
  {
    hide Word, Diff;
    if i < |s.buf| {
      DiffExact(idx[i], una);
      DiffExact(idx[i], h.nxt);
      if i < j < |s.buf| {
        DiffExact(idx[i], idx[j]);
      }
    }
  }

  lemma OrderedReceiver(r: Receiver, h: History, jdx: seq<nat>, i: nat, j: nat)
    requires ReceiverInv(r, h, jdx)
    ensures i < |r.buf| ==> 0 <= Diff(r.buf[i].sn, r.nxt) < r.wnd
    ensures i < j < |r.buf| ==> Diff(r.buf[i].sn, r.buf[j].sn) < 0
  {
    hide Word, Diff;
    if i < |r.buf| {
      DiffExact(jdx[i], h.rcv);
      if i < j < |r.buf| {
        DiffExact(jdx[i], jdx[j]);
      }
    }
  }

  /** Piece number n of x's messages, as it travels. */
  function Travelling(x: Side, n: nat): (e: Numbered)
    requires x.mss > 0 && n < |AllPieces(x.mss, x.sent)|
  {
    Numbered(Word(n), AllPieces(x.mss, x.sent)[n])
  }

  /** No loss: at every moment a piece that was given a number is still in the sender's
      buffer, or the receiver has it, with the same content. */
  lemma NothingIsLost(states: seq<System>, k: nat, n: nat)
    requires Run(states) && k < |states| && states[k].a.mss > 0
    requires n < NumberedBy(states[k].a)
    ensures n < |AllPieces(states[k].a.mss, states[k].a.sent)|
    ensures var x, y := states[k].a, states[k].b;
      || Travelling(x, n) in x.snd.buf
      || Travelling(x, n) in y.rcv.buf
      || (n < |AllPieces(x.mss, y.got)| && AllPieces(x.mss, y.got)[n] == AllPieces(x.mss, x.sent)[n])
      || (|AllPieces(x.mss, y.got)| <= n < ReceivedBy(y, x)
            && y.rcv.queue[n - |AllPieces(x.mss, y.got)|] == AllPieces(x.mss, x.sent)[n])
  {
    hide Towards, AllPieces, Word;
    RunIsGood(states, k);
    var x, y := states[k].a, states[k].b;
    var una, idx, jdx := Witnesses(x, y);
    Known(x, y, una, idx, jdx);
    Locate(x.snd, y.rcv, Between(x, y), x.mss, x.sndWnd, una, idx, jdx, n);
    GotIsPrefix(x, y);
    PiecesPrefix(x.mss, x.sent, |y.got|);
  }

  lemma Witnesses(x: Side, y: Side) returns (una: nat, idx: seq<nat>, jdx: seq<nat>)
    requires Towards(x, y)
    ensures x.mss > 0 && Holds(x, y, una, idx, jdx)
  {
    una, idx, jdx :| Holds(x, y, una, idx, jdx);
  }

  lemma Locate(s: Sender, r: Receiver, h: History, mss: nat, sndWnd: nat, una: nat, idx: seq<nat>, jdx: seq<nat>,
               n: nat)
    requires mss > 0 && SenderInv(s, h, una, idx, sndWnd) && ReceiverInv(r, h, jdx) && NoLoss(h, idx, jdx)
    requires n < h.nxt
    ensures n < |h.pieces| && |r.queue| == h.rcv - h.read
    ensures || Numbered(Word(n), h.pieces[n]) in s.buf
            || Numbered(Word(n), h.pieces[n]) in r.buf
            || n < h.read
            || (h.read <= n < h.rcv && r.queue[n - h.read] == h.pieces[n])
  {
    if n in idx {
      var i :| 0 <= i < |idx| && idx[i] == n;
      assert s.buf[i] == Numbered(Word(n), h.pieces[n]);
    } else if n in jdx {
      var j :| 0 <= j < |jdx| && jdx[j] == n;
      assert r.buf[j] == Numbered(Word(n), h.pieces[n]);
    }
  }

  function Contents(buf: seq<Numbered>): (ps: seq<Piece>)
    ensures |ps| == |buf| && forall i :: 0 <= i < |buf| ==> ps[i] == buf[i].piece
  {
    if buf == [] then [] else [buf[0].piece] + Contents(buf[1..])
  }

  /** When the sender has nothing waiting, the receiver has everything: the messages read, the
      queue and the reorder buffer together are exactly the pieces of the messages sent. */
  lemma NothingWaitingMeansAllReceived(states: seq<System>, k: nat)
    requires Run(states) && k < |states| && states[k].a.mss > 0
    requires states[k].a.snd.queue == [] && states[k].a.snd.buf == []
    ensures var x, y := states[k].a, states[k].b;
      AllPieces(x.mss, x.sent) == AllPieces(x.mss, y.got) + y.rcv.queue + Contents(y.rcv.buf)
  {
    hide Towards, AllPieces, Run, Inv, Contents, NumberedBy, ReceivedBy;
    RunIsGood(states, k);
    var x, y := states[k].a, states[k].b;
    var una, idx, jdx := Witnesses(x, y);
    var h := Between(x, y);
    Everything(x.snd, y.rcv, h, x.out, y.out, x.mss, x.sndWnd, una, idx, jdx, y.acks);
  }

  lemma Everything(s: Sender, r: Receiver, h: History, fwd: set<Packet>, back: set<Packet>, mss: nat, sndWnd: nat,
                   una: nat, idx: seq<nat>, jdx: seq<nat>, acks: seq<nat>)
    requires mss > 0 && Inv(s, r, h, fwd, back, mss, sndWnd, una, idx, jdx, acks)
    requires s.queue == [] && s.buf == []
    ensures h.pieces == AllPieces(mss, h.delivered) + r.queue + Contents(r.buf)
  {
    hide SenderInv, ReceiverInv, NoLoss, AllPieces, SendResult, Contents;
    AllHeld(s, r, h, sndWnd, una, idx, jdx);
    PiecesPrefix(mss, h.msgs, |h.delivered|);
    assert h.pieces[..h.read] == AllPieces(mss, h.delivered);
  }

  lemma AllHeld(s: Sender, r: Receiver, h: History, sndWnd: nat, una: nat, idx: seq<nat>, jdx: seq<nat>)
    requires SenderInv(s, h, una, idx, sndWnd) && ReceiverInv(r, h, jdx) && NoLoss(h, idx, jdx)
    requires s.queue == [] && s.buf == []
    ensures h.read <= |h.pieces| && h.pieces[h.read..] == r.queue + Contents(r.buf)
  {
    hide Word, Lists;
    NoneOutstanding(s, h, una, idx, sndWnd);
    forall n: nat | h.rcv <= n < h.nxt
      ensures n in jdx
    {
      assert n in idx || Received(h, jdx, n);
    }
    ReceiverOrder(r, h, jdx);
    Consecutive(jdx, h.rcv, h.nxt);
    assert h.pieces[h.rcv..] == Contents(r.buf);
    assert h.pieces[h.read..] == h.pieces[h.read..h.rcv] + h.pieces[h.rcv..];
  }

  lemma NoneOutstanding(s: Sender, h: History, una: nat, idx: seq<nat>, sndWnd: nat)
    requires SenderInv(s, h, una, idx, sndWnd) && s.queue == [] && s.buf == []
    ensures idx == [] && h.nxt == |h.pieces|
  {
    hide Word;
  }

  lemma ReceiverOrder(r: Receiver, h: History, jdx: seq<nat>)
    requires ReceiverInv(r, h, jdx)
    ensures Ascending(jdx) && |jdx| == |r.buf|
    ensures forall i :: 0 <= i < |jdx| ==> h.rcv <= jdx[i] < h.nxt
    ensures forall i :: 0 <= i < |jdx| ==> r.buf[i].piece == h.pieces[jdx[i]]
  {
    hide Word;
  }

  /** An ascending list of exactly the numbers of an interval. */
  lemma {:induction false} Consecutive(jdx: seq<nat>, lo: nat, hi: nat)
    requires Ascending(jdx) && lo <= hi
    requires forall j :: 0 <= j < |jdx| ==> lo <= jdx[j] < hi
    requires forall n :: lo <= n < hi ==> n in jdx
    ensures |jdx| == hi - lo && forall j :: 0 <= j < |jdx| ==> jdx[j] == lo + j
    decreases hi - lo
  {
    if jdx != [] {
      assert lo <= jdx[0] < hi;
      assert lo in jdx;
      var k :| 0 <= k < |jdx| && jdx[k] == lo;
      assert jdx[0] <= jdx[k];
      forall n | lo + 1 <= n < hi ensures n in jdx[1..] {
        assert n in jdx;
        var i :| 0 <= i < |jdx| && jdx[i] == n;
        assert jdx[1..][i - 1] == n;
      }
      Consecutive(jdx[1..], lo + 1, hi);
    } else {
      assert lo < hi ==> lo in jdx;
    }
  }
}
