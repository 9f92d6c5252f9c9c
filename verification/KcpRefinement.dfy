/** The endpoint of Kcp and the system of KcpSystem agree: what Flush writes is a flush step,
    and what Input does with a delivered datagram is a delivery step. */
module KcpRefinement {
  import opened Words
  import opened KcpSpec
  import opened KcpWire
  import opened KcpDirection
  import opened KcpSystem
  import opened KcpSegments
  import opened Kcp

  function Wires(packets: seq<Packet>): (ws: seq<Wire>)
    ensures |ws| == |packets| && forall i :: 0 <= i < |ws| ==> ws[i] == packets[i].wire
  {
    if packets == [] then [] else [packets[0].wire] + Wires(packets[1..])
  }

  // ---------- Input ----------

  lemma {:induction false} PacketsAreWires(x: Side, packets: seq<Packet>)
    ensures var x' := AfterPackets(x, packets);
      Halves(x'.snd, x'.rcv) == AfterWires(Halves(x.snd, x.rcv), Wires(packets))
    decreases |packets|
  {
    hide AfterWire;
    if packets != [] {
      PacketsAreWires(AfterPacket(x, packets[0]), packets[1..]);
      assert Wires(packets)[1..] == Wires(packets[1..]);
    }
  }

  /** A datagram made of segments the network holds: what Input computes from its bytes is
      the delivery step of the system. */
  lemma InputIsDelivery(x: Side, y: Side, packets: seq<Packet>, conv: u32)
    requires x.mss > 0 && y.mss > 0
    requires forall p :: p in packets ==> p in y.out && Fresh(x, y, p) && Sendable(p.wire)
    ensures var x', parsed := AfterPackets(x, packets), Parse(conv, EncodedAll(conv, Wires(packets)));
      && Takes(x, y, Deliver(packets), x')
      && parsed.result == 0
      && AfterWires(Halves(x.snd, x.rcv), parsed.wires) == Halves(x'.snd, x'.rcv)
  {
    hide Fresh, Parse, EncodedAll, AfterWires, AfterPackets;
    PacketsAreWires(x, packets);
    ParseEncoded(conv, Wires(packets));
  }

  // ---------- Flush ----------

  /** A segment that may be written has unbounded numbers that make it one the system emits. */
  lemma TagOne(x: Side, y: Side, snd: Sender, h: History, una: nat, idx: seq<nat>, back: History, jdx: seq<nat>,
               w: Wire)
    returns (p: Packet)
    requires y.mss > 0 && Written(w, x.rcv.nxt, x.rcv.acks, snd.buf)
    requires SenderInv(snd, h, una, idx, x.sndWnd) && AcksInv(x.rcv, back, jdx, x.acks)
    ensures p.wire == w && Emits(x, y, snd, h.nxt, p)
  {
    hide Word, ReceivedBy;
    p := Packet(w, 0, ReceivedBy(x, y));
    if w.cmd == PUSH {
      var i :| 0 <= i < |snd.buf| && snd.buf[i] == WireEntry(w);
      p := p.(n := idx[i]);
    } else if w.cmd == ACK {
      var i :| 0 <= i < |x.rcv.acks| && x.rcv.acks[i] == w.sn;
      p := p.(n := x.acks[i]);
    }
  }

  lemma {:induction false} TagAll(x: Side, y: Side, snd: Sender, h: History, una: nat, idx: seq<nat>, back: History,
                                  jdx: seq<nat>, ws: seq<Wire>)
    returns (packets: seq<Packet>)
    requires y.mss > 0 && forall w :: w in ws ==> Written(w, x.rcv.nxt, x.rcv.acks, snd.buf)
    requires SenderInv(snd, h, una, idx, x.sndWnd) && AcksInv(x.rcv, back, jdx, x.acks)
    ensures Wires(packets) == ws && forall p :: p in packets ==> Emits(x, y, snd, h.nxt, p)
    decreases |ws|
  {
    hide SenderInv, AcksInv, Emits, Written;
    if ws == [] {
      packets := [];
    } else {
      assert ws[0] in ws;
      var p := TagOne(x, y, snd, h, una, idx, back, jdx, ws[0]);
      var rest := TagAll(x, y, snd, h, una, idx, back, jdx, ws[1..]);
      packets := [p] + rest;
      assert packets[1..] == rest;
    }
  }

  /** Everything Flush writes is written under its rules. */
  lemma FlushWritesByTheRules(acklist: seq<u32>, probe: Probe, tell: bool, moved: seq<Segment>, c: Clock, mss: nat)
    requires |acklist| % 2 == 0 && Sized(moved, mss) && Pushes(moved) && mss < WRAP
    ensures forall w ::
      w in AckWires(acklist, c.wnd, c.una) + ProbeWires(probe.ask, tell, acklist, c.wnd, c.una) + PushWires(moved, c)
      ==> Written(w, c.una, Sns(acklist), Entries(moved)) && |w.data| <= mss
  {
    hide AckWires, PushWires, Sized, Pushes;
    AckWiresWritten(acklist, c.wnd, c.una, Entries(moved));
    PushWiresWritten(moved, c, mss, Sns(acklist));
  }

  /** What Flush writes is a flush step of the system, whatever the window allowed. */
  lemma FlushIsStep(x: Side, y: Side, allowed: u32, ws: seq<Wire>) returns (packets: seq<Packet>)
    requires Towards(x, y) && Towards(y, x) && allowed <= x.sndWnd
    requires forall w :: w in ws ==> Written(w, x.rcv.nxt, x.rcv.acks, Moved(x.snd, allowed).buf)
    ensures Wires(packets) == ws && x.mss > 0 && y.mss > 0
    ensures Takes(x, y, Flush(allowed, packets), AfterFlush(x, allowed, packets))
  {
    hide SenderInv, ReceiverInv, NoLoss, AcksInv, ForwardOk, BackwardOk, TextInv, Emits, Written, NumberedBy,
      ReceivedBy, AllPieces, Moved, Towards;
    MssPositive(x, y);
    MssPositive(y, x);
    var una, idx, jdx := Witnesses(x, y);
    var una2, idx2, jdx2 := Witnesses(y, x);
    Known(x, y, una, idx, jdx);
    Known(y, x, una2, idx2, jdx2);
    var h := Between(x, y);
    var nxt, idx' := MovedInv(x.snd, h, una, idx, x.sndWnd, allowed);
    packets := TagAll(x, y, Moved(x.snd, allowed), h.(nxt := nxt), una, idx', Between(y, x), jdx2, ws);
    NumberedAfter(x, h, una, idx', nxt, allowed, packets);
  }

  lemma NumberedAfter(x: Side, h: History, una: nat, idx: seq<nat>, nxt: nat, allowed: u32, packets: seq<Packet>)
    requires x.mss > 0 && SenderInv(Moved(x.snd, allowed), h.(nxt := nxt), una, idx, x.sndWnd)
    requires h.pieces == AllPieces(x.mss, x.sent)
    ensures NumberedBy(AfterFlush(x, allowed, packets)) == nxt
  {
    hide Moved, AllPieces, Lists;
  }
}
