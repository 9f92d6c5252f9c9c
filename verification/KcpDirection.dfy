/** One direction of a KCP conversation: the sending half of one endpoint, the receiving half
    of the other, and what is known of the packets between them.

    Every sequence number has an unbounded counterpart: message pieces are numbered from 0
    in the order they were queued, and a 32-bit word stands for the number it is the
    remainder of. */
module KcpDirection {
  import opened Words
  import opened KcpSpec

  /** Windows are at most this large, and no packet is delivered that is more than this many
      sequence numbers behind the newest one. */
  const LIMIT := 0x4000_0000

  /** A segment in the network with the unbounded numbers its sn and una stand for. */
  datatype Packet = Packet(wire: Wire, n: nat, u: nat)

  /** What happened so far: the accepted messages, their pieces, how many pieces were given a
      number, how many the receiver has in order, how many of those the user has read, and
      the buffers the user was given. */
  datatype History = History(msgs: seq<seq<u8>>, pieces: seq<Piece>, nxt: nat, rcv: nat, read: nat,
    delivered: seq<seq<u8>>)

  // ---------- The invariant ----------

  /** Entry i of the buffer is piece number idx[i]; the numbers ascend. */
  ghost predicate Lists(buf: seq<Numbered>, idx: seq<nat>, pieces: seq<Piece>)
  {
    && |idx| == |buf|
    && (forall i :: 0 <= i < |idx| ==> idx[i] < |pieces| && buf[i] == Numbered(Word(idx[i]), pieces[idx[i]]))
    && Ascending(idx)
  }

  ghost predicate Ascending(idx: seq<nat>)
  {
    forall i, j :: 0 <= i < j < |idx| ==> idx[i] < idx[j]
  }

  /** snd_buf holds, in order, numbers of [una, nxt), starting with una. */
  ghost predicate SenderInv(s: Sender, h: History, una: nat, idx: seq<nat>, sndWnd: nat)
  {
    && una <= h.nxt <= |h.pieces| && h.nxt - una <= sndWnd <= LIMIT
    && s.una == Word(una) && s.nxt == Word(h.nxt)
    && s.queue == h.pieces[h.nxt..]
    && Lists(s.buf, idx, h.pieces)
    && (forall i :: 0 <= i < |idx| ==> una <= idx[i] < h.nxt)
    && (if idx != [] then idx[0] == una else una == h.nxt)
  }

  /** rcv_buf holds, in order, numbers of [rcv, rcv + wnd); rcv_queue those before rcv that
      were not read yet. */
  ghost predicate ReceiverInv(r: Receiver, h: History, jdx: seq<nat>)
  {
    && 0 < r.wnd <= LIMIT
    && r.nxt == Word(h.rcv)
    && h.read <= h.rcv <= h.nxt <= |h.pieces|
    && r.queue == h.pieces[h.read..h.rcv]
    && Lists(r.buf, jdx, h.pieces)
    && (forall j :: 0 <= j < |jdx| ==> h.rcv <= jdx[j] < h.rcv + r.wnd && jdx[j] < h.nxt)
  }

  ghost predicate Received(h: History, jdx: seq<nat>, n: nat)
  {
    n < h.rcv || n in jdx
  }

  /** No loss: every number given out is still with the sender or has been received. */
  ghost predicate NoLoss(h: History, idx: seq<nat>, jdx: seq<nat>)
  {
    forall n: nat :: n < h.nxt ==> n in idx || Received(h, jdx, n)
  }

  ghost predicate AcksInv(r: Receiver, h: History, jdx: seq<nat>, acks: seq<nat>)
  {
    |acks| == |r.acks| && forall i :: 0 <= i < |acks| ==> r.acks[i] == Word(acks[i]) && Received(h, jdx, acks[i])
  }

  /** A packet of the forward network carries the piece of its number. */
  ghost predicate ForwardOk(h: History, p: Packet)
  {
    p.wire.cmd == PUSH ==>
      p.n < h.nxt <= |h.pieces| && p.wire.sn == Word(p.n) && Piece(p.wire.frg, p.wire.data) == h.pieces[p.n]
  }

  /** A packet of the backward network acknowledges only what was received. */
  ghost predicate BackwardOk(h: History, jdx: seq<nat>, p: Packet)
  {
    && p.wire.una == Word(p.u) && p.u <= h.rcv
    && (p.wire.cmd == ACK ==> p.wire.sn == Word(p.n) && Received(h, jdx, p.n))
  }

  function AllPieces(mss: nat, msgs: seq<seq<u8>>): (ps: seq<Piece>)
    requires mss > 0
  {
    if msgs == [] then [] else AllPieces(mss, msgs[..|msgs| - 1]) + MessagePieces(mss, msgs[|msgs| - 1])
  }

  /** The user was given the first accepted messages, whole, and nothing else. */
  ghost predicate TextInv(h: History, mss: nat)
    requires mss > 0
  {
    && (forall i :: 0 <= i < |h.msgs| ==> SendResult(mss, h.msgs[i]) == 0)
    && h.pieces == AllPieces(mss, h.msgs)
    && |h.delivered| <= |h.msgs| && h.delivered == h.msgs[..|h.delivered|]
    && h.read == |AllPieces(mss, h.msgs[..|h.delivered|])|
  }

  ghost predicate Inv(s: Sender, r: Receiver, h: History, fwd: set<Packet>, back: set<Packet>, mss: nat, sndWnd: nat,
                      una: nat, idx: seq<nat>, jdx: seq<nat>, acks: seq<nat>)
    requires mss > 0
  {
    && SenderInv(s, h, una, idx, sndWnd)
    && ReceiverInv(r, h, jdx)
    && NoLoss(h, idx, jdx)
    && AcksInv(r, h, jdx, acks)
    && (forall p :: p in fwd ==> ForwardOk(h, p))
    && (forall p :: p in back ==> BackwardOk(h, jdx, p))
    && TextInv(h, mss)
  }

  // ---------- The sender's side ----------

  lemma {:induction false} ParseUnaDrops(buf: seq<Numbered>, idx: seq<nat>, pieces: seq<Piece>, u: nat) returns (k: nat)
    requires Lists(buf, idx, pieces)
    requires forall i :: 0 <= i < |idx| ==> -HALF < u - idx[i] < HALF
    ensures k <= |buf| && ParseUna(buf, Word(u)) == buf[k..]
    ensures forall i :: 0 <= i < k ==> idx[i] < u
    ensures forall i :: k <= i < |idx| ==> u <= idx[i]
    decreases |buf|
  {
    if buf == [] {
      k := 0;
    } else {
      DiffExact(u, idx[0]);
      if idx[0] < u {
        k := ParseUnaDrops(buf[1..], idx[1..], pieces, u);
        k := k + 1;
        assert buf[1..][k - 1..] == buf[k..];
      } else {
        k := 0;
      }
    }
  }

  lemma SenderUna(s: Sender, h: History, una: nat, idx: seq<nat>, sndWnd: nat, u: nat)
    returns (una': nat, idx': seq<nat>)
    requires SenderInv(s, h, una, idx, sndWnd)
    requires u <= h.nxt <= u + LIMIT
    ensures SenderInv(AfterUna(s, Word(u)), h, una', idx', sndWnd)
    ensures forall n :: n in idx' <==> n in idx && u <= n
  {
    hide Word, Lists, ParseUna;
    var k := ParseUnaDrops(s.buf, idx, h.pieces, u);
    ListsDrop(s.buf, idx, h.pieces, k);
    idx' := idx[k..];
    una' := if idx' != [] then idx'[0] else h.nxt;
    assert forall i :: 0 <= i < |idx'| ==> idx'[i] == idx[k + i];
    SplitAt(idx, k, u);
  }

  lemma SplitAt(idx: seq<nat>, k: nat, u: nat)
    requires k <= |idx| && (forall i :: 0 <= i < k ==> idx[i] < u) && forall i :: k <= i < |idx| ==> u <= idx[i]
    ensures forall n :: n in idx[k..] <==> n in idx && u <= n
  {
    forall n | n in idx && u <= n
      ensures n in idx[k..]
    {
      var i :| 0 <= i < |idx| && idx[i] == n;
      assert idx[k..][i - k] == n;
    }
    forall n | n in idx[k..]
      ensures n in idx && u <= n
    {
      var i :| 0 <= i < |idx[k..]| && idx[k..][i] == n;
      assert idx[k + i] == n;
    }
  }

  lemma ListsDrop(buf: seq<Numbered>, idx: seq<nat>, pieces: seq<Piece>, k: nat)
    requires Lists(buf, idx, pieces) && k <= |buf|
    ensures |idx| == |buf| && Lists(buf[k..], idx[k..], pieces) && Ascending(idx[k..])
    ensures forall n :: n in idx ==> n in idx[..k] || n in idx[k..]
    ensures k < |buf| ==> buf[k].sn == Word(idx[k])
  {
    hide Word;
    assert idx == idx[..k] + idx[k..];
  }

  /** Whatever the sender forgets, the invariant stands if the receiver has it. */
  lemma SenderForgets(s: Sender, r: Receiver, h: History, fwd: set<Packet>, back: set<Packet>, mss: nat, sndWnd: nat,
                      una: nat, idx: seq<nat>, jdx: seq<nat>, acks: seq<nat>, s': Sender, una': nat, idx': seq<nat>)
    requires mss > 0 && Inv(s, r, h, fwd, back, mss, sndWnd, una, idx, jdx, acks)
    requires SenderInv(s', h, una', idx', sndWnd)
    requires forall n :: n in idx ==> n in idx' || Received(h, jdx, n)
    ensures Inv(s', r, h, fwd, back, mss, sndWnd, una', idx', jdx, acks)
  {
    hide SenderInv, ReceiverInv, AcksInv, TextInv, ForwardOk, BackwardOk;
  }

  /** A cumulative acknowledgement of u, in the order parse_una and shrink_buf take it: of the numbers
      outstanding exactly those before u leave. */
  lemma UnaStep(s: Sender, r: Receiver, h: History, fwd: set<Packet>, back: set<Packet>, mss: nat, sndWnd: nat,
                una: nat, idx: seq<nat>, jdx: seq<nat>, acks: seq<nat>, u: nat)
    returns (una': nat, idx': seq<nat>)
    requires mss > 0 && Inv(s, r, h, fwd, back, mss, sndWnd, una, idx, jdx, acks)
    requires u <= h.rcv && h.nxt <= u + LIMIT
    ensures Inv(AfterUna(s, Word(u)), r, h, fwd, back, mss, sndWnd, una', idx', jdx, acks)
    ensures forall n :: n in idx' <==> n in idx && u <= n
  {
    hide SenderInv, AcksInv, TextInv, NoLoss, ForwardOk, BackwardOk, Word, AfterUna;
    una', idx' := SenderUna(s, h, una, idx, sndWnd, u);
    SenderForgets(s, r, h, fwd, back, mss, sndWnd, una, idx, jdx, acks, AfterUna(s, Word(u)), una', idx');
  }

  lemma ListsTail(buf: seq<Numbered>, idx: seq<nat>, pieces: seq<Piece>)
    requires Lists(buf, idx, pieces) && buf != []
    ensures Lists(buf[1..], idx[1..], pieces)
    ensures idx[0] < |pieces| && buf[0] == Numbered(Word(idx[0]), pieces[idx[0]])
    ensures forall m :: m in idx[1..] ==> idx[0] < m
    ensures forall m :: m in idx <==> m == idx[0] || m in idx[1..]
  {
  }

  lemma ListsPrepend(buf: seq<Numbered>, idx: seq<nat>, pieces: seq<Piece>, n: nat)
    requires Lists(buf, idx, pieces) && n < |pieces|
    requires forall m :: m in idx ==> n < m
    ensures Lists([Numbered(Word(n), pieces[n])] + buf, [n] + idx, pieces)
    ensures forall m :: m in [n] + idx <==> m == n || m in idx
  {
    assert forall i :: 0 <= i < |idx| ==> idx[i] in idx;
  }

  lemma {:induction false} RemovedDrops(buf: seq<Numbered>, idx: seq<nat>, pieces: seq<Piece>, n: nat)
    returns (idx': seq<nat>)
    requires Lists(buf, idx, pieces)
    requires forall m :: m in idx ==> -WRAP < n - m < WRAP
    ensures Lists(Removed(buf, Word(n)), idx', pieces)
    ensures forall m :: m in idx' <==> m in idx && m != n
    decreases |buf|
  {
    hide Lists, Word;
    ListsSize(buf, idx, pieces);
    if buf == [] {
      idx' := [];
    } else {
      ListsTail(buf, idx, pieces);
      if buf[0].sn == Word(n) {
        assert idx[0] in idx;
        WordInjective(n, idx[0]);
        idx' := idx[1..];
      } else {
        var rest := RemovedDrops(buf[1..], idx[1..], pieces, n);
        ListsPrepend(Removed(buf[1..], Word(n)), rest, pieces, idx[0]);
        idx' := [idx[0]] + rest;
      }
    }
  }

  lemma SenderAck(s: Sender, h: History, una: nat, idx: seq<nat>, sndWnd: nat, n: nat)
    returns (una': nat, idx': seq<nat>)
    requires SenderInv(s, h, una, idx, sndWnd)
    requires n < h.nxt <= n + LIMIT
    ensures SenderInv(AfterAck(s, Word(n)), h, una', idx', sndWnd)
    ensures forall m :: m in idx' <==> m in idx && m != n
  {
    hide Word, Diff;
    DiffExact(n, una);
    DiffExact(n, h.nxt);
    if n < una {
      assert forall m :: m in idx ==> una <= m;
      una', idx' := una, idx;
    } else {
      idx' := RemovedDrops(s.buf, idx, h.pieces, n);
      una' := if idx' != [] then idx'[0] else h.nxt;
      assert forall i :: 0 <= i < |idx'| ==> idx'[i] in idx';
    }
  }

  /** A selective acknowledgement of a received number n: of the numbers outstanding exactly n
      leaves, if it was among them. */
  lemma AckStep(s: Sender, r: Receiver, h: History, fwd: set<Packet>, back: set<Packet>, mss: nat, sndWnd: nat,
                una: nat, idx: seq<nat>, jdx: seq<nat>, acks: seq<nat>, n: nat)
    returns (una': nat, idx': seq<nat>)
    requires mss > 0 && Inv(s, r, h, fwd, back, mss, sndWnd, una, idx, jdx, acks)
    requires Received(h, jdx, n) && h.nxt <= n + LIMIT
    ensures Inv(AfterAck(s, Word(n)), r, h, fwd, back, mss, sndWnd, una', idx', jdx, acks)
    ensures forall m :: m in idx' <==> m in idx && m != n
  {
    hide SenderInv, AcksInv, TextInv, NoLoss, ForwardOk, BackwardOk, Word, AfterAck;
    ReceivedWasNumbered(r, h, jdx, n);
    una', idx' := SenderAck(s, h, una, idx, sndWnd, n);
    SenderForgets(s, r, h, fwd, back, mss, sndWnd, una, idx, jdx, acks, AfterAck(s, Word(n)), una', idx');
  }

  lemma ReceivedWasNumbered(r: Receiver, h: History, jdx: seq<nat>, n: nat)
    requires ReceiverInv(r, h, jdx) && Received(h, jdx, n)
    ensures n < h.nxt
  {
  }

  // ---------- The receiver's side ----------

  /** Advance takes the run of pieces that continue the queue, as far as it has room. */
  lemma {:induction false} AdvanceInv(r: Receiver, h: History, jdx: seq<nat>) returns (rcv: nat, jdx': seq<nat>)
    requires ReceiverInv(r, h, jdx)
    ensures rcv >= h.rcv && ReceiverInv(Advance(r), h.(rcv := rcv), jdx')
    ensures forall n :: Received(h.(rcv := rcv), jdx', n) <==> Received(h, jdx, n)
    ensures Advance(r).acks == r.acks && Advance(r).wnd == r.wnd
    decreases |r.buf|
  {
    if r.buf != [] && r.buf[0].sn == r.nxt && |r.queue| < r.wnd {
      WordInjective(jdx[0], h.rcv);
      var r1 := r.(nxt := Word(r.nxt + 1), buf := r.buf[1..], queue := r.queue + [r.buf[0].piece]);
      var h1 := h.(rcv := h.rcv + 1);
      WordOfWord(h.rcv, 1);
      assert h.pieces[h.read..h.rcv + 1] == h.pieces[h.read..h.rcv] + [h.pieces[h.rcv]];
      assert forall n :: n in jdx <==> n == jdx[0] || n in jdx[1..];
      rcv, jdx' := AdvanceInv(r1, h1, jdx[1..]);
      assert h1.(rcv := rcv) == h.(rcv := rcv);
    } else {
      rcv, jdx' := h.rcv, jdx;
      assert h.(rcv := rcv) == h;
    }
  }

  lemma {:induction false} AdvanceStops(r: Receiver)
    ensures var r' := Advance(r);
      r'.buf == [] || r'.buf[0].sn != r'.nxt || |r'.queue| >= r'.wnd
    decreases |r.buf|
  {
    if r.buf != [] && r.buf[0].sn == r.nxt && |r.queue| < r.wnd {
      AdvanceStops(r.(nxt := Word(r.nxt + 1), buf := r.buf[1..], queue := r.queue + [r.buf[0].piece]));
    }
  }

  /** Where it stops, the queue is full or the next piece has not come. */
  lemma AdvanceIsMaximal(r: Receiver, h: History, jdx: seq<nat>) returns (rcv: nat, jdx': seq<nat>)
    requires ReceiverInv(r, h, jdx)
    ensures rcv >= h.rcv && ReceiverInv(Advance(r), h.(rcv := rcv), jdx')
    ensures forall n :: Received(h.(rcv := rcv), jdx', n) <==> Received(h, jdx, n)
    ensures |Advance(r).queue| < r.wnd ==> !Received(h.(rcv := rcv), jdx', rcv)
  {
    hide ReceiverInv, Advance, Received;
    rcv, jdx' := AdvanceInv(r, h, jdx);
    AdvanceStops(r);
    NextIsMissing(Advance(r), h.(rcv := rcv), jdx');
  }

  lemma NextIsMissing(r: Receiver, h: History, jdx: seq<nat>)
    requires ReceiverInv(r, h, jdx)
    ensures r.buf == [] || r.buf[0].sn != r.nxt ==> !Received(h, jdx, h.rcv)
  {
    hide Word;
  }

  lemma ListsAppend(buf: seq<Numbered>, jdx: seq<nat>, pieces: seq<Piece>, n: nat)
    requires Lists(buf, jdx, pieces) && n < |pieces|
    requires forall m :: m in jdx ==> m < n
    ensures Lists(buf + [Numbered(Word(n), pieces[n])], jdx + [n], pieces)
    ensures forall m :: m in jdx + [n] <==> m in jdx || m == n
  {
    assert forall i :: 0 <= i < |jdx| ==> jdx[i] in jdx;
  }

  lemma ListsLast(buf: seq<Numbered>, jdx: seq<nat>, pieces: seq<Piece>)
    requires Lists(buf, jdx, pieces) && buf != []
    ensures var last := |buf| - 1;
      && Lists(buf[..last], jdx[..last], pieces) && jdx[last] < |pieces|
      && buf[last] == Numbered(Word(jdx[last]), pieces[jdx[last]])
      && jdx[last] in jdx
      && (forall m :: m in jdx[..last] ==> m < jdx[last])
      && (forall m :: m in jdx <==> m in jdx[..last] || m == jdx[last])
  {
    assert jdx == jdx[..|buf| - 1] + [jdx[|buf| - 1]];
  }

  lemma {:induction false} InsertedInv(buf: seq<Numbered>, jdx: seq<nat>, pieces: seq<Piece>, n: nat)
    returns (jdx': seq<nat>)
    requires Lists(buf, jdx, pieces) && n < |pieces|
    requires forall m :: m in jdx ==> -HALF < n - m < HALF
    ensures Lists(Inserted(buf, Numbered(Word(n), pieces[n])), jdx', pieces)
    ensures forall m :: m in jdx' <==> m in jdx || m == n
    decreases |buf|
  {
    hide Lists, Word, Diff;
    ListsSize(buf, jdx, pieces);
    if buf == [] {
      ListsAppend(buf, jdx, pieces, n);
      jdx' := jdx + [n];
      assert Inserted(buf, Numbered(Word(n), pieces[n])) == buf + [Numbered(Word(n), pieces[n])];
    } else {
      var last := |buf| - 1;
      ListsLast(buf, jdx, pieces);
      DiffExact(n, jdx[last]);
      if buf[last].sn == Word(n) {
        WordInjective(n, jdx[last]);
        jdx' := jdx;
      } else if n > jdx[last] {
        ListsAppend(buf, jdx, pieces, n);
        jdx' := jdx + [n];
      } else {
        var front := InsertedInv(buf[..last], jdx[..last], pieces, n);
        ListsAppend(Inserted(buf[..last], Numbered(Word(n), pieces[n])), front, pieces, jdx[last]);
        jdx' := front + [jdx[last]];
      }
    }
  }

  lemma ListsSize(buf: seq<Numbered>, jdx: seq<nat>, pieces: seq<Piece>)
    requires Lists(buf, jdx, pieces)
    ensures |jdx| == |buf|
  {
  }

  /** The sender is never ahead of what the receiver can place. */
  lemma AheadBounded(s: Sender, r: Receiver, h: History, fwd: set<Packet>, back: set<Packet>, mss: nat, sndWnd: nat,
                     una: nat, idx: seq<nat>, jdx: seq<nat>, acks: seq<nat>)
    requires mss > 0 && Inv(s, r, h, fwd, back, mss, sndWnd, una, idx, jdx, acks)
    ensures una <= h.rcv + r.wnd && h.nxt <= h.rcv + r.wnd + sndWnd
  {
    if una > 0 {
      assert una - 1 < h.nxt;
      assert una - 1 !in idx;
      assert Received(h, jdx, una - 1);
    }
  }

  /** On which side of the window a number lies, as the code's comparisons see it. */
  lemma WindowTests(r: Receiver, h: History, jdx: seq<nat>, n: nat)
    requires ReceiverInv(r, h, jdx) && h.rcv <= n + LIMIT && n < h.rcv + r.wnd + LIMIT
    ensures Diff(Word(n), Word(r.nxt + r.wnd)) < 0 <==> n < h.rcv + r.wnd
    ensures Diff(Word(n), r.nxt) < 0 <==> n < h.rcv
  {
    WordOfWord(h.rcv, r.wnd);
    DiffExact(n, h.rcv + r.wnd);
    DiffExact(n, h.rcv);
  }

  lemma ReceiverLists(r: Receiver, h: History, jdx: seq<nat>)
    requires ReceiverInv(r, h, jdx)
    ensures Lists(r.buf, jdx, h.pieces) && h.nxt <= |h.pieces| && 0 < r.wnd <= LIMIT && h.rcv <= h.nxt
    ensures forall m :: m in jdx ==> h.rcv <= m < h.rcv + r.wnd && m < h.nxt
  {
  }

  lemma ReceiverHolds(r: Receiver, h: History, jdx: seq<nat>, buf: seq<Numbered>, jdx': seq<nat>)
    requires ReceiverInv(r, h, jdx) && Lists(buf, jdx', h.pieces)
    requires forall m :: m in jdx' ==> h.rcv <= m < h.rcv + r.wnd && m < h.nxt
    ensures ReceiverInv(r.(buf := buf), h, jdx')
  {
    assert forall i :: 0 <= i < |jdx'| ==> jdx'[i] in jdx';
  }

  /** parse_data of a number inside the window: the piece is held afterwards. */
  lemma DataStep(r: Receiver, h: History, jdx: seq<nat>, n: nat) returns (rcv: nat, jdx': seq<nat>)
    requires ReceiverInv(r, h, jdx) && h.rcv <= n < h.nxt && n < h.rcv + r.wnd
    ensures n < |h.pieces|
    ensures rcv >= h.rcv && ReceiverInv(ParseData(r, Numbered(Word(n), h.pieces[n])), h.(rcv := rcv), jdx')
    ensures forall m :: Received(h.(rcv := rcv), jdx', m) <==> Received(h, jdx, m) || m == n
    ensures ParseData(r, Numbered(Word(n), h.pieces[n])).acks == r.acks
    ensures ParseData(r, Numbered(Word(n), h.pieces[n])).wnd == r.wnd
  {
    hide ReceiverInv, Lists, Word, Diff, Advance, Inserted;
    WindowTests(r, h, jdx, n);
    ReceiverLists(r, h, jdx);
    var x := Numbered(Word(n), h.pieces[n]);
    var jdx1 := InsertedInv(r.buf, jdx, h.pieces, n);
    ReceiverHolds(r, h, jdx, Inserted(r.buf, x), jdx1);
    rcv, jdx' := AdvanceInv(r.(buf := Inserted(r.buf, x)), h, jdx1);
  }

  /** Whatever the receiver does, the invariant stands if it only gains pieces. */
  lemma ReceiverGains(s: Sender, r: Receiver, h: History, fwd: set<Packet>, back: set<Packet>, mss: nat, sndWnd: nat,
                      una: nat, idx: seq<nat>, jdx: seq<nat>, acks: seq<nat>,
                      r': Receiver, rcv: nat, jdx': seq<nat>, acks': seq<nat>)
    requires mss > 0 && Inv(s, r, h, fwd, back, mss, sndWnd, una, idx, jdx, acks)
    requires rcv >= h.rcv && ReceiverInv(r', h.(rcv := rcv), jdx')
    requires forall m: nat :: Received(h, jdx, m) ==> Received(h.(rcv := rcv), jdx', m)
    requires AcksInv(r', h.(rcv := rcv), jdx', acks')
    ensures Inv(s, r', h.(rcv := rcv), fwd, back, mss, sndWnd, una, idx, jdx', acks')
  {
    hide ReceiverInv, Lists;
    var h' := h.(rcv := rcv);
    assert forall p :: p in fwd ==> ForwardOk(h, p) ==> ForwardOk(h', p);
  }

  /** A pushed piece n is acknowledged, once for each time it comes, exactly when its number lies
      before the end of the receive window; then the receiver has it, and nothing else changes
      hands. Beyond the window it leaves no trace. */
  lemma PushStep(s: Sender, r: Receiver, h: History, fwd: set<Packet>, back: set<Packet>, mss: nat, sndWnd: nat,
                 una: nat, idx: seq<nat>, jdx: seq<nat>, acks: seq<nat>, n: nat)
    returns (rcv: nat, jdx': seq<nat>, acks': seq<nat>)
    requires mss > 0 && Inv(s, r, h, fwd, back, mss, sndWnd, una, idx, jdx, acks)
    requires n < h.nxt <= n + LIMIT
    ensures n < |h.pieces| && rcv >= h.rcv
    ensures Inv(s, AfterPush(r, Numbered(Word(n), h.pieces[n])), h.(rcv := rcv), fwd, back, mss, sndWnd, una, idx, jdx',
      acks')
    ensures forall m :: Received(h.(rcv := rcv), jdx', m) <==> Received(h, jdx, m) || (m == n && n < h.rcv + r.wnd)
    ensures acks' == if n < h.rcv + r.wnd then acks + [n] else acks
    ensures var r' := AfterPush(r, Numbered(Word(n), h.pieces[n]));
      && r'.acks == (if n < h.rcv + r.wnd then r.acks + [Word(n)] else r.acks)
      && r'.wnd == r.wnd
      && (n >= h.rcv + r.wnd ==> r' == r)
  {
    hide ReceiverInv, SenderInv, Lists, Word, Diff, ParseData, NoLoss, TextInv, Received;
    AheadBounded(s, r, h, fwd, back, mss, sndWnd, una, idx, jdx, acks);
    SenderBounds(s, h, una, idx, sndWnd);
    ReceiverLists(r, h, jdx);
    WindowTests(r, h, jdx, n);
    rcv, jdx', acks' := h.rcv, jdx, acks;
    assert h.(rcv := h.rcv) == h;
    if n < h.rcv + r.wnd {
      acks' := acks + [n];
      var acked := r.(acks := r.acks + [Word(n)]);
      AcksDoNotMatter(r, acked.acks, h, jdx);
      if n >= h.rcv {
        rcv, jdx' := DataStep(acked, h, jdx, n);
      } else {
        ReceivedBefore(h, jdx, n);
      }
      ReceiverGains(s, r, h, fwd, back, mss, sndWnd, una, idx, jdx, acks, AfterPush(r, Numbered(Word(n), h.pieces[n])),
        rcv, jdx', acks');
    }
  }

  lemma ReceivedBefore(h: History, jdx: seq<nat>, n: nat)
    requires n < h.rcv
    ensures Received(h, jdx, n)
  {
  }

  lemma SenderBounds(s: Sender, h: History, una: nat, idx: seq<nat>, sndWnd: nat)
    requires SenderInv(s, h, una, idx, sndWnd)
    ensures una <= h.nxt <= |h.pieces| && h.nxt - una <= sndWnd <= LIMIT
  {
  }

  lemma AcksDoNotMatter(r: Receiver, acks: seq<u32>, h: History, jdx: seq<nat>)
    requires ReceiverInv(r, h, jdx)
    ensures ReceiverInv(r.(acks := acks), h, jdx)
  {
  }
}
