/** Fragmentation in toxtun-go/kcp.go: a message cut by Send and joined by Recv. */
module KcpMessages {
  import opened Words
  import opened KcpSpec
  import opened KcpDirection

  lemma {:induction false} FragmentsCount(mss: nat, b: seq<u8>, count: nat)
    requires mss > 0 && count <= 255
    ensures forall i :: 0 <= i < count ==> Fragments(mss, b, count)[i].frg == count - 1 - i
    ensures forall i :: 0 <= i < count ==> |Fragments(mss, b, count)[i].data| <= mss
    decreases count
  {
    if count > 0 {
      var size := if |b| > mss then mss else |b|;
      FragmentsCount(mss, b[size..], count - 1);
    }
  }

  lemma JoinedFirst(p: Piece, rest: seq<Piece>)
    ensures Joined([p] + rest) == p.data + Joined(rest)
  {
    assert ([p] + rest)[1..] == rest;
  }

  lemma FragmentsStep(mss: nat, b: seq<u8>, count: nat)
    requires mss > 0 && 0 < count <= 255
    ensures var size := if |b| > mss then mss else |b|;
      Fragments(mss, b, count) == [Piece(count - 1, b[..size])] + Fragments(mss, b[size..], count - 1)
  {
  }

  lemma {:induction false} FragmentsJoin(mss: nat, b: seq<u8>, count: nat)
    requires mss > 0 && count <= 255 && |b| <= count * mss
    ensures Joined(Fragments(mss, b, count)) == b
    decreases count
  {
    hide Joined, Fragments;
    if count == 0 {
      NoFragments(mss, b);
    } else {
      var size := if |b| > mss then mss else |b|;
      assert count * mss == (count - 1) * mss + mss;
      assert (count - 1) * mss >= 0;
      FragmentsStep(mss, b, count);
      FragmentsJoin(mss, b[size..], count - 1);
      JoinedFirst(Piece(count - 1, b[..size]), Fragments(mss, b[size..], count - 1));
      assert b == b[..size] + b[size..];
    }
  }

  lemma NoFragments(mss: nat, b: seq<u8>)
    requires mss > 0
    ensures Joined(Fragments(mss, b, 0)) == []
  {
  }

  lemma CountCovers(mss: nat, length: nat)
    requires mss > 0
    ensures length <= FragmentCount(mss, length) * mss && FragmentCount(mss, length) > 0
  {
    if length >= mss {
      Ceiling(length, mss);
    }
  }

  lemma Ceiling(a: nat, b: nat)
    requires 0 < b <= a
    ensures a <= ((a + b - 1) / b) * b && (a + b - 1) / b > 0
  {
    var q := (a + b - 1) / b;
    assert a + b - 1 == q * b + (a + b - 1) % b;
    assert q > 0 by { QuotientPositive(q, b, a); }
  }

  lemma QuotientPositive(q: int, b: nat, a: nat)
    requires 0 < a <= q * b
    ensures q > 0
  {
  }

  /** An accepted message becomes 1 to 255 fragments of at most mss bytes that count down to
      0 and join to the message. */
  lemma MessageShape(mss: nat, b: seq<u8>)
    requires mss > 0 && SendResult(mss, b) == 0
    ensures var ps := MessagePieces(mss, b);
      && 0 < |ps| <= 255 && Joined(ps) == b
      && (forall i :: 0 <= i < |ps| ==> ps[i].frg == |ps| - 1 - i && |ps[i].data| <= mss)
  {
    var count := FragmentCount(mss, |b|);
    CountCovers(mss, |b|);
    FragmentsCount(mss, b, count);
    FragmentsJoin(mss, b, count);
  }

  /** Send refuses the empty message and what does not fit 255 fragments, and nothing else. */
  lemma SendAnswers(mss: nat, b: seq<u8>)
    requires mss > 0
    ensures SendResult(mss, b) == if |b| == 0 then -1 else if |b| > 255 * mss then -2 else 0
  {
    CountIs(mss, |b|);
    var n := FragmentCount(mss, |b|);
    if n > 255 {
      Multiples(255, n - 1, mss);
    } else {
      Multiples(n, 255, mss);
    }
  }

  lemma Multiples(a: nat, b: nat, m: nat)
    requires a <= b
    ensures a * m <= b * m
  {
  }

  /** The least number of fragments that hold the message. */
  lemma CountIs(mss: nat, length: nat)
    requires mss > 0
    ensures FragmentCount(mss, length) >= 1 && length <= FragmentCount(mss, length) * mss
    ensures FragmentCount(mss, length) > 1 ==> (FragmentCount(mss, length) - 1) * mss < length
  {
    var n := (length + mss - 1) / mss;
    QuotientOf(length + mss - 1, mss);
    Distributes(n, mss);
  }

  lemma QuotientOf(a: nat, m: nat)
    requires m > 0
    ensures a / m * m <= a < a / m * m + m
  {
  }

  lemma Distributes(n: nat, m: nat)
    ensures (n - 1) * m == n * m - m && (n + 1) * m == n * m + m
  {
  }

  /** Every fragment but the last is full, and none is empty. */
  lemma FragmentsAreFull(mss: nat, b: seq<u8>)
    requires mss > 0 && SendResult(mss, b) == 0
    ensures var ps := MessagePieces(mss, b);
      && (forall i :: 0 <= i < |ps| - 1 ==> |ps[i].data| == mss)
      && |ps| > 0 && 0 < |ps[|ps| - 1].data| <= mss
  {
    CountIs(mss, |b|);
    FullUntilLast(mss, b, FragmentCount(mss, |b|));
  }

  lemma {:induction false} FullUntilLast(mss: nat, b: seq<u8>, count: nat)
    requires mss > 0 && 0 < count <= 255 && 0 < |b| <= count * mss && (count - 1) * mss < |b|
    ensures var ps := Fragments(mss, b, count);
      && (forall i :: 0 <= i < count - 1 ==> |ps[i].data| == mss)
      && 0 < |ps[count - 1].data| <= mss
    decreases count
  {
    Distributes(count, mss);
    if count > 1 {
      Distributes(count - 1, mss);
      Multiples(1, count - 1, mss);
      FullUntilLast(mss, b[mss..], count - 1);
      var ps, rest := Fragments(mss, b, count), Fragments(mss, b[mss..], count - 1);
      assert ps[1..] == rest;
      forall i | 0 <= i < count - 1
        ensures |ps[i].data| == mss
      {
        assert i > 0 ==> ps[i] == rest[i - 1];
      }
      assert ps[count - 1] == rest[count - 2];
    }
  }

  lemma {:induction false} FirstCountIs(queue: seq<Piece>, c: nat)
    requires 0 < c <= |queue|
    requires forall i :: 0 <= i < c ==> queue[i].frg == c - 1 - i
    ensures FirstCount(queue) == c
    decreases c
  {
    if c > 1 {
      FirstCountIs(queue[1..], c - 1);
    }
  }

  lemma {:induction false} PiecesPrefix(mss: nat, msgs: seq<seq<u8>>, d: nat)
    requires mss > 0 && d <= |msgs|
    ensures AllPieces(mss, msgs[..d]) <= AllPieces(mss, msgs)
    decreases |msgs|
  {
    if d < |msgs| {
      var front := msgs[..|msgs| - 1];
      PiecesPrefix(mss, front, d);
      assert front[..d] == msgs[..d];
    } else {
      assert msgs[..d] == msgs;
    }
  }

  /** Where message d starts in the pieces of all messages. */
  lemma PiecesOfMessage(mss: nat, msgs: seq<seq<u8>>, d: nat)
    requires mss > 0 && d < |msgs|
    ensures var start, c := |AllPieces(mss, msgs[..d])|, |MessagePieces(mss, msgs[d])|;
      && |AllPieces(mss, msgs[..d + 1])| == start + c <= |AllPieces(mss, msgs)|
      && AllPieces(mss, msgs)[start..start + c] == MessagePieces(mss, msgs[d])
  {
    hide MessagePieces;
    PiecesPrefix(mss, msgs, d + 1);
    assert msgs[..d + 1][..d] == msgs[..d];
  }

  /** The unread pieces start with those of the next message, when there is one. */
  lemma NextMessageRead(r: Receiver, h: History, jdx: seq<nat>, mss: nat)
    requires mss > 0 && ReceiverInv(r, h, jdx) && TextInv(h, mss) && r.queue != []
    ensures |h.delivered| < |h.msgs| && SendResult(mss, h.msgs[|h.delivered|]) == 0
    ensures var ps := MessagePieces(mss, h.msgs[|h.delivered|]);
      h.read + |ps| <= |h.pieces| && h.pieces[h.read..h.read + |ps|] == ps
  {
    hide Lists, MessagePieces, SendResult;
    MessagesLeft(h, mss);
    PiecesOfMessage(mss, h.msgs, |h.delivered|);
  }

  lemma MessagesLeft(h: History, mss: nat)
    requires mss > 0 && TextInv(h, mss)
    ensures h.read < |h.pieces| ==> |h.delivered| < |h.msgs|
  {
    if |h.delivered| == |h.msgs| {
      assert h.msgs[..|h.delivered|] == h.msgs;
    }
  }

  lemma QueuePrefix(r: Receiver, h: History, jdx: seq<nat>, ps: seq<Piece>)
    requires ReceiverInv(r, h, jdx) && r.queue != [] && ps != []
    requires h.read + |ps| <= |h.pieces| && h.pieces[h.read..h.read + |ps|] == ps
    ensures r.queue[0] == ps[0]
    ensures |ps| <= |r.queue| ==> r.queue[..|ps|] == ps
  {
    hide Lists;
    assert r.queue[0] == h.pieces[h.read];
    assert ps[0] == h.pieces[h.read];
    if |ps| <= |r.queue| {
      assert h.pieces[h.read..h.rcv][..|ps|] == h.pieces[h.read..h.read + |ps|];
    }
  }

  lemma QueueCounts(queue: seq<Piece>, ps: seq<Piece>)
    requires 0 < |ps| <= |queue| && queue[..|ps|] == ps
    requires forall i :: 0 <= i < |ps| ==> ps[i].frg == |ps| - 1 - i
    ensures FirstCount(queue) == |ps|
  {
    assert forall i :: 0 <= i < |ps| ==> queue[i] == ps[i];
    FirstCountIs(queue, |ps|);
  }

  /** What a successful Recv copies out is the next message, whole. */
  lemma RecvIsNextMessage(r: Receiver, h: History, jdx: seq<nat>, mss: nat, capacity: nat)
    requires mss > 0 && ReceiverInv(r, h, jdx) && TextInv(h, mss)
    requires RecvResult(r, capacity) >= 0
    ensures |h.delivered| < |h.msgs|
    ensures var m := h.msgs[|h.delivered|];
      && Joined(r.queue[..FirstCount(r.queue)]) == m && RecvResult(r, capacity) == |m| <= capacity
      && FirstCount(r.queue) == |MessagePieces(mss, m)|
  {
    hide ReceiverInv, TextInv, MessagePieces, SendResult, FirstCount, Joined;
    NextMessageRead(r, h, jdx, mss);
    var m := h.msgs[|h.delivered|];
    var ps := MessagePieces(mss, m);
    MessageShape(mss, m);
    QueuePrefix(r, h, jdx, ps);
    QueueCounts(r.queue, ps);
  }

  /** What Recv answers: -1 when nothing is in order, -2 while a piece of the next message is missing,
      -3 when it is larger than the buffer, and otherwise its length. */
  lemma RecvAnswers(r: Receiver, h: History, jdx: seq<nat>, mss: nat, capacity: nat)
    requires mss > 0 && ReceiverInv(r, h, jdx) && TextInv(h, mss)
    ensures r.queue == [] <==> h.rcv == h.read
    ensures r.queue == [] ==> RecvResult(r, capacity) == -1
    ensures r.queue != [] ==>
      && |h.delivered| < |h.msgs|
      && var m := h.msgs[|h.delivered|];
         RecvResult(r, capacity) == if h.rcv < h.read + |MessagePieces(mss, m)| then -2
           else if |m| > capacity then -3 else |m|
  {
    hide Lists, TextInv, MessagePieces, SendResult, FirstCount, Joined;
    if r.queue != [] {
      NextMessageRead(r, h, jdx, mss);
      var m := h.msgs[|h.delivered|];
      var ps := MessagePieces(mss, m);
      MessageShape(mss, m);
      QueuePrefix(r, h, jdx, ps);
      if |ps| <= |r.queue| {
        QueueCounts(r.queue, ps);
      }
    }
  }

  /** A successful Recv leaves in the reorder buffer only what does not continue the queue or has no
      room in it. */
  lemma RecvDrains(r: Receiver, capacity: nat)
    requires RecvResult(r, capacity) >= 0
    ensures var r' := AfterRecv(r, capacity);
      r'.buf == [] || r'.buf[0].sn != r'.nxt || |r'.queue| >= r'.wnd
  {
    hide Advance, RecvResult, FirstCount;
    AdvanceStops(r.(queue := r.queue[FirstCount(r.queue)..]));
  }

  /** Recv: the user is given the next message and the receiver moves on, or nothing changes. */
  lemma RecvStep(s: Sender, r: Receiver, h: History, fwd: set<Packet>, back: set<Packet>, mss: nat, sndWnd: nat,
                 una: nat, idx: seq<nat>, jdx: seq<nat>, acks: seq<nat>, capacity: nat)
    returns (h': History, jdx': seq<nat>)
    requires mss > 0 && Inv(s, r, h, fwd, back, mss, sndWnd, una, idx, jdx, acks)
    requires RecvResult(r, capacity) >= 0
    ensures Inv(s, AfterRecv(r, capacity), h', fwd, back, mss, sndWnd, una, idx, jdx', acks)
    ensures h'.delivered == h.delivered + [Joined(r.queue[..FirstCount(r.queue)])]
    ensures h'.msgs == h.msgs && h'.pieces == h.pieces && h'.nxt == h.nxt && h'.rcv >= h.rcv
  {
    hide ReceiverInv, SenderInv, Lists, NoLoss, TextInv, Advance, PeekedSize, AcksInv, ForwardOk, BackwardOk;
    RecvIsNextMessage(r, h, jdx, mss, capacity);
    var c := FirstCount(r.queue);
    var h1 := h.(read := h.read + c, delivered := h.delivered + [Joined(r.queue[..c])]);
    var r1 := r.(queue := r.queue[c..]);
    TextMoves(h, mss, h1);
    ReceiverReads(r, h, jdx, r1, h1);
    HistoryReads(s, r, h, fwd, back, mss, sndWnd, una, idx, jdx, acks, r1, h1);
    var rcv;
    rcv, jdx' := AdvanceInv(r1, h1, jdx);
    h' := h1.(rcv := rcv);
    AcksKept(r1, h1, jdx, acks, Advance(r1), h', jdx');
    ReceiverGains(s, r1, h1, fwd, back, mss, sndWnd, una, idx, jdx, acks, Advance(r1), rcv, jdx', acks);
  }

  lemma AcksKept(r: Receiver, h: History, jdx: seq<nat>, acks: seq<nat>, r': Receiver, h': History, jdx': seq<nat>)
    requires AcksInv(r, h, jdx, acks) && r'.acks == r.acks
    requires forall n :: Received(h', jdx', n) <==> Received(h, jdx, n)
    ensures AcksInv(r', h', jdx', acks)
  {
  }

  lemma TextMoves(h: History, mss: nat, h1: History)
    requires mss > 0 && TextInv(h, mss) && |h.delivered| < |h.msgs|
    requires h1 == h.(read := h.read + |MessagePieces(mss, h.msgs[|h.delivered|])|,
      delivered := h.delivered + [h.msgs[|h.delivered|]])
    ensures TextInv(h1, mss)
  {
    hide MessagePieces, SendResult;
    PiecesOfMessage(mss, h.msgs, |h.delivered|);
    assert h.msgs[..|h.delivered| + 1] == h.msgs[..|h.delivered|] + [h.msgs[|h.delivered|]];
  }

  lemma ReceiverReads(r: Receiver, h: History, jdx: seq<nat>, r1: Receiver, h1: History)
    requires ReceiverInv(r, h, jdx)
    requires var c := FirstCount(r.queue);
      r1 == r.(queue := r.queue[c..]) && h1.read == h.read + c && h1.rcv == h.rcv && h1.nxt == h.nxt
        && h1.pieces == h.pieces
    ensures ReceiverInv(r1, h1, jdx)
  {
    var c := FirstCount(r.queue);
    assert h.pieces[h.read..h.rcv][c..] == h.pieces[h.read + c..h.rcv];
  }

  lemma HistoryReads(s: Sender, r: Receiver, h: History, fwd: set<Packet>, back: set<Packet>, mss: nat, sndWnd: nat,
                     una: nat, idx: seq<nat>, jdx: seq<nat>, acks: seq<nat>, r1: Receiver, h1: History)
    requires mss > 0 && Inv(s, r, h, fwd, back, mss, sndWnd, una, idx, jdx, acks)
    requires h1.nxt == h.nxt && h1.rcv == h.rcv && h1.pieces == h.pieces && r1.acks == r.acks
    requires ReceiverInv(r1, h1, jdx) && TextInv(h1, mss)
    ensures Inv(s, r1, h1, fwd, back, mss, sndWnd, una, idx, jdx, acks)
  {
    hide ReceiverInv, Lists, TextInv;
    assert forall p :: ForwardOk(h, p) ==> ForwardOk(h1, p);
    assert forall p :: BackwardOk(h, jdx, p) ==> BackwardOk(h1, jdx, p);
  }

  /** Send: the accepted message's pieces join the end of the queue. */
  lemma SendStep(s: Sender, r: Receiver, h: History, fwd: set<Packet>, back: set<Packet>, mss: nat, sndWnd: nat,
                 una: nat, idx: seq<nat>, jdx: seq<nat>, acks: seq<nat>, b: seq<u8>)
    requires mss > 0 && Inv(s, r, h, fwd, back, mss, sndWnd, una, idx, jdx, acks)
    requires SendResult(mss, b) == 0
    ensures var ps := MessagePieces(mss, b);
      Inv(s.(queue := s.queue + ps), r, h.(msgs := h.msgs + [b], pieces := h.pieces + ps), fwd, back, mss, sndWnd, una,
        idx, jdx, acks)
  {
    hide Lists, MessagePieces, AllPieces;
    var ps := MessagePieces(mss, b);
    var h' := h.(msgs := h.msgs + [b], pieces := h.pieces + ps);
    ListsExtend(s.buf, idx, h.pieces, ps);
    ListsExtend(r.buf, jdx, h.pieces, ps);
    assert (h.pieces + ps)[h.nxt..] == h.pieces[h.nxt..] + ps;
    assert (h.pieces + ps)[h.read..h.rcv] == h.pieces[h.read..h.rcv];
    TextSends(h, mss, b, h');
    assert forall p :: ForwardOk(h, p) ==> ForwardOk(h', p);
  }

  lemma ListsExtend(buf: seq<Numbered>, idx: seq<nat>, pieces: seq<Piece>, ps: seq<Piece>)
    requires Lists(buf, idx, pieces)
    ensures Lists(buf, idx, pieces + ps)
  {
  }

  lemma TextSends(h: History, mss: nat, b: seq<u8>, h': History)
    requires mss > 0 && TextInv(h, mss) && SendResult(mss, b) == 0
    requires h' == h.(msgs := h.msgs + [b], pieces := h.pieces + MessagePieces(mss, b))
    ensures TextInv(h', mss)
  {
    assert (h.msgs + [b])[..|h.msgs|] == h.msgs;
    assert (h.msgs + [b])[..|h.delivered|] == h.msgs[..|h.delivered|];
  }
}
