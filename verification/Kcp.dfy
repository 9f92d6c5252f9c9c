/** The endpoint of toxtun-go/kcp.go. Methods change the fields the way the code does and are
    specified by the functions of KcpSpec, KcpSegments, KcpWire and KcpWindow. */
module Kcp {
  import opened Words
  import opened KcpSpec
  import opened KcpWire
  import opened KcpSegments
  import opened KcpWindow

  const RTO_MAX := 60000
  const PROBE_INIT := 7000
  const PROBE_LIMIT := 120000
  const DEAD := 0xFFFF_FFFF

  method Encode8(p: array<u8>, at: nat, c: u8) returns (next: nat)
    requires at < p.Length
    modifies p
    ensures next == at + 1 && p[..next] == old(p[..at]) + [c]
  {
    p[at] := c;
    next := at + 1;
  }

  method Encode16(p: array<u8>, at: nat, w: u16) returns (next: nat)
    requires at + 2 <= p.Length
    modifies p
    ensures next == at + 2 && p[..next] == old(p[..at]) + Bytes16(w)
  {
    p[at] := w % 256;
    p[at + 1] := w / 256;
    next := at + 2;
  }

  method Encode32(p: array<u8>, at: nat, l: u32) returns (next: nat)
    requires at + 4 <= p.Length
    modifies p
    ensures next == at + 4 && p[..next] == old(p[..at]) + Bytes32(l)
  {
    p[at] := l % 256;
    p[at + 1] := l / 256 % 256;
    p[at + 2] := l / 256 / 256 % 256;
    p[at + 3] := l / 256 / 256 / 256;
    next := at + 4;
  }

  method Copy(p: array<u8>, at: nat, src: seq<u8>)
    requires at + |src| <= p.Length
    modifies p
    ensures p[..at + |src|] == old(p[..at]) + src && p[at + |src|..] == old(p[at + |src|..])
  {
    forall i | 0 <= i < |src| {
      p[at + i] := src[i];
    }
  }

  method EncodeHeader(p: array<u8>, at: nat, conv: u32, w: Wire, length: u32) returns (next: nat)
    requires at + OVERHEAD <= p.Length
    modifies p
    ensures next == at + OVERHEAD && p[..next] == old(p[..at]) + Header(conv, w, length)
  {
    hide Bytes16, Bytes32;
    ghost var was := p[..at];
    next := Encode32(p, at, conv);
    next := Encode8(p, next, w.cmd);
    next := Encode8(p, next, w.frg);
    next := Encode16(p, next, w.wnd);
    next := Encode32(p, next, w.ts);
    next := Encode32(p, next, w.sn);
    next := Encode32(p, next, w.una);
    next := Encode32(p, next, length);
    assert p[..next] == was + Header(conv, w, length);
  }

  method Decode32(p: seq<u8>) returns (rest: seq<u8>, l: u32)
    requires |p| >= 4
    ensures rest == p[4..] && l == Value32(p[..4])
  {
    var b0: int, b1: int, b2: int, b3: int := p[0], p[1], p[2], p[3];
    rest, l := p[4..], b0 + 0x100 * b1 + 0x1_0000 * b2 + 0x100_0000 * b3;
  }

  method Decode16(p: seq<u8>) returns (rest: seq<u8>, w: u16)
    requires |p| >= 2
    ensures rest == p[2..] && w == Value16(p[..2])
  {
    var b0: int, b1: int := p[0], p[1];
    rest, w := p[2..], b0 + 0x100 * b1;
  }

  lemma SlicesCompose(b: seq<u8>, i: nat, j: nat)
    requires i + j <= |b|
    ensures b[i..][j..] == b[i + j..] && b[i..][..j] == b[i..i + j]
  {
  }

  method DecodeHeader(b: seq<u8>) returns (rest: seq<u8>, w: Wire, length: u32)
    requires |b| >= OVERHEAD
    ensures rest == b[OVERHEAD..] && w == HeaderWire(b, []) && length == HeaderLength(b)
  {
    hide Value16, Value32;
    var data := b[4..];
    var cmd, frg := data[0], data[1];
    data := data[2..];
    var wnd, ts, sn, una;
    data, wnd := Decode16(data);
    SlicesCompose(b, 6, 2);
    data, ts := Decode32(data);
    SlicesCompose(b, 8, 4);
    data, sn := Decode32(data);
    SlicesCompose(b, 12, 4);
    data, una := Decode32(data);
    SlicesCompose(b, 16, 4);
    data, length := Decode32(data);
    SlicesCompose(b, 20, 4);
    rest, w := data, Wire(cmd, frg, wnd, ts, sn, una, []);
  }

  /** _ibound_ */
  function Bound(lower: int, middle: int, upper: int): (r: int)
    ensures lower <= upper ==> lower <= r <= upper && (lower <= middle <= upper ==> r == middle)
  {
    var atLeast := if lower <= middle then middle else lower;
    if atLeast <= upper then atLeast else upper
  }

  function Distance(a: int, b: int): (d: nat)
  {
    if a <= b then b - a else a - b
  }

  /** The mean moves an eighth of the way to the sample, rounded down, and stays positive; so it
      lies between both, unless the sample is zero. */
  ghost predicate Averages(mean: int, was: int, sample: int)
  {
    && (mean == 1 || 8 * mean <= 7 * was + sample < 8 * mean + 8) && mean >= 1
    && (sample > 0 ==> (was <= mean <= sample || sample <= mean <= was))
  }

  /** The first sample is taken as it is; of each further one an eighth goes into the mean and a
      quarter of its distance from it into the variation, unless the sums overflow a word; the
      timeout is their sum within its limits. */
  ghost predicate Samples(mean0: u32, varied0: u32, rtt: int, mean: u32, varied: u32, rto: u32, least: u32)
  {
    && (least <= RTO_MAX ==> least <= rto <= RTO_MAX)
    && (mean0 == 0 ==> mean == rtt && varied == rtt / 2)
    && (mean0 > 0 && 7 * mean0 + rtt < WRAP && 3 * varied0 + HALF < WRAP ==>
          Averages(mean, mean0, rtt) && 4 * varied <= 3 * varied0 + Distance(mean0, rtt) < 4 * varied + 4)
    && (4 * varied + mean < WRAP && 0 < varied ==> rto == Bound(least, mean + 4 * varied, RTO_MAX))
  }

  /** What acknowledgements change besides the numbers: the segments in flight with their counts and
      times, and the round-trip estimate. */
  datatype Flight = Flight(buf: seq<Segment>, srtt: u32, rttval: u32, rto: u32)

  /** What a segment that arrives does to them: those its una passes leave; if it acknowledges one in
      flight that one leaves, and each before it was skipped once more; the time it carries back gives
      a sample unless it lies ahead. */
  ghost predicate Follows(x: Flight, w: Wire, y: Flight, now: u32, nxt: u32, least: u32)
  {
    var kept := Unpassed(x.buf, w.una);
    var una := if kept == [] then nxt else kept[0].sn;
    && (y.buf == if w.cmd == ACK && Diff(w.sn, una) >= 0 && Diff(w.sn, nxt) < 0 then Acked(kept, w.sn) else kept)
    && if w.cmd == ACK && Diff(now, w.ts) >= 0
       then Samples(x.srtt, x.rttval, Diff(now, w.ts), y.srtt, y.rttval, y.rto, least)
       else y == x.(buf := y.buf)
  }

  /** One segment after the other. */
  ghost predicate FollowAll(flights: seq<Flight>, ws: seq<Wire>, now: u32, nxt: u32, least: u32)
  {
    && |flights| == |ws| + 1
    && forall k :: 0 <= k < |ws| ==> Follows(flights[k], ws[k], flights[k + 1], now, nxt, least)
  }

  /** The test of each branch, from what una leaves on. */
  lemma Following(x: Flight, w: Wire, una: u32, y: Flight, now: u32, nxt: u32, least: u32)
    requires una == if Unpassed(x.buf, w.una) == [] then nxt else Unpassed(x.buf, w.una)[0].sn
    requires w.cmd == ACK ==> y.buf == if Diff(w.sn, una) < 0 || Diff(w.sn, nxt) >= 0 then Unpassed(x.buf, w.una)
      else Acked(Unpassed(x.buf, w.una), w.sn)
    requires w.cmd != ACK ==> y == x.(buf := Unpassed(x.buf, w.una))
    requires w.cmd == ACK ==> if Diff(now, w.ts) >= 0
      then Samples(x.srtt, x.rttval, Diff(now, w.ts), y.srtt, y.rttval, y.rto, least) else y == x.(buf := y.buf)
    ensures Follows(x, w, y, now, nxt, least)
  {
    hide Samples, Unpassed, Acked, Diff;
  }

  lemma FollowOneMore(flights: seq<Flight>, ws: seq<Wire>, w: Wire, y: Flight, now: u32, nxt: u32, least: u32)
    requires FollowAll(flights, ws, now, nxt, least) && Follows(flights[|ws|], w, y, now, nxt, least)
    ensures FollowAll(flights + [y], ws + [w], now, nxt, least)
  {
    hide Follows;
  }

  lemma MeanMoves(was: u32, sample: int)
    requires 0 <= sample
    ensures 0 < was && 7 * was + sample < WRAP ==>
      var mean := Word(Word(7 * was) + sample) / 8;
      Averages(if mean < 1 then 1 else mean, was, sample)
  {
  }

  lemma VariationMoves(v: u32, mean: u32, sample: int)
    requires 0 <= sample < HALF
    ensures 7 * mean + sample < WRAP && 3 * v + HALF < WRAP ==>
      var delta := Diff(sample, mean);
      var r := Word(Word(3 * v) + (if delta < 0 then -delta else delta)) / 4;
      4 * r <= 3 * v + Distance(mean, sample) < 4 * r + 4
  {
    if 7 * mean + sample < WRAP {
      DiffExact(sample, mean);
      SmallWord(sample);
      SmallWord(mean);
    }
  }

  lemma SmallWord(x: nat)
    ensures x < WRAP ==> Word(x) == x
  {
  }

  lemma TimeoutIs(mean: u32, v: u32, lower: u32)
    ensures 4 * v + mean < WRAP && 0 < v ==>
      var varied := Word(4 * v);
      var rto := Word(mean + if varied < 1 then 1 else varied);
      var atLeast := if rto < lower then lower else rto;
      (if atLeast > RTO_MAX then RTO_MAX else atLeast) == Bound(lower, mean + 4 * v, RTO_MAX)
  {
  }

  function EncodedGroups(conv: u32, groups: seq<seq<Wire>>): (bs: seq<seq<u8>>)
    ensures |bs| == |groups| && forall i :: 0 <= i < |groups| ==> bs[i] == EncodedAll(conv, groups[i])
  {
    if groups == [] then [] else EncodedGroups(conv, groups[..|groups| - 1]) + [EncodedAll(conv, groups[|groups| - 1])]
  }

  class KCP {
    const conv: u32
    const mtu: u32
    const mss: u32
    const sndWnd: u32
    const rcvWnd: u32
    const nodelay: bool
    const nocwnd: bool
    const fastresend: int
    const rxMinrto: u32
    const interval: u32
    const buffer: array<u8>

    var sndUna: u32
    var sndNxt: u32
    var rcvNxt: u32
    var rmtWnd: u32
    var window: Window
    var rxRttval: u32
    var rxSrtt: u32
    var rxRto: u32
    var probeAsk: bool
    var probeTell: bool
    var tsProbe: u32
    var probeWait: u32
    var current: u32
    var updated: bool
    var tsFlush: u32
    var state: u32
    var sndQueue: seq<Segment>
    var rcvQueue: seq<Segment>
    var sndBuf: seq<Segment>
    var rcvBuf: seq<Segment>
    var acklist: seq<u32>

    ghost predicate Valid()
      reads this`acklist, this`sndQueue, this`sndBuf, this`rcvQueue, this`rcvBuf, this`rmtWnd, this`probeWait
    {
      && 10 <= interval <= 5000 && 0 < mss && mtu == mss + OVERHEAD && buffer.Length == (mtu + OVERHEAD) * 3
      && |acklist| % 2 == 0
      && Sized(sndQueue, mss) && Sized(sndBuf, mss) && Pushes(sndBuf)
      && Small(rcvQueue) && Small(rcvBuf)
      && rmtWnd <= 0xFFFF && WaitOk(probeWait)
    }

    ghost function Snd(): (s: Sender)
      reads this`sndQueue, this`sndBuf, this`sndUna, this`sndNxt
    {
      Sender(Pieces(sndQueue), Entries(sndBuf), sndUna, sndNxt)
    }

    ghost function Flying(): (f: Flight)
      reads this`sndBuf, this`rxSrtt, this`rxRttval, this`rxRto
    {
      Flight(sndBuf, rxSrtt, rxRttval, rxRto)
    }

    ghost function Rcv(): (r: Receiver)
      reads this`rcvQueue, this`rcvBuf, this`rcvNxt, this`acklist
    {
      Receiver(rcvWnd, rcvNxt, Entries(rcvBuf), Pieces(rcvQueue), Sns(acklist))
    }

    /** A new endpoint after its configuration calls. */
    constructor (conv: u32, mtu: u32, sndWnd: u32, rcvWnd: u32, nodelay: bool, interval: u32, fastresend: int,
                 nocwnd: bool)
      requires 50 <= mtu && 10 <= interval <= 5000
      ensures Valid() && fresh(buffer) && this.conv == conv && this.mtu == mtu && this.sndWnd == sndWnd
      ensures Snd() == Sender([], [], 0, 0) && Rcv() == Receiver(rcvWnd, 0, [], [], [])
      ensures window == Window(0, 0, THRESH_MIN) && WindowInv(window, mss)
    {
      this.conv, this.mtu, this.mss := conv, mtu, mtu - OVERHEAD;
      this.sndWnd, this.rcvWnd := sndWnd, rcvWnd;
      this.nodelay, this.fastresend, this.nocwnd := nodelay, fastresend, nocwnd;
      this.rxMinrto, this.interval := if nodelay then 30 else 100, interval;
      buffer := new u8[(mtu + OVERHEAD) * 3];
      sndUna, sndNxt, rcvNxt := 0, 0, 0;
      rmtWnd, window := 32, Window(0, 0, THRESH_MIN);
      rxRttval, rxSrtt, rxRto := 0, 0, 200;
      probeAsk, probeTell, tsProbe, probeWait := false, false, 0, 0;
      current, updated, tsFlush, state := 0, false, 100, 0;
      sndQueue, rcvQueue, sndBuf, rcvBuf, acklist := [], [], [], [], [];
    }

    // ---------- Recv ----------

    method PeekSize() returns (length: int)
      requires Valid()
      ensures length == PeekedSize(Pieces(rcvQueue))
    {
      if |rcvQueue| == 0 {
        return -1;
      }
      var seg := rcvQueue[0];
      ghost var ps := Pieces(rcvQueue);
      PiecesAt(rcvQueue);
      if seg.frg == 0 {
        assert ps[..1] == [ps[0]] && Joined([ps[0]]) == ps[0].data;
        return |seg.data|;
      }
      if |rcvQueue| < seg.frg + 1 {
        return -1;
      }
      length := 0;
      var k := 0;
      assert ps[0..] == ps;
      while k < |rcvQueue|
        invariant 0 <= k <= |rcvQueue|
        invariant length == |Joined(ps[..k])|
        invariant FirstCount(ps) == k + FirstCount(ps[k..])
      {
        length := length + |rcvQueue[k].data|;
        JoinedNext(ps, k);
        CountNext(ps, k);
        if rcvQueue[k].frg == 0 {
          break;
        }
        k := k + 1;
      }
    }

    /** Copies the next message out, whole; the codes -1, -2 and -3 change nothing. */
    method Recv(out: array<u8>) returns (n: int)
      requires Valid() && out != buffer
      modifies this`rcvQueue, this`rcvBuf, this`rcvNxt, this`probeTell, out
      ensures Valid()
      ensures n == RecvResult(old(Rcv()), out.Length) && Rcv() == AfterRecv(old(Rcv()), out.Length)
      ensures n < 0 ==> out[..] == old(out[..]) && probeTell == old(probeTell)
      ensures n >= 0 ==>
        var queue := old(Pieces(rcvQueue));
        out[..] == Joined(queue[..FirstCount(queue)]) + old(out[n..])
      ensures n >= 0 ==> probeTell == (old(probeTell) || |rcvQueue| < rcvWnd <= |old(rcvQueue)|)
    {
      if |rcvQueue| == 0 {
        return -1;
      }
      var peeksize := PeekSize();
      if peeksize < 0 {
        return -2;
      }
      if peeksize > out.Length {
        return -3;
      }
      var fastRecover := |rcvQueue| >= rcvWnd;
      var count: nat := Merge(out, peeksize);
      n := peeksize;
      PiecesDrop(rcvQueue, count);
      SmallParts(rcvQueue, count);
      rcvQueue := rcvQueue[count..];
      MoveAvailable();
      if |rcvQueue| < rcvWnd && fastRecover {
        probeTell := true;
      }
    }

    /** The copying loop of Recv. */
    method Merge(out: array<u8>, peeksize: nat) returns (count: nat)
      requires Valid() && out != buffer && rcvQueue != []
      requires peeksize == PeekedSize(Pieces(rcvQueue)) <= out.Length
      modifies out
      ensures count == FirstCount(Pieces(rcvQueue)) <= |rcvQueue|
      ensures out[..] == Joined(Pieces(rcvQueue)[..count]) + old(out[peeksize..])
    {
      hide Valid, Pieces, Entries, Sns, Sized, Pushes, Small, Word, FirstCount, Joined, PeekedSize;
      ghost var ps := Pieces(rcvQueue);
      PiecesAt(rcvQueue);
      count := 0;
      var n: nat := 0;
      assert ps[0..] == ps;
      JoinedNone();
      PeekedIsJoined(ps);
      while count < |rcvQueue|
        invariant 0 <= count <= |rcvQueue|
        invariant n == |Joined(ps[..count])| <= peeksize
        invariant FirstCount(ps) == count + FirstCount(ps[count..])
        invariant out[..n] == Joined(ps[..count]) && out[n..] == old(out[n..])
      {
        var seg := rcvQueue[count];
        JoinedNext(ps, count);
        CountNext(ps, count);
        JoinedGrows(ps, count + 1);
        Copy(out, n, seg.data);
        n := n + |seg.data|;
        count := count + 1;
        if seg.frg == 0 {
          break;
        }
      }
      assert count == FirstCount(ps) && n == peeksize;
      assert out[..] == out[..n] + out[n..];
    }

    /** Moves what continues the queue out of the reorder buffer. */
    method MoveAvailable()
      requires Valid()
      modifies this`rcvQueue, this`rcvBuf, this`rcvNxt
      ensures Valid() && Rcv() == Advance(old(Rcv()))
    {
      hide Pieces, Entries, Sns, Word, Sized, Pushes, Small;
      ghost var start := Rcv();
      assert rcvBuf[0..] == rcvBuf;
      var count: nat := 0;
      while count < |rcvBuf|
        invariant 0 <= count <= |rcvBuf| && rcvBuf == old(rcvBuf)
        invariant Small(rcvQueue)
        invariant Advance(start) == Advance(Receiver(rcvWnd, rcvNxt, Entries(rcvBuf[count..]), Pieces(rcvQueue),
          Sns(acklist)))
      {
        var seg := rcvBuf[count];
        if seg.sn == rcvNxt && |rcvQueue| < rcvWnd {
          AdvanceOne(rcvBuf, count, rcvWnd, rcvNxt, rcvQueue, Sns(acklist));
          SmallAppend(rcvQueue, rcvBuf, count);
          rcvQueue := rcvQueue + [seg];
          rcvNxt := Word(rcvNxt + 1);
          count := count + 1;
        } else {
          break;
        }
      }
      SmallParts(rcvBuf, count);
      EntriesAt(rcvBuf[count..]);
      rcvBuf := rcvBuf[count..];
    }

    // ---------- Send ----------

    method Send(message: seq<u8>) returns (r: int)
      requires Valid()
      modifies this`sndQueue
      ensures Valid()
      ensures r == SendResult(mss, message)
      ensures Snd() == old(Snd()).(queue := old(Pieces(sndQueue)) + if r == 0 then MessagePieces(mss, message) else [])
    {
      hide Valid, Fragments, Pieces, Entries;
      if |message| == 0 {
        assert Pieces(sndQueue) == Pieces(sndQueue) + [];
        return -1;
      }
      MssPositive();
      var count := if |message| < mss then 1 else (|message| + mss - 1) / mss;
      if count > 255 {
        assert Pieces(sndQueue) == Pieces(sndQueue) + [];
        return -2;
      }
      SendLoop(message, count);
      return 0;
    }

    /** The fragmenting loop of Send. */
    method SendLoop(message: seq<u8>, count: nat)
      requires Valid() && count <= 255
      modifies this`sndQueue
      ensures Valid() && Pieces(sndQueue) == old(Pieces(sndQueue)) + Fragments(mss, message, count)
    {
      hide Pieces, Entries, Fragments, Sized, Pushes, Small;
      var rest := message;
      ghost var whole := old(Pieces(sndQueue)) + Fragments(mss, message, count);
      for i := 0 to count
        invariant Valid()
        invariant Pieces(sndQueue) + Fragments(mss, rest, count - i) == whole
      {
        var size := if |rest| > mss then mss else |rest|;
        var seg := Segment(0, count - i - 1, 0, 0, 0, 0, 0, 0, 0, 0, rest[..size]);
        FragmentsStep(mss, rest, count - i, Pieces(sndQueue));
        PiecesParts(sndQueue, [seg]);
        OneSegment(seg);
        SizedGrows(sndQueue, mss, seg);
        sndQueue := sndQueue + [seg];
        rest := rest[size..];
      }
      FragmentsDone(mss, rest, Pieces(sndQueue));
    }

    // ---------- Input ----------

    method ShrinkBuf()
      modifies this`sndUna
      ensures Snd() == Shrunk(old(Snd()))
      ensures sndUna == if sndBuf == [] then sndNxt else sndBuf[0].sn
    {
      if |sndBuf| > 0 {
        sndUna := sndBuf[0].sn;
      } else {
        sndUna := sndNxt;
      }
    }

    method ParseAck(sn: u32)
      requires Valid()
      modifies this`sndBuf
      ensures Valid() && Snd() == KcpSpec.ParseAck(old(Snd()), sn)
      ensures sndBuf == if Diff(sn, sndUna) < 0 || Diff(sn, sndNxt) >= 0 then old(sndBuf) else Acked(old(sndBuf), sn)
    {
      hide Pieces, Entries, Sns, Sized, Pushes, Small, Diff, Word, Acked, Removed;
      if Diff(sn, sndUna) < 0 || Diff(sn, sndNxt) >= 0 {
        return;
      }
      ghost var was := sndBuf;
      AckedRemoves(was, sn);
      AckedSized(was, sn, mss);
      var k := 0;
      assert sndBuf[0..] == sndBuf;
      while k < |sndBuf|
        invariant 0 <= k <= |sndBuf| == |was|
        invariant sndBuf[k..] == was[k..]
        invariant sndBuf[..k] + Acked(was[k..], sn) == Acked(was, sn)
      {
        AckedTurn(was, sndBuf, k, sn);
        if sn == sndBuf[k].sn {
          sndBuf := sndBuf[..k] + sndBuf[k + 1..];
          return;
        }
        sndBuf := sndBuf[k := sndBuf[k].(fastack := Word(sndBuf[k].fastack + 1))];
        k := k + 1;
      }
      NoneAcked(sn);
      assert sndBuf[..k] + [] == sndBuf && was[k..] == [];
    }

    method ParseUna(una: u32)
      requires Valid()
      modifies this`sndBuf
      ensures Valid() && Snd() == old(Snd()).(buf := KcpSpec.ParseUna(old(Entries(sndBuf)), una))
      ensures sndBuf == Unpassed(old(sndBuf), una)
    {
      hide Pieces, Entries, Sns, Sized, Pushes, Small, Diff;
      var count: nat := 0;
      ghost var es := Entries(sndBuf);
      EntriesAt(sndBuf);
      assert es[0..] == es;
      while count < |sndBuf|
        invariant 0 <= count <= |sndBuf|
        invariant KcpSpec.ParseUna(es, una) == KcpSpec.ParseUna(es[count..], una)
        invariant forall i :: 0 <= i < count ==> Diff(una, sndBuf[i].sn) > 0
      {
        assert es[count..][1..] == es[count + 1..];
        if Diff(una, sndBuf[count].sn) > 0 {
          count := count + 1;
        } else {
          break;
        }
      }
      EntriesDrop(sndBuf, count);
      SizedDrop(sndBuf, mss, count);
      UnpassedIs(sndBuf, una, count);
      sndBuf := sndBuf[count..];
    }

    method AckPush(sn: u32, ts: u32)
      requires Valid()
      modifies this`acklist
      ensures Valid() && Rcv() == old(Rcv()).(acks := old(Sns(acklist)) + [sn])
      ensures acklist == old(acklist) + [sn, ts]
    {
      SnsAppend(acklist, sn, ts);
      acklist := acklist + [sn, ts];
    }

    method ParseData(seg: Segment)
      requires Valid() && seg.frg < 256
      modifies this`rcvQueue, this`rcvBuf, this`rcvNxt
      ensures Valid() && Rcv() == KcpSpec.ParseData(old(Rcv()), EntryOf(seg))
      ensures var inside := 0 <= Diff(seg.sn, old(rcvNxt)) && Diff(seg.sn, Word(old(rcvNxt) + rcvWnd)) < 0;
        var was := old(Rcv());
        && (inside ==> Rcv() == Advance(was.(buf := Inserted(was.buf, EntryOf(seg)))))
        && (!inside ==> rcvQueue == old(rcvQueue) && rcvBuf == old(rcvBuf) && rcvNxt == old(rcvNxt))
    {
      hide Pieces, Entries, Sns, Sized, Pushes, Small, Inserted, Advance, Diff;
      var sn := seg.sn;
      if Diff(sn, Word(rcvNxt + rcvWnd)) >= 0 || Diff(sn, rcvNxt) < 0 {
        return;
      }
      InsertData(seg);
      MoveAvailable();
    }

    /** The insertion of parse_data: from the end to the first entry before seg. */
    method InsertData(seg: Segment)
      requires Valid() && seg.frg < 256
      modifies this`rcvBuf
      ensures Valid() && Entries(rcvBuf) == Inserted(old(Entries(rcvBuf)), EntryOf(seg))
    {
      hide Pieces, Entries, Sns, Sized, Pushes, Small, Diff, Inserted;
      var afterIdx: int := -1;
      var repeated := false;
      var i := |rcvBuf| - 1;
      ghost var es, x := Entries(rcvBuf), EntryOf(seg);
      EntriesAt(rcvBuf);
      assert es[..i + 1] == es && es[i + 1..] == [];
      while i >= 0
        invariant rcvBuf == old(rcvBuf) && -1 <= i < |rcvBuf|
        invariant Inserted(es, x) == Inserted(es[..i + 1], x) + es[i + 1..]
        invariant !repeated && afterIdx == -1
      {
        var at := rcvBuf[i];
        assert es[i] == EntryOf(at);
        InsertedTurn(es, x, i);
        if at.sn == seg.sn {
          repeated := true;
          break;
        }
        if Diff(seg.sn, at.sn) > 0 {
          afterIdx := i;
          break;
        }
        i := i - 1;
      }
      if !repeated {
        if afterIdx == -1 {
          EntriesParts([seg], rcvBuf);
          InsertedAlone(x);
          assert es[..0] == [] && es[0..] == es;
          OneSegment(seg);
          SmallSplice(rcvBuf, seg, 0);
          assert rcvBuf[..0] + ([seg] + rcvBuf[0..]) == [seg] + rcvBuf;
          rcvBuf := [seg] + rcvBuf;
        } else {
          EntriesSplice(rcvBuf, seg, afterIdx + 1);
          SmallSplice(rcvBuf, seg, afterIdx + 1);
          rcvBuf := rcvBuf[..afterIdx + 1] + ([seg] + rcvBuf[afterIdx + 1..]);
        }
      }
    }

    /** The round-trip estimate takes in a sample. */
    method UpdateAck(rtt: int)
      requires 0 <= rtt < HALF
      modifies this`rxSrtt, this`rxRttval, this`rxRto
      ensures Samples(old(rxSrtt), old(rxRttval), rtt, rxSrtt, rxRttval, rxRto, rxMinrto)
    {
      hide Word, Diff, Averages, Distance, Bound;
      if rxSrtt == 0 {
        rxSrtt, rxRttval := rtt, rtt / 2;
      } else {
        var delta := Diff(rtt, rxSrtt);
        MeanMoves(rxSrtt, rtt);
        VariationMoves(rxRttval, rxSrtt, rtt);
        rxRttval := Word(Word(3 * rxRttval) + (if delta < 0 then -delta else delta)) / 4;
        rxSrtt := Word(Word(7 * rxSrtt) + rtt) / 8;
        if rxSrtt < 1 {
          rxSrtt := 1;
        }
      }
      var varied := Word(4 * rxRttval);
      var rto := Word(rxSrtt + if varied < 1 then 1 else varied);
      rto := if rto < rxMinrto then rxMinrto else rto;
      rxRto := if rto > RTO_MAX then RTO_MAX else rto;
      TimeoutIs(rxSrtt, rxRttval, rxMinrto);
    }

    /** Acts on the segments of a datagram one by one; an error stops it, and what was done
        before stays done. The acknowledgement list gains the pushed segments that lay inside the
        receive window when their turn came, repeats included, in order. */
    method Input(data: seq<u8>) returns (r: int, ghost taken: seq<nat>, ghost flights: seq<Flight>)
      requires Valid()
      modifies this`rmtWnd, this`sndUna, this`sndBuf, this`rcvQueue, this`rcvBuf, this`rcvNxt, this`acklist,
               this`rxSrtt, this`rxRttval, this`rxRto, this`probeTell, this`window
      ensures Valid()
      ensures var p := Parse(conv, data);
        && r == p.result
        && Halves(Snd(), Rcv()) == AfterWires(Halves(old(Snd()), old(Rcv())), p.wires)
        && rmtWnd == (if p.wires == [] then old(rmtWnd) else p.wires[|p.wires| - 1].wnd)
        && probeTell == (old(probeTell) || AsksWindow(p.wires))
        && window == (if r == 0 && Diff(sndUna, old(sndUna)) > 0 then AfterAcked(old(window), mss, rmtWnd)
           else old(window))
        && Below(taken, |p.wires|) && InsideWhenHandled(taken, Halves(old(Snd()), old(Rcv())), p.wires)
        && acklist == old(acklist) + NumbersAndTimes(p.wires, taken)
        && FollowAll(flights, p.wires, current, sndNxt, rxMinrto)
        && flights[0] == old(Flying()) && flights[|p.wires|] == Flying()
      ensures mss <= 0xFFFF && old(WindowInv(window, mss)) ==>
        WindowInv(window, mss) && (window.cwnd > old(window.cwnd) ==> window.cwnd <= rmtWnd)
    {
      hide WindowInv, NoOverflow, Valid, Word, AfterWires, AfterAcked, AsksWindow, Parse, Diff, Snd, Rcv,
        InsideWhenHandled, NumbersAndTimes, Below, Follows;
      var una := sndUna;
      DiffSelf(una);
      if |data| < OVERHEAD {
        NoWires(Halves(Snd(), Rcv()));
        NothingTaken(Halves(Snd(), Rcv()));
        ParseStops(conv, data);
        return 0, [], [Flying()];
      }
      r, taken, flights := InputLoop(data);
      if r == 0 && Diff(sndUna, una) > 0 {
        MssPositive();
        WindowStays(window, mss, rmtWnd);
        window := AfterAcked(window, mss, rmtWnd);
      }
    }

    lemma MssPositive()
      requires Valid()
      ensures mss > 0 && rmtWnd <= 0xFFFF
    {
    }

    /** Where the loop of Input stands: the segments done were handled from the state start on, which
        had these acknowledgements, this remote window and this answer pending. */
    ghost predicate Handled(start: Halves, acks: seq<u32>, rmt: u32, tell: bool, done: seq<Wire>, taken: seq<nat>)
      reads this`sndQueue, this`sndBuf, this`sndUna, this`sndNxt, this`rcvQueue, this`rcvBuf, this`rcvNxt,
            this`acklist, this`rmtWnd, this`probeTell
    {
      && Halves(Snd(), Rcv()) == AfterWires(start, done) && start.rcv.wnd == rcvWnd
      && Below(taken, |done|) && InsideWhenHandled(taken, start, done)
      && acklist == acks + NumbersAndTimes(done, taken)
      && rmtWnd == (if done == [] then rmt else done[|done| - 1].wnd)
      && probeTell == (tell || AsksWindow(done))
    }

    /** The decoding loop of Input. */
    method InputLoop(data: seq<u8>) returns (r: int, ghost taken: seq<nat>, ghost flights: seq<Flight>)
      requires Valid()
      modifies this`rmtWnd, this`sndUna, this`sndBuf, this`rcvQueue, this`rcvBuf, this`rcvNxt, this`acklist,
               this`rxSrtt, this`rxRttval, this`rxRto, this`probeTell
      ensures Valid()
      ensures var p := Parse(conv, data);
        && r == p.result
        && Handled(Halves(old(Snd()), old(Rcv())), old(acklist), old(rmtWnd), old(probeTell), p.wires, taken)
        && FollowAll(flights, p.wires, current, sndNxt, rxMinrto)
        && flights[0] == old(Flying()) && flights[|p.wires|] == Flying()
    {
      hide Word, AsksWindow, Parse, Diff, Value32, HeaderLength, HeaderWire, Snd, Rcv, Sendable, Sized, Pushes, Small,
        WaitOk, Handled, Follows;
      ghost var start := Halves(Snd(), Rcv());
      taken := HandleNone();
      flights := [Flying()];
      var rest := data;
      ghost var done: seq<Wire> := [];
      assert done + Parse(conv, rest).wires == Parse(conv, rest).wires;
      while |rest| >= OVERHEAD
        invariant Valid()
        invariant Parse(conv, data) == Parsed(Parse(conv, rest).result, done + Parse(conv, rest).wires)
        invariant Handled(start, old(acklist), old(rmtWnd), old(probeTell), done, taken)
        invariant FollowAll(flights, done, current, sndNxt, rxMinrto)
        invariant flights[0] == old(Flying()) && flights[|done|] == Flying()
        decreases |rest|
      {
        ghost var before := rest;
        ParseStops(conv, before);
        assert done + [] == done;
        var _, c := Decode32(rest);
        if c != conv {
          return -1, taken, flights;
        }
        var w, length;
        rest, w, length := DecodeHeader(rest);
        if |rest| < length {
          return -2, taken, flights;
        }
        HeaderData(before, []);
        if w.cmd !in {PUSH, ACK, WASK, WINS} {
          return -3, taken, flights;
        }
        w := w.(data := rest[..length]);
        SendableNow(w);
        taken := HandleNext(w, start, old(acklist), old(rmtWnd), old(probeTell), done, taken);
        FollowOneMore(flights, done, w, Flying(), current, sndNxt, rxMinrto);
        flights := flights + [Flying()];
        ParseOne(conv, before, rest, w, length, done);
        done := done + [w];
        rest := rest[length..];
      }
      ParseStops(conv, rest);
      assert done + [] == done;
      return 0, taken, flights;
    }

    lemma HandleNone() returns (taken: seq<nat>)
      ensures Handled(Halves(Snd(), Rcv()), acklist, rmtWnd, probeTell, [], taken)
    {
      hide AfterWire;
      taken := [];
      NoWires(Halves(Snd(), Rcv()));
      NothingTaken(Halves(Snd(), Rcv()));
      assert acklist + [] == acklist;
    }

    /** One turn of the loop, with a segment decoded. */
    method HandleNext(w: Wire, ghost start: Halves, ghost acks: seq<u32>, ghost rmt: u32, ghost tell: bool,
                      ghost done: seq<Wire>, ghost taken: seq<nat>)
      returns (ghost taken': seq<nat>)
      requires Valid() && Sendable(w) && Handled(start, acks, rmt, tell, done, taken)
      modifies this`rmtWnd, this`sndUna, this`sndBuf, this`rcvQueue, this`rcvBuf, this`rcvNxt, this`acklist,
               this`rxSrtt, this`rxRttval, this`rxRto, this`probeTell
      ensures Valid() && Handled(start, acks, rmt, tell, done + [w], taken')
      ensures Follows(old(Flying()), w, Flying(), current, sndNxt, rxMinrto)
    {
      hide Word, AfterWire, AfterWires, AsksWindow, Diff, Snd, Rcv, Sized, Pushes, Small, WaitOk, InsideWhenHandled,
        NumbersAndTimes, Below, Follows;
      WindowFits(w);
      rmtWnd := w.wnd;
      ReceivesAt();
      TakenNext(taken, start, done, w);
      taken' := taken + if w.cmd == PUSH && Diff(w.sn, Word(rcvNxt + rcvWnd)) < 0 then [|done|] else [];
      AfterWiresAppend(start, done, w);
      AsksAppend(done, w);
      HandleSegment(w);
    }

    lemma WindowFits(w: Wire)
      requires Sendable(w)
      ensures w.wnd <= 0xFFFF
    {
    }

    lemma ReceivesAt()
      ensures Rcv().nxt == rcvNxt && Rcv().wnd == rcvWnd
    {
    }

    /** A pushed segment is acknowledged, with the time it carries, when its number lies before the end
        of the receive window, whether it is held already or not; its piece is taken when it also lies
        at or behind the start. */
    method HandlePush(w: Wire)
      requires Valid()
      modifies this`rcvQueue, this`rcvBuf, this`rcvNxt, this`acklist
      ensures Valid()
      ensures Rcv() == AfterPush(old(Rcv()), WireEntry(w))
      ensures acklist == old(acklist) + if Diff(w.sn, Word(old(rcvNxt) + rcvWnd)) < 0 then [w.sn, w.ts] else []
      ensures var inside := 0 <= Diff(w.sn, old(rcvNxt)) && Diff(w.sn, Word(old(rcvNxt) + rcvWnd)) < 0;
        var was := old(Rcv());
        && (inside ==> Rcv() == Advance(was.(buf := Inserted(was.buf, WireEntry(w)), acks := was.acks + [w.sn])))
        && (!inside ==> rcvQueue == old(rcvQueue) && rcvBuf == old(rcvBuf) && rcvNxt == old(rcvNxt))
    {
      hide Valid, Pieces, Entries, Sns, Sized, Pushes, Small, Word, Diff, Advance, Inserted, KcpSpec.ParseData;
      if Diff(w.sn, Word(rcvNxt + rcvWnd)) < 0 {
        AckPush(w.sn, w.ts);
        if Diff(w.sn, rcvNxt) >= 0 {
          ParseData(Segment(w.cmd, w.frg, w.wnd, w.ts, w.sn, w.una, 0, 0, 0, 0, w.data));
        }
      }
    }

    /** An acknowledgement of one segment; the time it carries gives a sample unless it lies ahead. */
    method HandleAck(w: Wire)
      requires Valid()
      modifies this`sndUna, this`sndBuf, this`rxSrtt, this`rxRttval, this`rxRto
      ensures Valid() && Snd() == AfterAck(old(Snd()), w.sn)
      ensures sndBuf == if Diff(w.sn, old(sndUna)) < 0 || Diff(w.sn, sndNxt) >= 0 then old(sndBuf)
        else Acked(old(sndBuf), w.sn)
      ensures if Diff(current, w.ts) >= 0
        then Samples(old(rxSrtt), old(rxRttval), Diff(current, w.ts), rxSrtt, rxRttval, rxRto, rxMinrto)
        else rxSrtt == old(rxSrtt) && rxRttval == old(rxRttval) && rxRto == old(rxRto)
    {
      hide Valid, Pieces, Entries, Sns, Sized, Pushes, Small, Word, Diff, Acked, KcpSpec.ParseAck, Shrunk, Samples;
      if Diff(current, w.ts) >= 0 {
        UpdateAck(Diff(current, w.ts));
      }
      ParseAck(w.sn);
      ShrinkBuf();
    }

    /** One segment, by its command. */
    method HandleSegment(w: Wire)
      requires Valid() && Sendable(w)
      modifies this`sndUna, this`sndBuf, this`rcvQueue, this`rcvBuf, this`rcvNxt, this`acklist,
               this`rxSrtt, this`rxRttval, this`rxRto, this`probeTell
      ensures Valid()
      ensures Halves(Snd(), Rcv()) == AfterWire(Halves(old(Snd()), old(Rcv())), w)
      ensures acklist == old(acklist)
        + if w.cmd == PUSH && Diff(w.sn, Word(old(rcvNxt) + rcvWnd)) < 0 then [w.sn, w.ts] else []
      ensures w.cmd != PUSH ==> rcvQueue == old(rcvQueue) && rcvBuf == old(rcvBuf) && rcvNxt == old(rcvNxt)
      ensures probeTell == (old(probeTell) || w.cmd == WASK)
      ensures Follows(old(Flying()), w, Flying(), current, sndNxt, rxMinrto)
    {
      hide Valid, Pieces, Entries, Sns, Sized, Pushes, Small, Word, Diff, Advance, Inserted, Acked, Removed,
        KcpSpec.ParseUna, Shrunk, AfterPush, AfterAck, Samples, Unpassed, Follows;
      ghost var before := Flying();
      ParseUna(w.una);
      ShrinkBuf();
      ghost var una := sndUna;
      if w.cmd == ACK {
        HandleAck(w);
      } else if w.cmd == PUSH {
        HandlePush(w);
      } else if w.cmd == WASK {
        probeTell := true;
      }
      Following(before, w, una, Flying(), current, sndNxt, rxMinrto);
    }

    // ---------- Flush ----------

    /** Update up to its call of flush: is one due, and when is the next? Whatever the clock
        did since the last call, the next time lies ahead and at most ten seconds away. */
    method Update(now: u32) returns (due: bool)
      requires Valid()
      modifies this`current, this`updated, this`tsFlush
      ensures current == now && updated
      ensures due <==> !old(updated) || Diff(now, old(tsFlush)) >= 0 || Diff(now, old(tsFlush)) < -10000
      ensures 0 < Diff(tsFlush, now) <= if due then interval else 10000
    {
      hide Word, Diff;
      TimerFacts(now, now, interval);
      current := now;
      if !updated {
        updated := true;
        tsFlush := current;
      }
      TimerFacts(now, tsFlush, interval);
      var slap: int := Diff(current, tsFlush);
      if slap >= 10000 || slap < -10000 {
        tsFlush := current;
        slap := 0;
      }
      due := slap >= 0;
      if due {
        tsFlush := Word(tsFlush + interval);
        if Diff(current, tsFlush) >= 0 {
          tsFlush := Word(current + interval);
        }
      }
    }

    method WndUnused() returns (n: u32)
      ensures n == Unused(rcvWnd, |rcvQueue|)
      ensures if |rcvQueue| < rcvWnd then |rcvQueue| + n == rcvWnd else n == 0
    {
      if |rcvQueue| < rcvWnd {
        return rcvWnd - |rcvQueue|;
      }
      return 0;
    }

    /** What is in the buffer and what was output so far is the packing of ws. */
    ghost predicate Packed(sent: seq<seq<u8>>, size: nat, ws: seq<Wire>)
      reads buffer
    {
      var p := PackAll(mtu, ws);
      && size == Size(p.pending) <= mtu && size <= buffer.Length
      && buffer[..size] == EncodedAll(conv, p.pending)
      && sent == EncodedGroups(conv, p.done)
    }

    /** Writes one segment behind those in the buffer, which is output first when the segment
        would make it too large. */
    method Put(w: Wire, sent0: seq<seq<u8>>, size0: nat, ghost ws: seq<Wire>) returns (sent: seq<seq<u8>>, size: nat)
      requires Valid() && Packed(sent0, size0, ws)
      requires OVERHEAD + |w.data| <= mtu && (w.cmd != PUSH ==> w.data == [])
      modifies buffer
      ensures Packed(sent, size, ws + [w])
    {
      hide Pieces, Entries, Sized, Pushes, Small, EncodedAll, Size, Header, PackAll, EncodedGroups, Word;
      ghost var p := PackAll(mtu, ws);
      PackNext(mtu, conv, ws, w);
      sent, size := sent0, size0;
      if Overflows(mtu, size, w) {
        sent := sent + [buffer[..size]];
        size := 0;
      }
      ghost var front := buffer[..size];
      size := EncodeHeader(buffer, size, conv, w, |w.data|);
      ghost var header := buffer[..size];
      Copy(buffer, size, w.data);
      size := size + |w.data|;
      assert buffer[..size] == header + w.data;
      DataFits(w, mtu);
      assert buffer[..size] == front + Encoded(conv, w);
    }

    method FlushAcks(wnd: u32) returns (sent: seq<seq<u8>>, size: nat)
      requires Valid()
      modifies this`acklist, buffer
      ensures Valid() && acklist == [] && Packed(sent, size, old(AckWires(acklist, wnd, rcvNxt)))
    {
      hide Pieces, Entries, Sized, Pushes, Small, Packed, Word;
      var count := |acklist| / 2;
      sent, size := [], 0;
      NothingPacked();
      for i := 0 to count
        invariant Valid() && acklist == old(acklist) && Packed(sent, size, AckWires(acklist[..2 * i], wnd, rcvNxt))
      {
        var w := Wire(ACK, 0, wnd % 0x1_0000, acklist[2 * i + 1], acklist[2 * i], rcvNxt, []);
        AckWiresNext(acklist, 2 * i, wnd, rcvNxt);
        sent, size := Put(w, sent, size, AckWires(acklist[..2 * i], wnd, rcvNxt));
      }
      assert acklist[..2 * count] == acklist;
      acklist := [];
    }

    lemma NothingPacked()
      requires Valid()
      ensures Packed([], 0, [])
    {
    }

    /** The timer of the window probe: while the remote window is closed the wait starts at
        PROBE_INIT, grows by half each time it is over, and stops growing at PROBE_LIMIT; a
        probe is asked for only when a wait is over. It is switched off when the window opens. */
    method UpdateProbe()
      modifies this`probeAsk, this`probeWait, this`tsProbe
      ensures Probe(probeAsk, probeWait, tsProbe) == AfterTimer(old(Probe(probeAsk, probeWait, tsProbe)), rmtWnd,
        current)
      ensures rmtWnd != 0 ==> probeWait == 0 && tsProbe == 0 && probeAsk == old(probeAsk)
      ensures rmtWnd == 0 && old(WaitOk(probeWait)) ==>
        var due := old(probeWait) != 0 && Diff(current, old(tsProbe)) >= 0;
        && PROBE_INIT <= probeWait && old(probeWait) <= probeWait <= PROBE_LIMIT
        && probeAsk == (old(probeAsk) || due)
        && (due ==> probeWait == PROBE_LIMIT || 2 * probeWait <= 3 * old(probeWait) < 2 * probeWait + 2)
        && (due || old(probeWait) == 0 ==> Diff(tsProbe, current) == probeWait)
        && (!due && old(probeWait) != 0 ==> probeWait == old(probeWait) && tsProbe == old(tsProbe))
    {
      hide Word, Diff;
      TimerStarts(current, PROBE_INIT);
      TimerGrows(probeWait, current);
      if rmtWnd == 0 {
        if probeWait == 0 {
          probeWait := PROBE_INIT;
          tsProbe := Word(current + probeWait);
        } else if Diff(current, tsProbe) >= 0 {
          if probeWait < PROBE_INIT {
            probeWait := PROBE_INIT;
          }
          probeWait := Word(probeWait + probeWait / 2);
          if probeWait > PROBE_LIMIT {
            probeWait := PROBE_LIMIT;
          }
          tsProbe := Word(current + probeWait);
          probeAsk := true;
        }
      } else {
        tsProbe, probeWait := 0, 0;
      }
    }

    /** Numbers pieces of the queue and appends them to the send buffer, unsent. */
    method MoveQueue(cwnd: u32, wnd: u32)
      requires Valid()
      modifies this`sndQueue, this`sndBuf, this`sndNxt
      ensures Valid() && Snd() == Moved(old(Snd()), cwnd)
      ensures old(sndBuf) <= sndBuf
      ensures forall k :: |old(sndBuf)| <= k < |sndBuf| ==> sndBuf[k].xmit == 0 && sndBuf[k].fastack == 0
    {
      hide Pieces, Entries, Sns, Small, Sized, Pushes, Word, Diff;
      ghost var start := Snd();
      var count: nat := 0;
      assert sndQueue[0..] == sndQueue;
      while count < |sndQueue|
        invariant 0 <= count <= |sndQueue| && sndQueue == old(sndQueue)
        invariant Sized(sndBuf, mss) && Pushes(sndBuf) && old(sndBuf) <= sndBuf
        invariant forall k :: |old(sndBuf)| <= k < |sndBuf| ==> sndBuf[k].xmit == 0 && sndBuf[k].fastack == 0
        invariant Moved(start, cwnd) == Moved(Sender(Pieces(sndQueue[count..]), Entries(sndBuf), sndUna, sndNxt), cwnd)
      {
        if Diff(sndNxt, Word(sndUna + cwnd)) >= 0 {
          break;
        }
        var seg := sndQueue[count].(cmd := PUSH, wnd := wnd, ts := current, sn := sndNxt, una := rcvNxt,
                                    resendts := current, rto := rxRto, fastack := 0, xmit := 0);
        MovedOne(sndQueue, count, sndBuf, sndUna, sndNxt, cwnd, seg);
        SizedAppend(sndBuf, sndQueue, count, mss, seg);
        sndBuf := sndBuf + [seg];
        sndNxt := Word(sndNxt + 1);
        count := count + 1;
      }
      SizedFrom(sndQueue, mss, count);
      sndQueue := sndQueue[count..];
    }

    /** Sends every segment that needs it and refreshes its timer: those at the positions due. A
        timeout is a loss, a fast resend a change, and a tenth sending ends the connection. */
    method FlushData(c: Clock, sent0: seq<seq<u8>>, size0: nat, ghost ws: seq<Wire>)
      returns (sent: seq<seq<u8>>, size: nat, lost: bool, changed: bool, ghost due: seq<nat>, ghost dead: bool)
      requires Valid() && Packed(sent0, size0, ws)
      modifies this`sndBuf, this`state, buffer
      ensures Valid() && sndBuf == RefreshAll(old(sndBuf), c) && Snd() == old(Snd())
      ensures Packed(sent, size, ws + PushWires(old(sndBuf), c))
      ensures WritesDue(old(sndBuf), c, due, PushWires(old(sndBuf), c))
      ensures Flushed(old(sndBuf), sndBuf, c, due, lost, changed, dead) && state == if dead then DEAD else old(state)
    {
      hide Valid, Pieces, Entries, Sized, Pushes, Packed, Refreshed, Needed, TimedOut, Skipped, PushWires, AnyLost,
        AnySkipped, AnyDead, RefreshAll, Flushed, WritesDue, Resends, Positions;
      ghost var was := sndBuf;
      sent, size, lost, changed := sent0, size0, false, false;
      NoneFlushed(c);
      assert was[..0] == [] && ws + [] == ws;
      var k := 0;
      while k < |sndBuf|
        invariant 0 <= k <= |sndBuf| == |was| && Valid()
        invariant RefreshedUpTo(sndBuf, was, k, c)
        invariant Packed(sent, size, ws + PushWires(was[..k], c))
        invariant lost == AnyLost(was[..k], c) && changed == AnySkipped(was[..k], c)
        invariant state == if AnyDead(was[..k], c) then DEAD else old(state)
      {
        ghost var before := ws + PushWires(was[..k], c);
        RefreshedAt(sndBuf, was, k, c);
        AnyNext(was, k, c);
        PushWiresNext(was, k, c);
        assert PushWires(was[..k], c) + [] == PushWires(was[..k], c);
        var seg := sndBuf[k];
        if TimedOut(seg, c) {
          lost := true;
        } else if Skipped(seg, c) {
          changed := true;
        }
        SkippedIsNotTimedOut(seg, c);
        var needsend := Needed(seg, c);
        seg := Refreshed(seg, c);
        SetSegment(k, seg, c);
        if needsend {
          SegmentFits(k, c);
          assert before + [ToWire(seg)] == ws + PushWires(was[..k + 1], c);
          sent, size := Put(ToWire(seg), sent, size, before);
          if seg.xmit >= DEADLINK {
            state := DEAD;
          }
        }
        k := k + 1;
      }
      RefreshedWhole(sndBuf, was, c);
      RefreshKeepsEntries(was, c);
      assert was[..k] == was;
      due := FlushSends(was, c);
      DueAreIn(was, c, due, PushWires(was, c));
      dead := AnyDead(was, c);
      FlushedIs(was, c, due);
    }

    method SetSegment(k: nat, seg: Segment, ghost c: Clock)
      requires Valid() && k < |sndBuf| && seg == Refreshed(sndBuf[k], c)
      modifies this`sndBuf
      ensures Valid() && sndBuf == old(sndBuf)[k := seg]
    {
      hide Word, Needed, TimedOut, Skipped;
      sndBuf := sndBuf[k := seg];
    }

    lemma SegmentFits(k: nat, c: Clock)
      requires Valid() && k < |sndBuf|
      ensures var w := ToWire(sndBuf[k]);
        w.cmd == PUSH && OVERHEAD + |w.data| <= mtu
    {
      assert sndBuf[k] in sndBuf;
    }

    /** Sends everything that is due. The wire segments written are the acknowledgements, the
        probes and the segments that need sending, in this order, packed into datagrams. */
    method Flush()
      returns (sent: seq<seq<u8>>, ghost moved: seq<Segment>, ghost ws: seq<Wire>, ghost due: seq<nat>,
               ghost lost: bool, ghost changed: bool, ghost dead: bool)
      requires Valid()
      modifies this`acklist, this`probeAsk, this`probeWait, this`tsProbe, this`probeTell, this`sndQueue, this`sndBuf,
               this`sndNxt, this`state, this`window, buffer
      ensures Valid()
      ensures !old(updated) ==>
        && sent == [] && sndQueue == old(sndQueue) && sndBuf == old(sndBuf) && sndNxt == old(sndNxt)
        && acklist == old(acklist) && window == old(window) && state == old(state)
        && Probe(probeAsk, probeWait, tsProbe) == old(Probe(probeAsk, probeWait, tsProbe))
        && probeTell == old(probeTell)
      ensures old(updated) ==>
        var least := if sndWnd <= old(rmtWnd) then sndWnd else old(rmtWnd);
        var allowed := if nocwnd || least <= old(window).cwnd then least else old(window).cwnd;
        var wnd := if |old(rcvQueue)| < rcvWnd then rcvWnd - |old(rcvQueue)| else 0;
        var c := Clock(old(current), old(rxRto), if fastresend <= 0 then 0xFFFF_FFFF else fastresend % 0x1_0000_0000,
                       if nodelay then 0 else old(rxRto) / 8, nodelay, wnd, old(rcvNxt));
        var probe := AfterTimer(old(Probe(probeAsk, probeWait, tsProbe)), old(rmtWnd), old(current));
        && Snd() == Moved(old(Snd()), allowed) && Rcv() == old(Rcv()).(acks := [])
        && old(sndBuf) <= moved && (forall k :: |old(sndBuf)| <= k < |moved| ==>
           moved[k].xmit == 0 && moved[k].fastack == 0)
        && sndBuf == RefreshAll(moved, c) && Flushed(moved, sndBuf, c, due, lost, changed, dead)
        && WritesDue(moved, c, due, PushWires(moved, c))
        && ws == old(AckWires(acklist, wnd, rcvNxt)) + old(ProbeWires(probe.ask, probeTell, acklist, wnd, rcvNxt))
           + PushWires(moved, c)
        && sent == EncodedGroups(conv, Datagrams(mtu, ws))
        && Probe(probeAsk, probeWait, tsProbe) == probe.(ask := false) && !probeTell
        && Reacts(old(window), window, mss, changed, lost, Word(sndNxt - sndUna), allowed, c.resent)
        && state == (if dead then DEAD else old(state))
        && SpanKept(old(window), window, mss, changed, lost, Word(sndNxt - sndUna), c.resent)
    {
      hide *;
      moved, ws, due, lost, changed, dead := [], [], [], false, false, false;
      if !updated {
        sent := [];
        return;
      }
      var wnd := WndUnused();
      var allowed := Allowed(sndWnd, rmtWnd, window.cwnd, nocwnd);
      AllowedIs(sndWnd, rmtWnd, window.cwnd, nocwnd);
      var c := ClockNow(current, rxRto, fastresend, nodelay, wnd, rcvNxt);
      ClockIs(current, rxRto, fastresend, nodelay, wnd, rcvNxt);
      var timedOut, resent;
      sent, moved, ws, due, timedOut, resent, dead := FlushAll(c, allowed);
      lost, changed := timedOut, resent;
      FlushWindow(timedOut, resent, allowed, c.resent);
    }

    /** The end of flush: fast resends, then losses, then the minimum of one. */
    method FlushWindow(lost: bool, changed: bool, allowed: u32, resent: u32)
      requires Valid()
      modifies this`window
      ensures Valid()
      ensures Reacts(old(window), window, mss, changed, lost, Word(sndNxt - sndUna), allowed, resent)
      ensures SpanKept(old(window), window, mss, changed, lost, Word(sndNxt - sndUna), resent)
    {
      hide *;
      MssPositive();
      SpanAfterSent(window, mss, changed, lost, Word(sndNxt - sndUna), allowed, resent);
      SentIs(window, mss, changed, lost, Word(sndNxt - sndUna), allowed, resent);
      window := AfterSent(window, mss, changed, lost, Word(sndNxt - sndUna), allowed, resent);
    }

    /** Writes everything that is due at the time c. */
    method FlushAll(c: Clock, allowed: u32)
      returns (sent: seq<seq<u8>>, ghost moved: seq<Segment>, ghost ws: seq<Wire>, ghost due: seq<nat>, lost: bool,
               changed: bool, ghost dead: bool)
      requires Valid()
      modifies this`acklist, this`probeAsk, this`probeWait, this`tsProbe, this`probeTell, this`sndQueue, this`sndBuf,
               this`sndNxt, this`state, buffer
      ensures Valid()
      ensures Snd() == Moved(old(Snd()), allowed) && Rcv() == old(Rcv()).(acks := [])
      ensures old(sndBuf) <= moved && forall k :: |old(sndBuf)| <= k < |moved| ==>
        moved[k].xmit == 0 && moved[k].fastack == 0
      ensures sndBuf == RefreshAll(moved, c) && Flushed(moved, sndBuf, c, due, lost, changed, dead)
      ensures WritesDue(moved, c, due, PushWires(moved, c))
      ensures var probe := AfterTimer(old(Probe(probeAsk, probeWait, tsProbe)), rmtWnd, current);
        && ws == old(AckWires(acklist, c.wnd, rcvNxt)) + old(ProbeWires(probe.ask, probeTell, acklist, c.wnd, rcvNxt))
           + PushWires(moved, c)
        && Probe(probeAsk, probeWait, tsProbe) == probe.(ask := false) && !probeTell
      ensures sent == EncodedGroups(conv, Datagrams(mtu, ws))
      ensures state == if dead then DEAD else old(state)
    {
      hide *;
      var size;
      sent, size, ws := FlushControl(c.wnd);
      sent, lost, changed, moved, due, dead := FlushSegments(c, allowed, sent, size, ws);
      ws := ws + PushWires(moved, c);
    }

    /** The queue moves into the window, then the send buffer is gone through. */
    method FlushSegments(c: Clock, allowed: u32, sent0: seq<seq<u8>>, size0: nat, ghost ws: seq<Wire>)
      returns (sent: seq<seq<u8>>, lost: bool, changed: bool, ghost moved: seq<Segment>, ghost due: seq<nat>,
               ghost dead: bool)
      requires Valid() && Packed(sent0, size0, ws)
      modifies this`sndQueue, this`sndBuf, this`sndNxt, this`state, buffer
      ensures Valid() && Snd() == Moved(old(Snd()), allowed)
      ensures old(sndBuf) <= moved && forall k :: |old(sndBuf)| <= k < |moved| ==>
        moved[k].xmit == 0 && moved[k].fastack == 0
      ensures sndBuf == RefreshAll(moved, c) && WritesDue(moved, c, due, PushWires(moved, c))
      ensures sent == EncodedGroups(conv, Datagrams(mtu, ws + PushWires(moved, c)))
      ensures Flushed(moved, sndBuf, c, due, lost, changed, dead) && state == if dead then DEAD else old(state)
    {
      hide *;
      MoveQueue(allowed, c.wnd);
      moved := sndBuf;
      var size;
      sent, size, lost, changed, due, dead := FlushData(c, sent0, size0, ws);
      sent := FlushRemains(sent, size, ws + PushWires(moved, c));
    }

    /** Outputs what is left in the buffer. */
    method FlushRemains(sent0: seq<seq<u8>>, size: nat, ghost ws: seq<Wire>) returns (sent: seq<seq<u8>>)
      requires Packed(sent0, size, ws)
      ensures sent == EncodedGroups(conv, Datagrams(mtu, ws))
    {
      hide Packed, Datagrams;
      LastDatagram(sent0, size, ws);
      sent := sent0;
      if size > 0 {
        sent := sent + [buffer[..size]];
      }
    }

    /** Acknowledgements and window probes. */
    method FlushControl(wnd: u32) returns (sent: seq<seq<u8>>, size: nat, ghost ws: seq<Wire>)
      requires Valid()
      modifies this`acklist, this`probeAsk, this`probeWait, this`tsProbe, this`probeTell, buffer
      ensures Valid() && Packed(sent, size, ws) && Rcv() == old(Rcv()).(acks := [])
      ensures var probe := AfterTimer(old(Probe(probeAsk, probeWait, tsProbe)), rmtWnd, current);
        && ws == old(AckWires(acklist, wnd, rcvNxt)) + old(ProbeWires(probe.ask, probeTell, acklist, wnd, rcvNxt))
        && Probe(probeAsk, probeWait, tsProbe) == probe.(ask := false) && !probeTell
    {
      hide Pieces, Entries, Sns, Packed, AckWires, AfterTimer, Word, Diff, Sized, Pushes, Small;
      var n := |acklist|;
      var sn, ts := if n < 2 then 0 else acklist[n - 2], if n < 2 then 0 else acklist[n - 1];
      ghost var acks := AckWires(acklist, wnd, rcvNxt);
      sent, size := FlushAcks(wnd);
      NoAcks();
      UpdateProbe();
      ghost var ask, tell := probeAsk, probeTell;
      sent, size := FlushProbes(wnd, sn, ts, sent, size, acks);
      ws := acks + ProbeWires(ask, tell, old(acklist), wnd, rcvNxt);
    }

    /** A window request and an announcement, in the header of the last acknowledgement. */
    method FlushProbes(wnd: u32, sn: u32, ts: u32, sent0: seq<seq<u8>>, size0: nat, ghost ws: seq<Wire>)
      returns (sent: seq<seq<u8>>, size: nat)
      requires Valid() && Packed(sent0, size0, ws)
      modifies this`probeAsk, this`probeTell, buffer
      ensures Valid() && !probeAsk && !probeTell
      ensures var ask := if old(probeAsk) then [Wire(WASK, 0, wnd % 0x1_0000, ts, sn, rcvNxt, [])] else [];
        var tell := if old(probeTell) then [Wire(WINS, 0, wnd % 0x1_0000, ts, sn, rcvNxt, [])] else [];
        Packed(sent, size, ws + (ask + tell))
    {
      hide Valid, Packed;
      HeaderFits();
      sent, size := sent0, size0;
      ghost var ask, tell: seq<Wire> := [], [];
      assert ws + ask == ws;
      if probeAsk {
        var w := Wire(WASK, 0, wnd % 0x1_0000, ts, sn, rcvNxt, []);
        sent, size := Put(w, sent, size, ws);
        ask := [w];
      }
      assert ask + tell == ask;
      if probeTell {
        var w := Wire(WINS, 0, wnd % 0x1_0000, ts, sn, rcvNxt, []);
        sent, size := Put(w, sent, size, ws + ask);
        tell := [w];
      }
      assert ws + ask + tell == ws + (ask + tell);
      probeAsk, probeTell := false, false;
    }

    lemma NoAcks()
      ensures Sns([]) == []
    {
    }

    lemma HeaderFits()
      requires Valid()
      ensures OVERHEAD <= mtu
    {
    }

    lemma LastDatagram(sent: seq<seq<u8>>, size: nat, ws: seq<Wire>)
      requires Packed(sent, size, ws)
      ensures size <= buffer.Length
      ensures (if size > 0 then sent + [buffer[..size]] else sent) == EncodedGroups(conv, Datagrams(mtu, ws))
    {
      hide PackAll, EncodedAll;
      var p := PackAll(mtu, ws);
      GroupsAppend(conv, p.done, p.pending);
      SizeZero(p.pending);
    }
  }

  /** With 16-bit segment sizes the congestion bound outlasts every acknowledgement. */
  lemma WindowStays(w: Window, mss: u32, rmt: u32)
    requires 0 < mss && rmt <= 0xFFFF
    ensures mss <= 0xFFFF && WindowInv(w, mss) ==>
      var w' := AfterAcked(w, mss, rmt);
      WindowInv(w', mss) && (w'.cwnd > w.cwnd ==> w'.cwnd <= rmt)
  {
    hide WindowInv, NoOverflow, AfterAcked;
    if mss <= 0xFFFF && WindowInv(w, mss) {
      if w.cwnd < rmt {
        SixteenBitsFit(w, mss, rmt);
      }
      AckedKeepsWindow(w, mss, rmt);
    }
  }

  /** The receive window to advertise. */
  function Unused(wnd: u32, length: nat): (n: u32)
  {
    if length < wnd then wnd - length else 0
  }

  /** What is advertised is what the receiver can take: of the pieces that continue the queue,
      however many the reorder buffer holds, exactly the advertised number are moved. */
  lemma {:induction false} AdvertisedAreTaken(r: Receiver, k: nat)
    requires Unused(r.wnd, |r.queue|) <= k <= |r.buf|
    requires forall i :: 0 <= i < k ==> r.buf[i].sn == Word(r.nxt + i)
    ensures var n, r' := Unused(r.wnd, |r.queue|), Advance(r);
      && r'.buf == r.buf[n..] && r'.nxt == Word(r.nxt + n) && |r'.queue| == |r.queue| + n
      && (forall i :: 0 <= i < n ==> r'.queue[|r.queue| + i] == r.buf[i].piece)
      && r'.queue[..|r.queue|] == r.queue && Unused(r.wnd, |r'.queue|) == 0
    decreases |r.buf|
  {
    hide Word, Advance;
    var n := Unused(r.wnd, |r.queue|);
    SmallWord(r.nxt);
    if n > 0 {
      var next := r.(nxt := Word(r.nxt + 1), buf := r.buf[1..], queue := r.queue + [r.buf[0].piece]);
      forall i | 0 <= i < k - 1
        ensures next.buf[i].sn == Word(next.nxt + i)
      {
        assert r.buf[i + 1].sn == Word(r.nxt + (i + 1));
        WordOfWord(r.nxt + 1, i);
      }
      assert r.buf[0].sn == Word(r.nxt + 0);
      AdvertisedAreTaken(next, k - 1);
      AdvanceUnfolds(r);
      WordOfWord(r.nxt + 1, n - 1);
      var r' := Advance(r);
      assert r'.buf == r.buf[1..][n - 1..] == r.buf[n..];
      assert r'.queue[..|r.queue|] == r'.queue[..|r.queue| + 1][..|r.queue|] == r.queue;
      forall i | 0 <= i < n
        ensures r'.queue[|r.queue| + i] == r.buf[i].piece
      {
        if i == 0 {
          assert r'.queue[..|r.queue| + 1][|r.queue|] == r.buf[0].piece;
        } else {
          assert r'.queue[|next.queue| + (i - 1)] == next.buf[i - 1].piece;
        }
      }
    } else {
      NoRoom(r);
    }
  }

  lemma NoRoom(r: Receiver)
    requires |r.queue| >= r.wnd
    ensures Advance(r) == r
  {
  }

  /** The send window: the smaller of the two sides', and of the congestion window if it is on. */
  function Allowed(sndWnd: u32, rmtWnd: u32, cwnd: u32, nocwnd: bool): (n: u32)
    ensures n <= sndWnd && n <= rmtWnd && (nocwnd || n <= cwnd)
  {
    var both := if sndWnd <= rmtWnd then sndWnd else rmtWnd;
    if nocwnd || both < cwnd then both else cwnd
  }

  function ClockNow(now: u32, rto: u32, fastresend: int, nodelay: bool, wnd: u32, una: u32): (c: Clock)
  {
    var resent := if fastresend <= 0 then 0xFFFF_FFFF else Word(fastresend);
    Clock(now, rto, resent, if nodelay then 0 else rto / 8, nodelay, wnd, una)
  }

  lemma AllowedIs(sndWnd: u32, rmtWnd: u32, cwnd: u32, nocwnd: bool)
    ensures var least := if sndWnd <= rmtWnd then sndWnd else rmtWnd;
      Allowed(sndWnd, rmtWnd, cwnd, nocwnd) == if nocwnd || least <= cwnd then least else cwnd
  {
  }

  lemma ClockIs(now: u32, rto: u32, fastresend: int, nodelay: bool, wnd: u32, una: u32)
    ensures ClockNow(now, rto, fastresend, nodelay, wnd, una)
         == Clock(now, rto, if fastresend <= 0 then 0xFFFF_FFFF else fastresend % 0x1_0000_0000,
                  if nodelay then 0 else rto / 8, nodelay, wnd, una)
  {
  }

  /** The timer that asks a peer with a closed window for news. */
  datatype Probe = Probe(ask: bool, wait: u32, at: u32)

  function AfterTimer(p: Probe, rmt: u32, now: u32): (p': Probe)
  {
    if rmt != 0 then Probe(p.ask, 0, 0)
    else if p.wait == 0 then Probe(p.ask, PROBE_INIT, Word(now + PROBE_INIT))
    else if Diff(now, p.at) < 0 then p
    else
      var w := if p.wait < PROBE_INIT then PROBE_INIT else p.wait;
      var more := Word(w + w / 2);
      var wait := if more > PROBE_LIMIT then PROBE_LIMIT else more;
      Probe(true, wait, Word(now + wait))
  }

  /** The wait is zero when the timer is off, and otherwise within its limits. */
  predicate WaitOk(wait: u32)
  {
    wait == 0 || PROBE_INIT <= wait <= PROBE_LIMIT
  }

  /** The timer after it ran out n times while the remote window stayed closed; each time is the
      time at which the probe was due. */
  function AfterWaits(p: Probe, n: nat): (p': Probe)
  {
    if n == 0 then p
    else
      var before := AfterWaits(p, n - 1);
      AfterTimer(before, 0, before.at)
  }

  /** The back-off is over after eight waits, and from then on the wait is the longest. */
  lemma {:induction false} LongestWait(p: Probe, n: nat)
    requires PROBE_INIT <= p.wait <= PROBE_LIMIT && n >= 8
    ensures AfterWaits(p, n).wait == PROBE_LIMIT
    decreases n
  {
    if n == 8 {
      Waits(p, 1, 10500);
      Waits(p, 2, 15750);
      Waits(p, 3, 23625);
      Waits(p, 4, 35437);
      Waits(p, 5, 53155);
      Waits(p, 6, 79732);
      Waits(p, 7, 119598);
      Waits(p, 8, 120000);
    } else {
      LongestWait(p, n - 1);
      Waits(p, n, PROBE_LIMIT);
    }
  }

  /** One wait more: at least half as much again, within the limits. */
  lemma Waits(p: Probe, n: nat, least: nat)
    requires n > 0 && PROBE_INIT <= AfterWaits(p, n - 1).wait <= PROBE_LIMIT && least <= PROBE_LIMIT
    requires 2 * least <= 3 * AfterWaits(p, n - 1).wait
    ensures least <= AfterWaits(p, n).wait && PROBE_INIT <= AfterWaits(p, n).wait <= PROBE_LIMIT
  {
    DiffSelf(AfterWaits(p, n - 1).at);
  }

  lemma TimerStarts(now: u32, wait: nat)
    requires wait <= PROBE_LIMIT
    ensures Diff(Word(now + wait), now) == wait
  {
  }

  /** Half as much again fits a word, and so does the time it leads to. */
  lemma TimerGrows(wait: u32, now: u32)
    ensures WaitOk(wait) && wait > 0 ==>
      var more := Word(wait + wait / 2);
      var next := if more > PROBE_LIMIT then PROBE_LIMIT else more;
      && more == wait + wait / 2 && Diff(Word(now + next), now) == next
  {
    if WaitOk(wait) {
      var more := Word(wait + wait / 2);
      TimerStarts(now, if more > PROBE_LIMIT then PROBE_LIMIT else more);
    }
  }

  /** Segment i is pushed and its number lies before the end of the receive window when those
      before it have been handled. */
  ghost predicate Inside(x: Halves, ws: seq<Wire>, i: nat)
    requires i < |ws|
  {
    ws[i].cmd == PUSH && Diff(ws[i].sn, Word(AfterWires(x, ws[..i]).rcv.nxt + x.rcv.wnd)) < 0
  }

  predicate Below(taken: seq<nat>, n: nat)
  {
    forall k :: 0 <= k < |taken| ==> taken[k] < n
  }

  /** The positions of these segments, in order. */
  ghost predicate InsideWhenHandled(taken: seq<nat>, x: Halves, ws: seq<Wire>)
  {
    && Below(taken, |ws|)
    && (forall k, l :: 0 <= k < l < |taken| ==> taken[k] < taken[l])
    && (forall i :: 0 <= i < |ws| ==> (i in taken <==> Inside(x, ws, i)))
  }

  /** The sequence number and the time of each segment at these positions. */
  function NumbersAndTimes(ws: seq<Wire>, taken: seq<nat>): (r: seq<u32>)
    requires Below(taken, |ws|)
  {
    if taken == [] then []
    else
      var last := taken[|taken| - 1];
      NumbersAndTimes(ws, taken[..|taken| - 1]) + [ws[last].sn, ws[last].ts]
  }

  lemma NothingTaken(x: Halves)
    ensures Below([], 0) && InsideWhenHandled([], x, []) && NumbersAndTimes([], []) == []
  {
  }

  lemma InsideNext(x: Halves, ws: seq<Wire>, w: Wire)
    ensures forall i :: 0 <= i < |ws| ==> Inside(x, ws + [w], i) == Inside(x, ws, i)
    ensures Inside(x, ws + [w], |ws|) ==
      (w.cmd == PUSH && Diff(w.sn, Word(AfterWires(x, ws).rcv.nxt + x.rcv.wnd)) < 0)
  {
    hide AfterWires, Word, Diff;
    var more := ws + [w];
    assert more[..|ws|] == ws;
    forall i | 0 <= i < |ws|
      ensures Inside(x, more, i) == Inside(x, ws, i)
    {
      assert more[..i] == ws[..i];
    }
  }

  lemma TakenNext(taken: seq<nat>, x: Halves, ws: seq<Wire>, w: Wire)
    requires InsideWhenHandled(taken, x, ws)
    ensures var now := if w.cmd == PUSH && Diff(w.sn, Word(AfterWires(x, ws).rcv.nxt + x.rcv.wnd)) < 0 then [|ws|]
        else [];
      && Below(taken + now, |ws| + 1) && InsideWhenHandled(taken + now, x, ws + [w]) && Below(taken, |ws|)
      && NumbersAndTimes(ws + [w], taken + now)
         == NumbersAndTimes(ws, taken) + if now == [] then [] else [w.sn, w.ts]
  {
    hide AfterWires, Word, Diff, NumbersAndTimes, Inside;
    var more := ws + [w];
    InsideNext(x, ws, w);
    NumbersKept(ws, taken, w);
    if Inside(x, more, |ws|) {
      NumbersNext(more, taken, |ws|);
      TakenGrows(taken, x, ws, w);
    } else {
      assert taken + [] == taken && NumbersAndTimes(ws, taken) + [] == NumbersAndTimes(ws, taken);
      assert |ws| !in taken;
    }
  }

  lemma TakenGrows(taken: seq<nat>, x: Halves, ws: seq<Wire>, w: Wire)
    requires InsideWhenHandled(taken, x, ws) && Inside(x, ws + [w], |ws|)
    requires forall i :: 0 <= i < |ws| ==> Inside(x, ws + [w], i) == Inside(x, ws, i)
    ensures InsideWhenHandled(taken + [|ws|], x, ws + [w])
  {
    hide Inside;
    var grown := taken + [|ws|];
    assert grown[|taken|] == |ws|;
    forall i | 0 <= i < |ws + [w]|
      ensures i in grown <==> Inside(x, ws + [w], i)
    {
      assert i < |ws| ==> (i in grown <==> i in taken);
    }
  }

  lemma NumbersNext(ws: seq<Wire>, taken: seq<nat>, i: nat)
    requires Below(taken, |ws|) && i < |ws|
    ensures NumbersAndTimes(ws, taken + [i]) == NumbersAndTimes(ws, taken) + [ws[i].sn, ws[i].ts]
  {
    assert (taken + [i])[..|taken|] == taken;
  }

  lemma {:induction false} NumbersKept(ws: seq<Wire>, taken: seq<nat>, w: Wire)
    requires Below(taken, |ws|)
    ensures NumbersAndTimes(ws + [w], taken) == NumbersAndTimes(ws, taken)
    decreases |taken|
  {
    if taken != [] {
      NumbersKept(ws, taken[..|taken| - 1], w);
    }
  }

  predicate AsksWindow(ws: seq<Wire>)
  {
    exists w :: w in ws && w.cmd == WASK
  }

  // ---------- Facts about the loops ----------

  lemma PackNext(mtu: nat, conv: u32, ws: seq<Wire>, w: Wire)
    ensures PackAll(mtu, ws + [w]) == PackOne(mtu, PackAll(mtu, ws), w)
    ensures var p := PackAll(mtu, ws);
      && EncodedGroups(conv, p.done + [p.pending]) == EncodedGroups(conv, p.done) + [EncodedAll(conv, p.pending)]
      && EncodedAll(conv, p.pending + [w]) == EncodedAll(conv, p.pending) + Encoded(conv, w)
      && EncodedAll(conv, [w]) == Encoded(conv, w)
      && Size(p.pending + [w]) == Size(p.pending) + OVERHEAD + |w.data| && Size([w]) == OVERHEAD + |w.data|
  {
    var p := PackAll(mtu, ws);
    assert (ws + [w])[..|ws|] == ws;
    GroupsAppend(conv, p.done, p.pending);
    EncodedAppend(conv, p.pending, w);
    EncodedAppend(conv, [], w);
    assert [] + [w] == [w];
    SizeAppend(p.pending, w);
    SizeAppend([], w);
  }

  lemma SizeAppend(ws: seq<Wire>, w: Wire)
    ensures Size(ws + [w]) == Size(ws) + OVERHEAD + |w.data|
  {
    assert (ws + [w])[..|ws|] == ws;
  }

  lemma SizeZero(ws: seq<Wire>)
    ensures Size(ws) == 0 <==> ws == []
  {
  }

  lemma GroupsAppend(conv: u32, groups: seq<seq<Wire>>, g: seq<Wire>)
    ensures EncodedGroups(conv, groups + [g]) == EncodedGroups(conv, groups) + [EncodedAll(conv, g)]
  {
    assert (groups + [g])[..|groups|] == groups;
  }

  lemma DataFits(w: Wire, mtu: u32)
    requires OVERHEAD + |w.data| <= mtu
    ensures Word(|w.data|) == |w.data|
  {
  }

  lemma AckWiresNext(acklist: seq<u32>, n: nat, wnd: u32, una: u32)
    requires n + 2 <= |acklist|
    ensures AckWires(acklist[..n + 2], wnd, una)
         == AckWires(acklist[..n], wnd, una) + [Wire(ACK, 0, wnd % 0x1_0000, acklist[n + 1], acklist[n], una, [])]
  {
    assert acklist[..n + 2][..n] == acklist[..n];
  }

  lemma MovedOne(queue: seq<Segment>, k: nat, buf: seq<Segment>, una: u32, nxt: u32, cwnd: u32, seg: Segment)
    requires k < |queue| && Diff(nxt, Word(una + cwnd)) < 0
    requires EntryOf(seg) == Numbered(nxt, PieceOf(queue[k]))
    ensures Moved(Sender(Pieces(queue[k..]), Entries(buf), una, nxt), cwnd)
         == Moved(Sender(Pieces(queue[k + 1..]), Entries(buf + [seg]), una, Word(nxt + 1)), cwnd)
  {
    hide Pieces, Entries, Word, Diff;
    PiecesAt(queue[k..]);
    PiecesDrop(queue[k..], 1);
    assert queue[k..][1..] == queue[k + 1..];
    EntriesParts(buf, [seg]);
    OneSegment(seg);
  }

  lemma SizedAppend(buf: seq<Segment>, queue: seq<Segment>, k: nat, mss: nat, seg: Segment)
    requires Sized(buf, mss) && Pushes(buf) && Sized(queue, mss) && k < |queue|
    requires seg.cmd == PUSH && seg.data == queue[k].data && seg.frg == queue[k].frg
    ensures Sized(buf + [seg], mss) && Pushes(buf + [seg])
  {
  }

  lemma FragmentsStep(mss: nat, rest: seq<u8>, n: nat, before: seq<Piece>)
    requires mss > 0 && 0 < n <= 255
    ensures var size := if |rest| > mss then mss else |rest|;
      before + Fragments(mss, rest, n) == (before + [Piece(n - 1, rest[..size])]) + Fragments(mss, rest[size..], n - 1)
  {
  }

  lemma FragmentsDone(mss: nat, rest: seq<u8>, before: seq<Piece>)
    requires mss > 0
    ensures before + Fragments(mss, rest, 0) == before
  {
  }

  lemma SizedGrows(segs: seq<Segment>, mss: nat, seg: Segment)
    requires Sized(segs, mss) && |seg.data| <= mss && seg.frg < 256
    ensures Sized(segs + [seg], mss)
  {
  }

  lemma SizedFrom(segs: seq<Segment>, mss: nat, k: nat)
    requires Sized(segs, mss) && k <= |segs|
    ensures Sized(segs[k..], mss)
  {
  }

  ghost predicate RefreshedUpTo(buf: seq<Segment>, was: seq<Segment>, k: nat, c: Clock)
    requires k <= |buf| == |was|
  {
    && (forall i :: 0 <= i < k ==> buf[i] == Refreshed(was[i], c))
    && (forall i :: k <= i < |buf| ==> buf[i] == was[i])
  }

  lemma RefreshedAt(buf: seq<Segment>, was: seq<Segment>, k: nat, c: Clock)
    requires k < |buf| == |was| && RefreshedUpTo(buf, was, k, c)
    ensures buf[k] == was[k] && RefreshedUpTo(buf[k := Refreshed(buf[k], c)], was, k + 1, c)
  {
    hide Refreshed;
  }

  lemma RefreshedWhole(buf: seq<Segment>, was: seq<Segment>, c: Clock)
    requires |buf| == |was| && RefreshedUpTo(buf, was, |buf|, c)
    ensures buf == RefreshAll(was, c)
  {
    hide Refreshed;
  }

  lemma NoneFlushed(c: Clock)
    ensures !AnyLost([], c) && !AnySkipped([], c) && !AnyDead([], c) && PushWires([], c) == []
  {
  }

  lemma DueAreIn(segs: seq<Segment>, c: Clock, due: seq<nat>, ws: seq<Wire>)
    requires WritesDue(segs, c, due, ws)
    ensures Positions(due, |segs|)
  {
  }

  lemma SkippedIsNotTimedOut(s: Segment, c: Clock)
    ensures !(Skipped(s, c) && TimedOut(s, c))
  {
  }

  lemma AsksAppend(ws: seq<Wire>, w: Wire)
    ensures AsksWindow(ws + [w]) == (AsksWindow(ws) || w.cmd == WASK)
    ensures !AsksWindow([])
  {
    if AsksWindow(ws) {
      var x :| x in ws && x.cmd == WASK;
      assert x in ws + [w];
    }
    if w.cmd == WASK {
      assert w in ws + [w];
    }
  }

  lemma TimerFacts(now: u32, at: u32, interval: u32)
    requires interval <= 5000
    ensures Diff(now, now) == 0 && Diff(Word(now + interval), now) == interval
    ensures -10000 <= Diff(now, at) < 10000 ==>
      Diff(at, now) == -Diff(now, at)
      && Diff(now, Word(at + interval)) == Diff(now, at) - interval
      && Diff(Word(at + interval), now) == interval - Diff(now, at)
  {
    hide Word, Diff;
    DiffInverse(now, at);
    DiffExact(now, now);
    DiffExact(now + interval, now);
    var d := Diff(now, at);
    if -10000 <= d < 10000 {
      WordOfWord(now - d, interval);
      DiffExact(now - d, now);
      DiffExact(now, now - d + interval);
      DiffExact(now - d + interval, now);
    }
  }

  lemma DiffSelf(a: u32)
    ensures Diff(a, a) == 0
  {
  }

  lemma SendableNow(w: Wire)
    requires w.cmd in {PUSH, ACK, WASK, WINS} && |w.data| < WRAP
    ensures Sendable(w)
  {
  }

  lemma NoWires(x: Halves)
    ensures AfterWires(x, []) == x && !AsksWindow([])
  {
  }

  lemma ParseStops(conv: u32, b: seq<u8>)
    ensures |b| < OVERHEAD ==> Parse(conv, b) == Parsed(0, [])
    ensures |b| >= OVERHEAD && Value32(b[..4]) != conv ==> Parse(conv, b) == Parsed(-1, [])
    ensures |b| >= OVERHEAD && Value32(b[..4]) == conv && |b| - OVERHEAD < HeaderLength(b) ==>
      Parse(conv, b) == Parsed(-2, [])
    ensures |b| >= OVERHEAD && Value32(b[..4]) == conv && |b| - OVERHEAD >= HeaderLength(b)
      && b[4] !in {PUSH, ACK, WASK, WINS}
      ==> Parse(conv, b) == Parsed(-3, [])
  {
  }

  predicate Small(segs: seq<Segment>)
  {
    forall s :: s in segs ==> s.frg < 256
  }

  lemma SmallParts(segs: seq<Segment>, k: nat)
    requires Small(segs) && k <= |segs|
    ensures Small(segs[k..])
  {
  }

  lemma SmallAppend(queue: seq<Segment>, buf: seq<Segment>, k: nat)
    requires Small(queue) && Small(buf) && k < |buf|
    ensures Small(queue + [buf[k]])
  {
  }

  lemma SmallSplice(segs: seq<Segment>, seg: Segment, k: nat)
    requires Small(segs) && seg.frg < 256 && k <= |segs|
    ensures Small(segs[..k] + ([seg] + segs[k..]))
  {
  }

  lemma SizedDrop(segs: seq<Segment>, mss: nat, k: nat)
    requires Sized(segs, mss) && Pushes(segs) && k <= |segs|
    ensures Sized(segs[k..], mss) && Pushes(segs[k..])
  {
  }

  lemma {:induction false} JoinedAppend(ps: seq<Piece>, p: Piece)
    ensures Joined(ps + [p]) == Joined(ps) + p.data
    decreases |ps|
  {
    if ps == [] {
      assert [p][1..] == [];
    } else {
      assert (ps + [p])[1..] == ps[1..] + [p];
      JoinedAppend(ps[1..], p);
    }
  }

  lemma JoinedNone()
    ensures Joined([]) == []
  {
  }

  lemma PeekedIsJoined(ps: seq<Piece>)
    requires PeekedSize(ps) >= 0
    ensures PeekedSize(ps) == |Joined(ps[..FirstCount(ps)])|
  {
  }

  lemma JoinedNext(ps: seq<Piece>, k: nat)
    requires k < |ps|
    ensures Joined(ps[..k + 1]) == Joined(ps[..k]) + ps[k].data
  {
    assert ps[..k + 1] == ps[..k] + [ps[k]];
    JoinedAppend(ps[..k], ps[k]);
  }

  lemma CountNext(ps: seq<Piece>, k: nat)
    requires k < |ps|
    ensures FirstCount(ps[k..]) == if ps[k].frg == 0 then 1 else 1 + FirstCount(ps[k + 1..])
  {
    assert ps[k..][1..] == ps[k + 1..];
  }

  lemma {:induction false} JoinedGrows(ps: seq<Piece>, k: nat)
    requires k <= FirstCount(ps)
    ensures |Joined(ps[..k])| <= |Joined(ps[..FirstCount(ps)])|
    decreases FirstCount(ps) - k
  {
    if k < FirstCount(ps) {
      JoinedNext(ps, k);
      JoinedGrows(ps, k + 1);
    }
  }

  lemma AdvanceOne(buf: seq<Segment>, k: nat, wnd: u32, nxt: u32, queue: seq<Segment>, acks: seq<u32>)
    requires k < |buf| && buf[k].sn == nxt && |queue| < wnd
    ensures Advance(Receiver(wnd, nxt, Entries(buf[k..]), Pieces(queue), acks))
         == Advance(Receiver(wnd, Word(nxt + 1), Entries(buf[k + 1..]), Pieces(queue + [buf[k]]), acks))
  {
    hide Pieces, Entries, Word, Advance;
    EntriesFrom(buf, k);
    PiecesParts(queue, [buf[k]]);
    OneSegment(buf[k]);
    AdvanceUnfolds(Receiver(wnd, nxt, Entries(buf[k..]), Pieces(queue), acks));
  }

  lemma EntriesFrom(segs: seq<Segment>, k: nat)
    requires k < |segs|
    ensures Entries(segs[k..])[0] == EntryOf(segs[k]) && Entries(segs[k..])[1..] == Entries(segs[k + 1..])
  {
    hide Entries;
    EntriesAt(segs[k..]);
    EntriesDrop(segs[k..], 1);
    assert segs[k..][1..] == segs[k + 1..];
  }

  lemma AdvanceUnfolds(r: Receiver)
    requires r.buf != [] && r.buf[0].sn == r.nxt && |r.queue| < r.wnd
    ensures Advance(r) == Advance(Receiver(r.wnd, Word(r.nxt + 1), r.buf[1..], r.queue + [r.buf[0].piece], r.acks))
  {
  }

  lemma InsertedAlone(x: Numbered)
    ensures Inserted([], x) == [x]
  {
  }

  lemma EntriesSplice(segs: seq<Segment>, seg: Segment, k: nat)
    requires k <= |segs|
    ensures Entries(segs[..k] + ([seg] + segs[k..])) == Entries(segs)[..k] + ([EntryOf(seg)] + Entries(segs)[k..])
  {
    hide Entries;
    EntriesParts(segs[..k], [seg] + segs[k..]);
    EntriesParts([seg], segs[k..]);
    EntriesDrop(segs, k);
    EntriesTake(segs, k);
    OneSegment(seg);
  }

  lemma NoneAcked(sn: u32)
    ensures Acked([], sn) == []
  {
  }

  /** One turn of the loop of parse_ack. */
  lemma AckedTurn(was: seq<Segment>, buf: seq<Segment>, k: nat, sn: u32)
    requires k < |was| == |buf| && buf[k..] == was[k..]
    requires buf[..k] + Acked(was[k..], sn) == Acked(was, sn)
    ensures buf[k].sn == sn ==> buf[..k] + buf[k + 1..] == Acked(was, sn)
    ensures buf[k].sn != sn ==>
      var buf' := buf[k := buf[k].(fastack := Word(buf[k].fastack + 1))];
      buf'[k + 1..] == was[k + 1..] && buf'[..k + 1] + Acked(was[k + 1..], sn) == Acked(was, sn)
  {
    hide Word;
    assert was[k..][1..] == was[k + 1..] && buf[k..][1..] == buf[k + 1..];
    assert buf[k] == was[k..][0];
    if buf[k].sn != sn {
      var x := buf[k].(fastack := Word(buf[k].fastack + 1));
      assert Acked(was[k..], sn) == [x] + Acked(was[k + 1..], sn);
      assert buf[k := x][..k + 1] == buf[..k] + [x];
    }
  }

  /** One turn of the loop of parse_data: what remains to be inserted before entry i. */
  lemma InsertedTurn(es: seq<Numbered>, x: Numbered, i: nat)
    requires i < |es|
    ensures var at := es[i];
      && (at.sn == x.sn ==> Inserted(es[..i + 1], x) + es[i + 1..] == es)
      && (at.sn != x.sn && Diff(x.sn, at.sn) > 0 ==>
         Inserted(es[..i + 1], x) + es[i + 1..] == es[..i + 1] + ([x] + es[i + 1..]))
      && (at.sn != x.sn && Diff(x.sn, at.sn) <= 0 ==>
         Inserted(es[..i + 1], x) + es[i + 1..] == Inserted(es[..i], x) + es[i..])
  {
    hide Diff;
    assert es[..i + 1][..i] == es[..i];
    assert es[..i + 1][i] == es[i];
    assert es[i..] == [es[i]] + es[i + 1..];
    assert es == es[..i + 1] + es[i + 1..];
  }

  lemma AckedSized(segs: seq<Segment>, sn: u32, mss: nat)
    requires Sized(segs, mss) && Pushes(segs)
    ensures Sized(Acked(segs, sn), mss) && Pushes(Acked(segs, sn))
  {
    AckedRemoves(segs, sn);
  }

  lemma {:induction false} AfterWiresAppend(x: Halves, ws: seq<Wire>, w: Wire)
    ensures AfterWires(x, ws + [w]) == AfterWire(AfterWires(x, ws), w)
    decreases |ws|
  {
    hide AfterWire;
    if ws == [] {
      assert [w][1..] == [];
    } else {
      assert (ws + [w])[1..] == ws[1..] + [w];
      AfterWiresAppend(AfterWire(x, ws[0]), ws[1..], w);
    }
  }

  lemma ParseOne(conv: u32, before: seq<u8>, rest: seq<u8>, w: Wire, length: u32, done: seq<Wire>)
    requires |before| >= OVERHEAD && rest == before[OVERHEAD..] && Value32(before[..4]) == conv
    requires length == HeaderLength(before) <= |rest| && w == HeaderWire(before, []).(data := rest[..length])
    requires w.cmd in {PUSH, ACK, WASK, WINS}
    ensures Parse(conv, before).result == Parse(conv, rest[length..]).result
    ensures done + Parse(conv, before).wires == (done + [w]) + Parse(conv, rest[length..]).wires
  {
    hide Value32, HeaderLength, Parse;
    assert rest[length..] == before[OVERHEAD + length..];
    assert rest[..length] == before[OVERHEAD..OVERHEAD + length];
    ParseStep(conv, before);
  }
}
