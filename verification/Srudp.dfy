/** Class Srudp of pytoxsh/srudp.py as its methods change it, proved against SrudpSpec. */
module Srudp {
  import opened SrudpSpec

  class Srudp {
    var mode: Mode
    var state: State
    var selfisn: int
    var peerisn: int
    var selfseq: int
    var peerseq: int
    var rcvpkts: map<int, Packet>
    var rcvwins: map<int, Packet>
    var sndpkts: map<int, Packet>
    var sndwins: map<int, Packet>
    var rcvseq: int
    var maxrcvseq: int

    ghost function Current(): (e: Endpoint)
      reads this
    {
      Endpoint(mode, state, selfisn, peerisn, selfseq, peerseq, rcvpkts, rcvwins, sndpkts, sndwins, rcvseq, maxrcvseq)
    }

    constructor ()
      ensures Current() == Fresh(SERVER)
    {
      mode, state := SERVER, INIT;
      selfisn, peerisn, selfseq, peerseq := 0, 0, 0, 0;
      rcvpkts, rcvwins, sndpkts, sndwins := map[], map[], map[], map[];
      rcvseq, maxrcvseq := 0, 0;
    }

    method Mkcon(isn: int) returns (sends: seq<Packet>)
      modifies this
      ensures Outcome(Current(), sends) == Connect(old(Current()), isn)
    {
      mode := CLIENT;
      state := SYN_SENT;
      selfisn := isn;
      selfseq := isn + 2;
      sends := [Packet(SYN, isn, 0, "")];
    }

    method MakeDataPkt(data: string) returns (p: Packet)
      modifies this`selfseq
      ensures p == DataPacket(old(Current()), data) && Current() == old(Current()).(selfseq := old(selfseq) + 1)
    {
      p := Packet(DATA, selfseq, 0, data);
      selfseq := selfseq + 1;
    }

    /** Moves the buffered packets with the lowest numbers to the window while it has room. */
    method AttempFlush() returns (sends: seq<Packet>)
      modifies this`sndpkts, this`sndwins
      ensures Outcome(Current(), sends) == Flush(old(Current()))
      ensures Filed(old(Current())) ==> Flushes(old(Current()), Current(), sends)
    {
      hide Filed, Flushes, Flush;
      ghost var start := Current();
      FlushIsIf(start);
      sends := [];
      if |sndwins| >= WIN_SIZE {
        FlushStops(Current());
        return;
      }
      while |sndpkts| > 0 && |sndwins| < WIN_SIZE
        invariant Flush(start) == Outcome(Flush(Current()).e, sends + Flush(Current()).sends)
        decreases |sndpkts|
      {
        NotEmpty(sndpkts);
        var key := Lowest(sndpkts.Keys);
        FlushNext(Current(), key, sends);
        sends := sends + [sndpkts[key]];
        sndwins := sndwins[key := sndpkts[key]];
        sndpkts := sndpkts - {key};
      }
      FlushStops(Current());
      assert sends + [] == sends;
    }

    method AttempSend(data: string) returns (accepted: bool, sends: seq<Packet>)
      modifies this
      ensures Outcome(Current(), sends) == SrudpSpec.Send(old(Current()), data)
      ensures accepted == (|old(sndpkts)| < 10) && selfseq == old(selfseq) + if accepted then 1 else 0
    {
      hide Flush;
      accepted, sends := false, [];
      if |sndpkts| < BUF_SIZE {
        accepted := true;
        var p := MakeDataPkt(data);
        sndpkts := sndpkts[p.sn := p];
      }
      if 3 * |sndpkts| >= BUF_SIZE || |sndwins| < BUF_SIZE {
        sends := AttempFlush();
      }
    }

    method StatemachineClient(p: Packet) returns (sends: seq<Packet>)
      requires mode == CLIENT
      modifies this
      ensures Outcome(Current(), sends) == Receive(old(Current()), p, 1)
      ensures old(state) == SYN_SENT && p.kind == SYN2 && p.ack == selfisn + 1 && p.sn > 0 ==>
        && state == ESTAB && peerisn == p.sn && peerseq == p.sn + 2
        && sends == [Packet(SYN_ACK, selfisn + 1, p.sn + 1, "")]
      ensures old(state) == ESTAB && p.kind == DATA ==> Taken(old(Current()), p, Current(), sends)
      ensures old(state) == ESTAB && p.kind == DATA_ACK ==>
        Outcome(Current(), sends) == Flush(old(Current()).(sndwins := old(sndwins) - {p.sn}))
    {
      hide Flush;
      sends := [];
      match state {
        case SYN_SENT =>
          if p.kind == SYN2 && p.ack == selfisn + 1 && p.sn > 0 {
            peerisn := p.sn;
            peerseq := p.sn + 2;
            state := ESTAB;
            sends := [Packet(SYN_ACK, p.ack, p.sn + 1, "")];
          }
        case ESTAB => sends := Established(p);
        case _ =>
      }
    }

    method StatemachineServer(p: Packet, isn: int) returns (sends: seq<Packet>)
      requires mode == SERVER
      modifies this
      ensures Outcome(Current(), sends) == Receive(old(Current()), p, isn)
      ensures old(state) == INIT && p.kind == SYN && p.sn > 0 ==>
        && state == SYN_RCVD && peerisn == p.sn && peerseq == p.sn + 2 && selfisn == isn && selfseq == isn + 2
        && sends == [Packet(SYN2, isn, p.sn + 1, "")]
      ensures old(state) == SYN_RCVD && p.kind == SYN_ACK && p.ack == selfisn + 1 && p.sn == peerisn + 1 ==>
        state == ESTAB && sends == []
      ensures old(state) == ESTAB && p.kind == DATA ==> Taken(old(Current()), p, Current(), sends)
      ensures old(state) == ESTAB && p.kind == DATA_ACK ==>
        Outcome(Current(), sends) == Flush(old(Current()).(sndwins := old(sndwins) - {p.sn}))
    {
      hide Flush;
      sends := [];
      match state {
        case INIT =>
          if p.kind == SYN && p.sn > 0 {
            state := SYN_RCVD;
            peerisn := p.sn;
            peerseq := p.sn + 2;
            selfisn := isn;
            selfseq := isn + 2;
            sends := [Packet(SYN2, isn, p.sn + 1, "")];
          }
        case SYN_RCVD =>
          if p.kind == SYN_ACK && p.ack == selfisn + 1 && p.sn == peerisn + 1 {
            state := ESTAB;
          }
        case ESTAB => sends := Established(p);
        case _ =>
      }
    }

    /** What both state machines do with data and acknowledgements once established. */
    method Established(p: Packet) returns (sends: seq<Packet>)
      requires state == ESTAB
      modifies this
      ensures Outcome(Current(), sends) == Receive(old(Current()), p, 1)
      ensures p.kind == DATA ==> Taken(old(Current()), p, Current(), sends)
      ensures p.kind == DATA_ACK ==>
        Outcome(Current(), sends) == Flush(old(Current()).(sndwins := old(sndwins) - {p.sn}))
    {
      hide Flush;
      sends := [];
      if p.kind == DATA {
        sends := [Packet(DATA_ACK, p.sn, p.sn + 1, "")];
        rcvpkts := rcvpkts[p.sn := p];
        if p.sn > maxrcvseq {
          maxrcvseq := p.sn;
        }
      } else if p.kind == DATA_ACK {
        assert p.sn !in sndwins ==> sndwins - {p.sn} == sndwins;
        if p.sn in sndwins {
          sndwins := sndwins - {p.sn};
        }
        sends := AttempFlush();
      }
    }

    method OnRecvPkts()
      modifies this
      ensures Current() == OnRecvData(old(Current()))
    {
      hide Moved, Span, Run;
      if rcvseq == 0 {
        rcvseq := peerseq;
      }
      var ready := ReadyPkts();
      if |ready| > 0 {
        MoveReady(ready);
        MovedIs(old(rcvpkts), old(rcvwins), rcvseq, |ready|);
        assert rcvseq in rcvwins.Keys;
        var top := Highest(rcvwins.Keys);
        MaxUnique(rcvwins.Keys, top);
        rcvseq := top + 1;
      }
    }

    /** The packets that continue what was read, at most a batch. */
    method ReadyPkts() returns (ready: seq<Packet>)
      ensures |ready| == Run(rcvpkts, maxrcvseq, rcvseq, BATCH)
      ensures forall i :: 0 <= i < |ready| ==> rcvseq + i in rcvpkts && ready[i] == rcvpkts[rcvseq + i]
    {
      hide Run;
      ready := [];
      var counter := rcvseq;
      while counter < rcvseq + BATCH && counter <= maxrcvseq
        invariant rcvseq <= counter <= rcvseq + BATCH && |ready| == counter - rcvseq
        invariant forall i :: 0 <= i < |ready| ==> rcvseq + i in rcvpkts && ready[i] == rcvpkts[rcvseq + i]
        invariant Run(rcvpkts, maxrcvseq, rcvseq, BATCH) == |ready| + Run(rcvpkts, maxrcvseq, counter, BATCH - |ready|)
      {
        RunOne(rcvpkts, maxrcvseq, counter, BATCH - |ready|);
        if counter in rcvpkts {
          ready := ready + [rcvpkts[counter]];
        } else {
          break;
        }
        counter := counter + 1;
      }
      RunOne(rcvpkts, maxrcvseq, counter, BATCH - |ready|);
    }

    method MoveReady(ready: seq<Packet>)
      requires forall i :: 0 <= i < |ready| ==> rcvseq + i in rcvpkts && ready[i] == rcvpkts[rcvseq + i]
      requires forall i :: rcvseq <= i < rcvseq + |ready| ==> i in rcvpkts
      modifies this`rcvwins, this`rcvpkts
      ensures rcvwins == Moved(old(rcvpkts), old(rcvwins), rcvseq, |ready|)
      ensures rcvpkts == old(rcvpkts) - Span(rcvseq, |ready|)
    {
      hide Moved, Span;
      ghost var was, wins := rcvpkts, rcvwins;
      MovedNone(was, wins, rcvseq);
      for i := 0 to |ready|
        invariant rcvwins == Moved(was, wins, rcvseq, i) && rcvpkts == was - Span(rcvseq, i)
      {
        MovedNext(was, wins, rcvseq, i);
        rcvwins := rcvwins[rcvseq + i := ready[i]];
        rcvpkts := rcvpkts - {rcvseq + i};
      }
    }

    method ReadPacket() returns (found: bool, p: Packet)
      modifies this`rcvwins
      ensures found == (old(rcvwins) != map[]) && Current() == AfterRead(old(Current()))
      ensures found ==> p == Readable(old(Current()))
    {
      found, p := |rcvwins| > 0, Packet(DATA, 0, 0, "");
      EmptyIff(rcvwins);
      if found {
        NotEmpty(rcvwins);
        var key := Lowest(rcvwins.Keys);
        MinUnique(rcvwins.Keys, key);
        p := rcvwins[key];
        rcvwins := rcvwins - {key};
      }
    }
  }

  // ---------- Keys ----------

  method Lowest(s: set<int>) returns (k: int)
    requires s != {}
    ensures IsMin(s, k)
  {
    Inhabited(s);
    k :| k in s;
    var rest := s - {k};
    while rest != {}
      invariant k in s && rest <= s && forall x :: x in s && x !in rest ==> k <= x
      decreases |rest|
    {
      Inhabited(rest);
      var x :| x in rest;
      rest := rest - {x};
      if x < k {
        k := x;
      }
    }
  }

  method Highest(s: set<int>) returns (k: int)
    requires s != {}
    ensures IsMax(s, k)
  {
    Inhabited(s);
    k :| k in s;
    var rest := s - {k};
    while rest != {}
      invariant k in s && rest <= s && forall x :: x in s && x !in rest ==> x <= k
      decreases |rest|
    {
      Inhabited(rest);
      var x :| x in rest;
      rest := rest - {x};
      if x > k {
        k := x;
      }
    }
  }

  lemma MinUnique(s: set<int>, k: int)
    requires s != {} && IsMin(s, k)
    ensures MinKey(s) == k
  {
  }

  lemma MaxUnique(s: set<int>, k: int)
    requires s != {} && IsMax(s, k)
    ensures MaxKey(s) == k
  {
  }

  lemma RunOne(rcvpkts: map<int, Packet>, maxrcvseq: int, k: int, limit: nat)
    ensures Run(rcvpkts, maxrcvseq, k, limit) ==
      if limit == 0 || k > maxrcvseq || k !in rcvpkts then 0 else 1 + Run(rcvpkts, maxrcvseq, k + 1, limit - 1)
  {
  }

  lemma MovedNone(was: map<int, Packet>, wins: map<int, Packet>, k: int)
    ensures Moved(was, wins, k, 0) == wins && was - Span(k, 0) == was
  {
  }

  lemma MovedNext(was: map<int, Packet>, wins: map<int, Packet>, k: int, i: nat)
    requires forall j :: k <= j < k + i + 1 ==> j in was
    ensures Moved(was, wins, k, i + 1) == Moved(was, wins, k, i)[k + i := was[k + i]]
    ensures was - Span(k, i + 1) == was - Span(k, i) - {k + i}
  {
    assert Span(k, i + 1) == Span(k, i) + {k + i};
  }

  lemma EmptyIff(m: map<int, Packet>)
    ensures |m| == 0 <==> m == map[]
  {
  }

  lemma NotEmpty(m: map<int, Packet>)
    requires |m| > 0
    ensures m != map[] && m.Keys != {}
  {
    assert |m.Keys| == |m|;
  }

  lemma Smaller(m: map<int, Packet>, k: int)
    requires k in m
    ensures |m - {k}| < |m|
  {
    assert (m - {k}).Keys == m.Keys - {k};
    assert |m.Keys| == |m| && |(m - {k}).Keys| == |m - {k}|;
  }

  /** One turn of the flushing loop. */
  lemma FlushNext(e: Endpoint, k: int, sends: seq<Packet>)
    requires |e.sndpkts| > 0 && |e.sndwins| < WIN_SIZE && IsMin(e.sndpkts.Keys, k)
    ensures var e1 := e.(sndwins := e.sndwins[k := e.sndpkts[k]], sndpkts := e.sndpkts - {k});
      && Flush(e).e == Flush(e1).e && |e1.sndpkts| < |e.sndpkts|
      && sends + Flush(e).sends == (sends + [e.sndpkts[k]]) + Flush(e1).sends
  {
    NotEmpty(e.sndpkts);
    MinUnique(e.sndpkts.Keys, k);
    Smaller(e.sndpkts, k);
  }

  lemma FlushStops(e: Endpoint)
    requires |e.sndpkts| == 0 || |e.sndwins| >= WIN_SIZE
    ensures Flush(e) == Outcome(e, [])
  {
    EmptyIff(e.sndpkts);
  }
}
