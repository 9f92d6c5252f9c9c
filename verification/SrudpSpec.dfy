/** What the operations of class Srudp (pytoxsh/srudp.py) do to a channel before it is closed. */
module SrudpSpec {

  datatype Kind = SYN | SYN2 | SYN_ACK | DATA | DATA_ACK

  datatype Packet = Packet(kind: Kind, sn: int, ack: int, data: string)

  datatype Mode = SERVER | CLIENT

  datatype State = INIT | SYN_SENT | SYN_RCVD | ESTAB

  datatype Endpoint = Endpoint(mode: Mode, state: State, selfisn: int, peerisn: int, selfseq: int, peerseq: int,
                               rcvpkts: map<int, Packet>, rcvwins: map<int, Packet>,
                               sndpkts: map<int, Packet>, sndwins: map<int, Packet>, rcvseq: int, maxrcvseq: int)

  const BUF_SIZE := 10
  const WIN_SIZE := 208
  const BATCH := 20

  function Fresh(mode: Mode): (e: Endpoint)
  {
    Endpoint(mode, INIT, 0, 0, 0, 0, map[], map[], map[], map[], 0, 0)
  }

  /** The new state and the packets handed to the transport. */
  datatype Outcome = Outcome(e: Endpoint, sends: seq<Packet>)

  // ---------- Keys ----------

  ghost predicate IsMin(s: set<int>, k: int)
  {
    k in s && forall x :: x in s ==> k <= x
  }

  ghost predicate IsMax(s: set<int>, k: int)
  {
    k in s && forall x :: x in s ==> x <= k
  }

  lemma NoMember(s: set<int>)
    requires forall x: int :: x !in s
    ensures s == {}
  {
    var none: set<int> := {};
    assert forall x: int :: x in s <==> x in none;
    assert s == none;
  }

  lemma Inhabited(s: set<int>)
    requires s != {}
    ensures exists x :: x in s
  {
    if forall x :: x !in s {
      NoMember(s);
    }
  }

  lemma {:induction false} MinExists(s: set<int>)
    requires s != {}
    ensures exists k :: IsMin(s, k)
    decreases |s|
  {
    Inhabited(s);
    var x :| x in s;
    if s == {x} {
      assert IsMin(s, x);
    } else {
      MinExists(s - {x});
      var m :| IsMin(s - {x}, m);
      assert forall y :: y in s ==> y == x || y in s - {x};
      assert IsMin(s, if x < m then x else m);
    }
  }

  lemma {:induction false} MaxExists(s: set<int>)
    requires s != {}
    ensures exists k :: IsMax(s, k)
    decreases |s|
  {
    Inhabited(s);
    var x :| x in s;
    if s == {x} {
      assert IsMax(s, x);
    } else {
      MaxExists(s - {x});
      var m :| IsMax(s - {x}, m);
      assert forall y :: y in s ==> y == x || y in s - {x};
      assert IsMax(s, if x > m then x else m);
    }
  }

  ghost function MinKey(s: set<int>): (k: int)
    requires s != {}
    ensures IsMin(s, k)
  {
    MinExists(s);
    var k :| IsMin(s, k);
    k
  }

  ghost function MaxKey(s: set<int>): (k: int)
    requires s != {}
    ensures IsMax(s, k)
  {
    MaxExists(s);
    var k :| IsMax(s, k);
    k
  }

  // ---------- Handshake ----------

  /** mkcon: isn is the random number drawn. */
  function Connect(e: Endpoint, isn: int): (r: Outcome)
  {
    Outcome(e.(mode := CLIENT, state := SYN_SENT, selfisn := isn, selfseq := isn + 2), [Packet(SYN, isn, 0, "")])
  }

  // ---------- Sending ----------

  /** attemp_flush: packets move to the window in the order of their numbers, while it has room. */
  ghost function Flush(e: Endpoint): (r: Outcome)
    decreases |e.sndpkts|
  {
    if |e.sndwins| >= WIN_SIZE || e.sndpkts == map[] then Outcome(e, [])
    else
      var k := MinKey(e.sndpkts.Keys);
      var rest := Flush(e.(sndwins := e.sndwins[k := e.sndpkts[k]], sndpkts := e.sndpkts - {k}));
      Outcome(rest.e, [e.sndpkts[k]] + rest.sends)
  }

  function DataPacket(e: Endpoint, data: string): (p: Packet)
  {
    Packet(DATA, e.selfseq, 0, data)
  }

  predicate Accepts(e: Endpoint)
  {
    |e.sndpkts| < BUF_SIZE
  }

  function Buffered(e: Endpoint, data: string): (e': Endpoint)
  {
    if Accepts(e) then e.(sndpkts := e.sndpkts[e.selfseq := DataPacket(e, data)], selfseq := e.selfseq + 1) else e
  }

  /** attemp_send; a third of the buffer size, 10/3, is reached at 4 packets. */
  ghost function Send(e: Endpoint, data: string): (r: Outcome)
  {
    var e1 := Buffered(e, data);
    if 3 * |e1.sndpkts| >= BUF_SIZE || |e1.sndwins| < BUF_SIZE then Flush(e1) else Outcome(e1, [])
  }

  // ---------- Receiving ----------

  function TakeData(e: Endpoint, p: Packet): (r: Outcome)
  {
    Outcome(e.(rcvpkts := e.rcvpkts[p.sn := p], maxrcvseq := if p.sn > e.maxrcvseq then p.sn else e.maxrcvseq),
            [Packet(DATA_ACK, p.sn, p.sn + 1, "")])
  }

  /** A data packet is kept under its number and acknowledged by it, whether it is new or not. */
  ghost predicate Taken(e: Endpoint, p: Packet, e': Endpoint, sends: seq<Packet>)
  {
    && e' == e.(rcvpkts := e'.rcvpkts, maxrcvseq := e'.maxrcvseq) && e'.rcvpkts.Keys == e.rcvpkts.Keys + {p.sn}
    && (forall k :: k in e'.rcvpkts ==> e'.rcvpkts[k] == if k == p.sn then p else e.rcvpkts[k])
    && e'.maxrcvseq >= p.sn && e'.maxrcvseq >= e.maxrcvseq && e'.maxrcvseq in {p.sn, e.maxrcvseq}
    && sends == [Packet(DATA_ACK, p.sn, p.sn + 1, "")]
  }

  ghost function TakeAck(e: Endpoint, p: Packet): (r: Outcome)
  {
    Flush(e.(sndwins := e.sndwins - {p.sn}))
  }

  /** The two state machines, without the closing sequence; isn is drawn by a server. */
  ghost function Receive(e: Endpoint, p: Packet, isn: int): (r: Outcome)
  {
    if e.mode == CLIENT && e.state == SYN_SENT && p.kind == SYN2 && p.ack == e.selfisn + 1 && p.sn > 0 then
      Outcome(e.(peerisn := p.sn, peerseq := p.sn + 2, state := ESTAB), [Packet(SYN_ACK, p.ack, p.sn + 1, "")])
    else if e.mode == SERVER && e.state == INIT && p.kind == SYN && p.sn > 0 then
      Outcome(e.(state := SYN_RCVD, peerisn := p.sn, peerseq := p.sn + 2, selfisn := isn, selfseq := isn + 2),
              [Packet(SYN2, isn, p.sn + 1, "")])
    else if e.mode == SERVER && e.state == SYN_RCVD && p.kind == SYN_ACK && p.ack == e.selfisn + 1
      && p.sn == e.peerisn + 1 then
      Outcome(e.(state := ESTAB), [])
    else if e.state == ESTAB && p.kind == DATA then TakeData(e, p)
    else if e.state == ESTAB && p.kind == DATA_ACK then TakeAck(e, p)
    else Outcome(e, [])
  }

  /** How many packets from number k on are there, at most limit. */
  function Run(rcvpkts: map<int, Packet>, maxrcvseq: int, k: int, limit: nat): (n: nat)
    ensures n <= limit
    ensures forall i :: k <= i < k + n ==> i in rcvpkts
    decreases limit
  {
    if limit == 0 || k > maxrcvseq || k !in rcvpkts then 0 else 1 + Run(rcvpkts, maxrcvseq, k + 1, limit - 1)
  }

  function Span(k: int, n: nat): (s: set<int>)
    ensures forall i :: i in s <==> k <= i < k + n
  {
    if n == 0 then {} else Span(k, n - 1) + {k + n - 1}
  }

  function Moved(rcvpkts: map<int, Packet>, rcvwins: map<int, Packet>, k: int, n: nat): (m: map<int, Packet>)
    requires forall i :: k <= i < k + n ==> i in rcvpkts
  {
    if n == 0 then rcvwins else Moved(rcvpkts, rcvwins, k, n - 1)[k + n - 1 := rcvpkts[k + n - 1]]
  }

  lemma {:induction false} MovedIs(rcvpkts: map<int, Packet>, rcvwins: map<int, Packet>, k: int, n: nat)
    requires forall i :: k <= i < k + n ==> i in rcvpkts
    ensures var m := Moved(rcvpkts, rcvwins, k, n);
      && m.Keys == rcvwins.Keys + Span(k, n)
      && forall i :: i in m ==> m[i] == if k <= i < k + n then rcvpkts[i] else rcvwins[i]
    decreases n
  {
    if n > 0 {
      MovedIs(rcvpkts, rcvwins, k, n - 1);
    }
  }

  function Started(e: Endpoint): (e': Endpoint)
  {
    if e.rcvseq == 0 then e.(rcvseq := e.peerseq) else e
  }

  /** _on_recv_data: the run of packets that continues what was read becomes readable. */
  ghost function OnRecvData(e: Endpoint): (e': Endpoint)
  {
    var e1 := Started(e);
    var n := Run(e1.rcvpkts, e1.maxrcvseq, e1.rcvseq, BATCH);
    if n == 0 then e1
    else
      var wins := Moved(e1.rcvpkts, e1.rcvwins, e1.rcvseq, n);
      MovedIs(e1.rcvpkts, e1.rcvwins, e1.rcvseq, n);
      assert e1.rcvseq in wins.Keys;
      e1.(rcvwins := wins, rcvpkts := e1.rcvpkts - Span(e1.rcvseq, n), rcvseq := MaxKey(wins.Keys) + 1)
  }

  /** readPacket: the readable packet with the lowest number. */
  ghost function Readable(e: Endpoint): (p: Packet)
    requires e.rcvwins != map[]
  {
    assert e.rcvwins.Keys != {};
    e.rcvwins[MinKey(e.rcvwins.Keys)]
  }

  ghost function AfterRead(e: Endpoint): (e': Endpoint)
  {
    if e.rcvwins == map[] then e
    else
      assert e.rcvwins.Keys != {};
      e.(rcvwins := e.rcvwins - {MinKey(e.rcvwins.Keys)})
  }

  lemma Shrinks(m: map<int, Packet>, k: int)
    requires k in m
    ensures |m - {k}| == |m| - 1 && forall x :: x in m - {k} <==> x in m && x != k
  {
    assert (m - {k}).Keys == m.Keys - {k};
    assert |m.Keys| == |m| && |(m - {k}).Keys| == |m - {k}|;
  }

  lemma Grows(m: map<int, Packet>, k: int, p: Packet)
    requires k !in m
    ensures |m[k := p]| == |m| + 1
  {
    assert m[k := p].Keys == m.Keys + {k};
    assert |m.Keys| == |m| && |m[k := p].Keys| == |m[k := p]|;
  }

  lemma NonEmpty(m: map<int, Packet>)
    requires m != map[]
    ensures m.Keys != {}
  {
    if m.Keys == {} {
      EmptyMap(m);
    }
  }

  lemma EmptyMap(m: map<int, Packet>)
    requires m.Keys == {}
    ensures m == map[]
  {
    assert forall k :: k !in m;
  }

  // ---------- What a flush does ----------

  /** A flush from e leads to e' and hands over the packets `sends`, each of which is sent and moves
      from the buffer to the window: the ones with the lowest numbers, ascending, as many as there
      are or the window has room for. */
  ghost predicate Flushes(e: Endpoint, e': Endpoint, sends: seq<Packet>)
  {
    && e' == e.(sndpkts := e'.sndpkts, sndwins := e'.sndwins)
    && |sends| == Least(|e.sndpkts|, if |e.sndwins| < 208 then 208 - |e.sndwins| else 0)
    && LowestOf(e.sndpkts, sends) && Leave(e.sndpkts, e'.sndpkts, sends) && Enter(e.sndwins, e'.sndwins, sends)
  }

  /** Packets of the buffer, each once, ascending, and below all others in it. */
  ghost predicate LowestOf(buffer: map<int, Packet>, ps: seq<Packet>)
  {
    && (forall i, j :: 0 <= i < j < |ps| ==> ps[i].sn < ps[j].sn)
    && (forall i :: 0 <= i < |ps| ==> ps[i].sn in buffer && buffer[ps[i].sn] == ps[i])
    && (forall k, i :: k in buffer && !Numbered(ps, k) && 0 <= i < |ps| ==> ps[i].sn < k)
  }

  ghost predicate Leave(m: map<int, Packet>, m': map<int, Packet>, ps: seq<Packet>)
  {
    && (forall k :: k in m' <==> k in m && !Numbered(ps, k))
    && (forall k :: k in m' ==> m'[k] == m[k])
  }

  ghost predicate Enter(m: map<int, Packet>, m': map<int, Packet>, ps: seq<Packet>)
  {
    && (forall k :: k in m' <==> k in m || Numbered(ps, k))
    && (forall k :: k in m && !Numbered(ps, k) ==> m'[k] == m[k])
    && (forall i :: 0 <= i < |ps| ==> ps[i].sn in m' && m'[ps[i].sn] == ps[i])
  }

  predicate Numbered(ps: seq<Packet>, k: int)
  {
    exists i :: 0 <= i < |ps| && ps[i].sn == k
  }

  function Least(a: nat, b: nat): (m: nat)
  {
    if a < b then a else b
  }

  lemma {:induction false} FlushIs(e: Endpoint)
    requires Filed(e)
    ensures Flushes(e, Flush(e).e, Flush(e).sends)
    decreases |e.sndpkts|
  {
    if |e.sndwins| >= WIN_SIZE || e.sndpkts == map[] {
      assert |e.sndpkts| == 0 || |e.sndwins| >= 208;
    } else {
      NonEmpty(e.sndpkts);
      var k := MinKey(e.sndpkts.Keys);
      var p := e.sndpkts[k];
      var e1 := e.(sndwins := e.sndwins[k := p], sndpkts := e.sndpkts - {k});
      Shrinks(e.sndpkts, k);
      Grows(e.sndwins, k, p);
      FlushIs(e1);
      var rest := Flush(e1);
      OneMoreFlushed(e, k, e1, rest.e, rest.sends);
    }
  }

  /** The packets buffered are numbered as they are filed, and apart from those in the window. */
  ghost predicate Filed(e: Endpoint)
  {
    forall k :: k in e.sndpkts ==> e.sndpkts[k].sn == k && k !in e.sndwins
  }

  lemma FlushIsIf(e: Endpoint)
    ensures Filed(e) ==> Flushes(e, Flush(e).e, Flush(e).sends)
  {
    if Filed(e) {
      FlushIs(e);
    }
  }

  lemma OneMoreFlushed(e: Endpoint, k: int, e1: Endpoint, e': Endpoint, rest: seq<Packet>)
    requires forall k :: k in e.sndpkts ==> e.sndpkts[k].sn == k && k !in e.sndwins
    requires IsMin(e.sndpkts.Keys, k) && |e.sndwins| < 208
    requires e1 == e.(sndwins := e.sndwins[k := e.sndpkts[k]], sndpkts := e.sndpkts - {k})
    requires |e1.sndpkts| == |e.sndpkts| - 1 && |e1.sndwins| == |e.sndwins| + 1 && Flushes(e1, e', rest)
    ensures Flushes(e, e', [e.sndpkts[k]] + rest)
  {
    hide LowestOf, Leave, Enter;
    LowestFirst(e.sndpkts, k, rest);
    LeaveFirst(e.sndpkts, k, e'.sndpkts, rest);
    EnterFirst(e.sndwins, k, e.sndpkts[k], e'.sndwins, rest, e1.sndpkts);
  }

  lemma LowestFirst(buffer: map<int, Packet>, k: int, rest: seq<Packet>)
    requires IsMin(buffer.Keys, k) && buffer[k].sn == k && LowestOf(buffer - {k}, rest)
    ensures LowestOf(buffer, [buffer[k]] + rest)
  {
    hide Numbered;
    var ps := [buffer[k]] + rest;
    forall x
      ensures Numbered(ps, x) <==> x == k || Numbered(rest, x)
    {
      NumberedFirst(buffer[k], rest, x);
    }
    assert forall i :: 0 < i < |ps| ==> ps[i] == rest[i - 1] && ps[i].sn in buffer - {k};
  }

  lemma LeaveFirst(m: map<int, Packet>, k: int, m': map<int, Packet>, rest: seq<Packet>)
    requires k in m && m[k].sn == k && Leave(m - {k}, m', rest)
    ensures Leave(m, m', [m[k]] + rest)
  {
    hide Numbered;
    forall x
      ensures Numbered([m[k]] + rest, x) <==> x == k || Numbered(rest, x)
    {
      NumberedFirst(m[k], rest, x);
    }
  }

  lemma EnterFirst(m: map<int, Packet>, k: int, p: Packet, m': map<int, Packet>, rest: seq<Packet>,
                   buffer: map<int, Packet>)
    requires p.sn == k && Enter(m[k := p], m', rest) && LowestOf(buffer, rest) && k !in buffer
    ensures Enter(m, m', [p] + rest)
  {
    hide Numbered;
    forall x
      ensures Numbered([p] + rest, x) <==> x == k || Numbered(rest, x)
    {
      NumberedFirst(p, rest, x);
    }
    NotNumbered(buffer, rest, k);
    assert forall i :: 0 < i < |[p] + rest| ==> ([p] + rest)[i] == rest[i - 1];
  }

  lemma NotNumbered(buffer: map<int, Packet>, ps: seq<Packet>, k: int)
    requires LowestOf(buffer, ps) && k !in buffer
    ensures !Numbered(ps, k)
  {
  }

  lemma NumberedFirst(p: Packet, rest: seq<Packet>, k: int)
    ensures Numbered([p] + rest, k) <==> p.sn == k || Numbered(rest, k)
  {
    if i :| 0 <= i < |rest| && rest[i].sn == k {
      assert ([p] + rest)[i + 1].sn == k;
    }
    if p.sn == k {
      assert ([p] + rest)[0].sn == k;
    }
  }

  // ---------- What becomes readable ----------

  /** _on_recv_data takes over the n packets that continue what was readable, where n is at most 20
      and as large as the packets at hand and maxrcvseq allow. */
  lemma OnRecvDataIs(e: Endpoint) returns (n: nat)
    requires forall k :: k in e.rcvwins ==> k < (if e.rcvseq == 0 then e.peerseq else e.rcvseq)
    ensures n <= 20
    ensures var start := if e.rcvseq == 0 then e.peerseq else e.rcvseq;
      (forall i :: start <= i < start + n ==> i in e.rcvpkts) && (n > 0 ==> start + n - 1 <= e.maxrcvseq)
    ensures var start, e' := if e.rcvseq == 0 then e.peerseq else e.rcvseq, OnRecvData(e);
      && (n == 20 || start + n !in e.rcvpkts || start + n > e.maxrcvseq)
      && e' == e.(rcvseq := start + n, rcvpkts := e'.rcvpkts, rcvwins := e'.rcvwins)
      && (forall i :: i in e'.rcvpkts <==> i in e.rcvpkts && !(start <= i < start + n))
      && (forall i :: i in e'.rcvpkts ==> e'.rcvpkts[i] == e.rcvpkts[i])
      && (forall i :: i in e'.rcvwins <==> i in e.rcvwins || start <= i < start + n)
      && (forall i :: i in e'.rcvwins ==>
           e'.rcvwins[i] == if start <= i < start + n then e.rcvpkts[i] else e.rcvwins[i])
  {
    hide Moved, Run, Span, OnRecvData;
    var e1 := Started(e);
    assert e1.rcvpkts == e.rcvpkts && e1.rcvwins == e.rcvwins && e1.maxrcvseq == e.maxrcvseq;
    n := Run(e1.rcvpkts, e1.maxrcvseq, e1.rcvseq, BATCH);
    RunIs(e1.rcvpkts, e1.maxrcvseq, e1.rcvseq, BATCH);
    MovedIs(e1.rcvpkts, e1.rcvwins, e1.rcvseq, n);
    TakenOver(e, n);
  }

  lemma TakenOver(e: Endpoint, n: nat)
    requires n == Run(Started(e).rcvpkts, Started(e).maxrcvseq, Started(e).rcvseq, BATCH)
    requires forall k :: k in e.rcvwins ==> k < Started(e).rcvseq
    ensures var e1 := Started(e);
      && (forall i :: e1.rcvseq <= i < e1.rcvseq + n ==> i in e1.rcvpkts)
      && OnRecvData(e) == e1.(rcvwins := Moved(e1.rcvpkts, e1.rcvwins, e1.rcvseq, n),
                              rcvpkts := e1.rcvpkts - Span(e1.rcvseq, n), rcvseq := e1.rcvseq + n)
  {
    hide Run;
    var e1 := Started(e);
    if n == 0 {
      assert e1.rcvpkts - Span(e1.rcvseq, 0) == e1.rcvpkts;
    } else {
      var keys := Moved(e1.rcvpkts, e1.rcvwins, e1.rcvseq, n).Keys;
      MovedIs(e1.rcvpkts, e1.rcvwins, e1.rcvseq, n);
      hide Moved, Span;
      assert e1.rcvseq in keys;
      LastKey(keys, e1.rcvwins.Keys, e1.rcvseq, n);
    }
  }

  lemma LastKey(keys: set<int>, before: set<int>, start: int, n: nat)
    requires n > 0 && keys == before + Span(start, n) && forall k :: k in before ==> k < start
    ensures keys != {} && MaxKey(keys) == start + n - 1
  {
    assert start in keys && start + n - 1 in keys;
    assert IsMax(keys, start + n - 1);
  }

  lemma {:induction false} RunIs(rcvpkts: map<int, Packet>, maxrcvseq: int, k: int, limit: nat)
    ensures var n := Run(rcvpkts, maxrcvseq, k, limit);
      && (n > 0 ==> k + n - 1 <= maxrcvseq) && (n == limit || k + n !in rcvpkts || k + n > maxrcvseq)
    decreases limit
  {
    if limit > 0 && k <= maxrcvseq && k in rcvpkts {
      RunIs(rcvpkts, maxrcvseq, k + 1, limit - 1);
    }
  }

  // ---------- What a send does ----------

  /** A message is taken exactly while fewer than ten packets wait; it then gets the next number and
      goes to the end of the buffer. The buffer is flushed once four packets wait, or while fewer
      than ten are unacknowledged. */
  lemma SendIs(e: Endpoint, data: string)
    ensures Accepts(e) <==> |e.sndpkts| < 10
    ensures var e1 := if |e.sndpkts| < 10 then
        e.(sndpkts := e.sndpkts[e.selfseq := Packet(DATA, e.selfseq, 0, data)], selfseq := e.selfseq + 1) else e;
      Send(e, data) == if |e1.sndpkts| >= 4 || |e1.sndwins| < 10 then Flush(e1) else Outcome(e1, [])
  {
    hide Flush;
  }
}
