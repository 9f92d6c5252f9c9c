/** Why packets of more than 4097 fragments are not safe: a late fragment of such a packet can be
    outstanding when the receiver is ten windows past the packet's start, and is then queued as
    part of a packet still to come. */
module EnetStale {
  import opened Words
  import opened EnetWindows
  import opened EnetReceive
  import opened EnetFragments
  import opened EnetDelivery
  import opened EnetSystem
  import opened EnetSilence

  // ---------- One fragment more than is safe ----------

  const LONG := WINDOW_SIZE + 2

  /** A packet of one byte over and over, one fragment for each. */
  function Fill(v: u8): (p: seq<u8>)
    ensures |p| == LONG
  {
    seq(LONG, k => v)
  }

  /** A packet of which fragments 0 to i - 1 arrived, each the byte v, and of which the last
      fragment was there before, if `hole` is 1, with the byte 0. */
  function Partial(start: u16, v: u8, hole: nat, i: nat): (e: Incoming)
    requires hole <= 1 && i + hole <= LONG
    ensures e.count == LONG && |e.bits| == LONG && |e.data| == LONG
  {
    Incoming(start, LONG, seq(LONG, k => k < i || k >= LONG - hole), LONG - hole - i,
             seq(LONG, k => if k < i then v else 0))
  }

  lemma LongCount(v: u8)
    ensures Count(1, Fill(v)) == LONG
  {
  }

  lemma SentFill(ps: seq<seq<u8>>, j: nat, v: u8, i: nat)
    requires j < |ps| && ps[j] == Fill(v) && i < LONG
    ensures i < Count(1, ps[j])
    ensures var first := First(1, ps, j);
      Sent(1, ps, j, i) == Fragment(Seq(first + i), Seq(first), LONG, i, i, LONG, [v])
  {
    hide First, Seq;
    LongCount(v);
    assert Fill(v)[i..i + 1] == [v];
  }

  lemma {:induction false} BlankIsZero(n: nat)
    ensures forall k :: 0 <= k < n ==> Blank(n)[k] == 0
    decreases n
  {
    if n > 0 {
      BlankIsZero(n - 1);
    }
  }

  lemma NewIsPartial(start: u16, v: u8)
    ensures Incoming(start, LONG, NoBits(LONG), LONG, Blank(LONG)) == Partial(start, v, 0, 0)
  {
    BlankIsZero(LONG);
    assert NoBits(LONG) == Partial(start, v, 0, 0).bits;
    assert Blank(LONG) == Partial(start, v, 0, 0).data;
  }

  lemma MarkedPartial(start: u16, v: u8, hole: nat, i: nat)
    requires hole <= 1 && i + hole < LONG
    ensures Marked(Partial(start, v, hole, i), i, i, [v]) == Partial(start, v, hole, i + 1)
  {
    var e, e' := Partial(start, v, hole, i), Partial(start, v, hole, i + 1);
    assert e.bits[i := true] == e'.bits;
    assert Overwrite(e.data, i, [v]) == e'.data;
  }

  /** The last fragment of zeros arrives before all others. */
  lemma MarkedLast(start: u16, v: u8)
    ensures Marked(Partial(start, 0, 0, 0), LONG - 1, LONG - 1, [0]) == Partial(start, v, 1, 0)
  {
    var e, e' := Partial(start, 0, 0, 0), Partial(start, v, 1, 0);
    assert e.bits[LONG - 1 := true] == e'.bits;
    assert Overwrite(e.data, LONG - 1, [0]) == e'.data;
  }

  // ---------- The receiver ----------

  lemma FragmentOk(f: Command)
    requires f.Fragment? && f.count == f.total == LONG && f.number == f.offset < LONG && |f.data| == 1
    ensures !FragmentBad(f, LONG)
  {
  }

  lemma OnlyOne(c: Channel, e: Incoming)
    requires c.queue == [e]
    ensures Place(c.queue, c.incoming, e.sn) == 1
  {
  }

  /** A fragment of a packet of which nothing is queued. */
  lemma TakesFirst(incoming: u16, ps: seq<seq<u8>>, f: Command, e: Incoming)
    requires f.Fragment? && f.count == f.total == LONG && f.number == f.offset < LONG && |f.data| == 1
    requires !Discards(f.start, incoming) && f.start != incoming
    requires e == Marked(Partial(f.start, 0, 0, 0), f.number, f.offset, f.data)
    ensures HandleFragment(Channel(incoming, [], ps), f, LONG, false) == Outcome(Channel(incoming, [e], ps), 0)
  {
    hide Discards, FragmentBad, Marked, Partial, Seq;
    FragmentOk(f);
    NewIsPartial(f.start, 0);
    PartialIs(f.start, 0, 0, 0);
    var c, x := Channel(incoming, [], ps), Partial(f.start, 0, 0, 0);
    assert Insert(c.queue, 0, x) == [x];
    NothingReady(Channel(incoming, [x], ps));
    MarkedRemains(x, f);
    assert [x][0 := e] == [e];
  }

  lemma PartialIs(start: u16, v: u8, hole: nat, i: nat)
    requires hole <= 1 && i + hole <= LONG
    ensures var e := Partial(start, v, hole, i);
      && e.sn == start && e.remaining == LONG - hole - i
      && forall k :: 0 <= k < LONG ==> (e.bits[k] <==> k < i || k >= LONG - hole)
  {
  }

  lemma MarkedRemains(x: Incoming, f: Command)
    requires f.Fragment? && f.number < |x.bits| && f.offset <= |x.data| && !x.bits[f.number]
    ensures Marked(x, f.number, f.offset, f.data).remaining == x.remaining - 1
  {
  }

  /** The next fragment of the packet that is queued, not the last one missing. */
  lemma TakesNext(last: nat, ps: seq<seq<u8>>, f: Command, v: u8, hole: nat, i: nat)
    requires hole <= 1 && i + 1 + hole < LONG
    requires f == Fragment(f.sn, Seq(last + 1), LONG, i, i, LONG, [v])
    ensures HandleFragment(Channel(Seq(last), [Partial(f.start, v, hole, i)], ps), f, LONG, false)
         == Outcome(Channel(Seq(last), [Partial(f.start, v, hole, i + 1)], ps), 0)
  {
    hide Discards, FragmentBad, Marked, Partial, Seq, Place;
    FragmentOk(f);
    NextIsNew(last);
    PartialIs(f.start, v, hole, i);
    PartialIs(f.start, v, hole, i + 1);
    MarkedPartial(f.start, v, hole, i);
    var e, e' := Partial(f.start, v, hole, i), Partial(f.start, v, hole, i + 1);
    OnlyOne(Channel(Seq(last), [e], ps), e);
    assert [e][0 := e'] == [e'];
  }

  /** The last fragment missing: the packet is dispatched. */
  lemma TakesLast(last: nat, ps: seq<seq<u8>>, f: Command, v: u8, hole: nat)
    requires hole <= 1
    requires f == Fragment(f.sn, Seq(last + 1), LONG, LONG - hole - 1, LONG - hole - 1, LONG, [v])
    ensures HandleFragment(Channel(Seq(last), [Partial(f.start, v, hole, LONG - hole - 1)], ps), f, LONG, false)
         == Outcome(Channel(Seq(last + LONG), [], ps + [Partial(f.start, v, hole, LONG - hole).data]), 0)
  {
    hide Discards, FragmentBad, Marked, Partial, Seq, Place, Dispatch;
    var i := LONG - hole - 1;
    FragmentOk(f);
    NextIsNew(last);
    PartialIs(f.start, v, hole, i);
    PartialIs(f.start, v, hole, i + 1);
    MarkedPartial(f.start, v, hole, i);
    var e, e' := Partial(f.start, v, hole, i), Partial(f.start, v, hole, i + 1);
    OnlyOne(Channel(Seq(last), [e], ps), e);
    assert [e][0 := e'] == [e'];
    DispatchesFirst(Seq(last), e', [], ps);
    assert [e'] + [] == [e'];
    SeqPlus(last + 1, LONG - 1);
  }

  // ---------- A long packet on its way ----------

  /** Of the packet Fill(v) that follows ps the first i fragments were sent and acknowledged. */
  function Part(ps: seq<seq<u8>>, v: u8, i: nat, queue: seq<Incoming>): (x: System)
  {
    var n := Total(1, ps);
    System(1, ps + [Fill(v)], n + i, {}, Interval(1, n + i), Channel(Seq(n), queue, ps))
  }

  /** What is queued then. */
  function QueueAt(start: u16, v: u8, hole: nat, i: nat): (queue: seq<Incoming>)
    requires hole <= 1 && i + hole <= LONG
  {
    if i + hole == 0 then [] else [Partial(start, v, hole, i)]
  }

  lemma FragmentOf(ps: seq<seq<u8>>, v: u8, i: nat)
    requires i < LONG
    ensures var n, ps' := Total(1, ps), ps + [Fill(v)];
      && Total(1, ps') == n + LONG && First(1, ps', |ps|) == n + 1 && i < Count(1, ps'[|ps|])
      && Sent(1, ps', |ps|, i) == Fragment(Seq(n + 1 + i), Seq(n + 1), LONG, i, i, LONG, [v])
  {
    hide Total, First, Count, Seq, Fill;
    LongCount(v);
    TotalMore(ps, Fill(v));
    SentFill(ps + [Fill(v)], |ps|, v, i);
  }

  lemma TakesSome(n: nat, ps: seq<seq<u8>>, f: Command, v: u8, hole: nat, i: nat)
    requires hole <= 1 && i + 1 + hole < LONG
    requires f == Fragment(f.sn, Seq(n + 1), LONG, i, i, LONG, [v])
    ensures BitsOk(QueueAt(f.start, v, hole, i))
    ensures Handle(Channel(Seq(n), QueueAt(f.start, v, hole, i), ps), f, LONG, false)
         == Outcome(Channel(Seq(n), QueueAt(f.start, v, hole, i + 1), ps), 0)
  {
    hide Partial, Seq, HandleFragment, Discards;
    if i + hole == 0 {
      NextIsNew(n);
      FirstPartial(f.start, v);
      MarkedPartial(f.start, v, 0, 0);
      TakesFirst(Seq(n), ps, f, Partial(f.start, v, 0, 1));
    } else {
      TakesNext(n, ps, f, v, hole, i);
    }
  }

  lemma FirstPartial(start: u16, v: u8)
    ensures Partial(start, v, 0, 0) == Partial(start, 0, 0, 0)
  {
    assert Partial(start, v, 0, 0).data == Partial(start, 0, 0, 0).data;
    assert Partial(start, v, 0, 0).bits == Partial(start, 0, 0, 0).bits;
  }

  lemma {:induction false} ReachPart(ps: seq<seq<u8>>, v: u8, hole: nat, i: nat)
    requires hole <= 1 && i + hole < LONG
    requires Reachable(Caught(ps, {}, QueueAt(Seq(Total(1, ps) + 1), v, hole, 0)))
    ensures Reachable(Part(ps, v, i, QueueAt(Seq(Total(1, ps) + 1), v, hole, i)))
    decreases i
  {
    hide Reachable, Total, Seq, Fill, First, Count, QueueAt, Handle, Sent, Blocks, Counters, UsedWindows, Suppresses;
    var n := Total(1, ps);
    var start := Seq(n + 1);
    if i == 0 {
      var x := Caught(ps, {}, QueueAt(start, v, hole, 0));
      LongCount(v);
      SendTakes(x, Fill(v));
      ReachStep(x, Send(Fill(v)), Part(ps, v, 0, x.rx.queue));
    } else {
      ReachPart(ps, v, hole, i - 1);
      var x := Part(ps, v, i - 1, QueueAt(start, v, hole, i - 1));
      FragmentOf(ps, v, i - 1);
      TakesSome(n, ps, Sent(1, x.packets, |ps|, i - 1), v, hole, i - 1);
      GuardOpen({}, n + i);
      NotSuppressed(n + i, n);
      Round(x, |ps|, i - 1, LONG, Channel(Seq(n), QueueAt(start, v, hole, i), ps));
      Answered(x.(s := n + i, unacked := {} + {n + i}, acks := x.acks + {n + i},
        rx := Channel(Seq(n), QueueAt(start, v, hole, i), ps)), n + i);
      assert Interval(1, n + i) == Interval(1, n + i - 1) + {n + i};
      assert {} + {n + i} - {n + i} == {};
    }
  }

  lemma SendTakes(x: System, packet: seq<u8>)
    requires x.size > 0 && Count(x.size, packet) <= MAXIMUM_FRAGMENT_COUNT
    ensures Takes(x, Send(packet), x.(packets := x.packets + [packet]))
  {
    hide Count;
  }

  /** The last fragment missing arrives: what was collected is dispatched. */
  lemma ReachWhole(ps: seq<seq<u8>>, v: u8, hole: nat)
    requires hole <= 1
    requires Reachable(Caught(ps, {}, QueueAt(Seq(Total(1, ps) + 1), v, hole, 0)))
    ensures var n, m, data := Total(1, ps), LONG - hole, Partial(Seq(Total(1, ps) + 1), v, hole, LONG - hole).data;
      Reachable(System(1, ps + [Fill(v)], n + m, {n + m}, Interval(1, n + m),
                       Channel(Seq(n + LONG), [], ps + [data])))
  {
    hide Reachable, Total, Seq, Fill, First, Count, Handle, Sent, Blocks, Counters, UsedWindows, Suppresses, Partial,
      HandleFragment;
    var n, m := Total(1, ps), LONG - hole;
    var start := Seq(n + 1);
    ReachPart(ps, v, hole, m - 1);
    var x := Part(ps, v, m - 1, QueueAt(start, v, hole, m - 1));
    FragmentOf(ps, v, m - 1);
    var f, data := Sent(1, x.packets, |ps|, m - 1), Partial(start, v, hole, m).data;
    TakesLast(n, ps, f, v, hole);
    FragmentHandled(x.rx, f);
    GuardOpen({}, n + m);
    NotSuppressed(n + m, n);
    EndNotSuppressed(n, m);
    Round(x, |ps|, m - 1, LONG, Channel(Seq(n + LONG), [], ps + [data]));
    assert Interval(1, n + m) == Interval(1, n + m - 1) + {n + m};
    assert {} + {n + m} == {n + m};
  }

  lemma FragmentHandled(c: Channel, f: Command)
    requires f.Fragment? && BitsOk(c.queue)
    ensures Handle(c, f, LONG, false) == HandleFragment(c, f, LONG, false)
  {
    hide HandleFragment;
  }

  lemma EndNotSuppressed(n: nat, m: nat)
    requires LONG - 1 <= m <= LONG
    ensures !Suppresses(Seq(n + m), Seq(n + LONG))
  {
    if m == LONG {
      NotSuppressed(n + LONG, n + LONG);
    } else {
      BehindExact(n + m, n + LONG);
    }
  }

  // ---------- The run ----------

  /** Packets of one byte up to one number before the last of the first window. */
  function Before(): (ps: seq<seq<u8>>)
  {
    Copies(WINDOW_SIZE - 2)
  }

  /** The long packet, and packets of one byte up to the first number of window ten. */
  function UpToTen(): (ps: seq<seq<u8>>)
  {
    Before() + [Fill(0)] + Copies(FREE_WINDOWS * WINDOW_SIZE)
  }

  /** Packets of one byte up to the number before the one that has the long packet's bits. */
  function UpToLap(): (ps: seq<seq<u8>>)
  {
    UpToTen() + Copies(7 * WINDOW_SIZE - 2)
  }

  lemma ReachBefore()
    ensures Total(1, Before()) == WINDOW_SIZE - 2 && Reachable(Caught(Before(), {}, []))
  {
    hide Reachable, Total, Caught, Copies;
    NothingYet();
    More([], {}, [], WINDOW_SIZE - 2);
    assert [] + Before() == Before();
  }

  /** The last fragment of the long packet is outstanding and the receiver eight windows past it,
      ten past the packet's start. */
  lemma ReachTen()
    ensures Total(1, UpToTen()) == 10 * WINDOW_SIZE && Reachable(Caught(UpToTen(), {2 * WINDOW_SIZE}, []))
  {
    hide Reachable, Total, Seq, Fill, Copies;
    ReachBefore();
    var ps := Before();
    ReachWhole(ps, 0, 0);
    ZerosAre(Seq(WINDOW_SIZE - 1));
    LongCount(0);
    TotalMore(ps, Fill(0));
    More(ps + [Fill(0)], {2 * WINDOW_SIZE}, [], FREE_WINDOWS * WINDOW_SIZE);
  }

  lemma ZerosAre(start: u16)
    ensures Partial(start, 0, 0, LONG).data == Fill(0)
  {
  }

  lemma LongPacket()
    requires Total(1, Before()) == WINDOW_SIZE - 2
    ensures var ps, j := UpToTen(), WINDOW_SIZE - 2;
      && |Before()| == j < |ps| && ps[j] == Fill(0) && First(1, ps, j) == WINDOW_SIZE - 1 && Count(1, ps[j]) == LONG
  {
    hide Total, Fill, Count;
    CopiesAre(WINDOW_SIZE - 2);
    LongCount(0);
    assert UpToTen()[..|Before()|] == Before();
  }

  /** What is queued in its place, whatever is written over it later. */
  function Phantom(): (queue: seq<Incoming>)
  {
    [Partial(Seq(WINDOW_SIZE - 1), 1, 1, 0)]
  }

  function Ten(): (x: System)
  {
    Caught(UpToTen(), {2 * WINDOW_SIZE}, [])
  }

  lemma TenIsOutstanding()
    ensures var x := Ten();
      && Reachable(x) && Good(x) && AtMost(x, LONG) && Outstanding(x, 2 * WINDOW_SIZE)
      && IsCommand(x, WINDOW_SIZE - 2, LONG - 1, 2 * WINDOW_SIZE)
  {
    hide Reachable, Good, Total, Fill, Outstanding, First, Count, UpToTen, Before, Seq, AtMost;
    ReachBefore();
    ReachTen();
    LongPacket();
    CaughtIsGood(UpToTen(), {2 * WINDOW_SIZE});
    OutstandingCaught(UpToTen(), 2 * WINDOW_SIZE, []);
    TenIsShort();
  }

  /** A fragment the sender still waits for is not discarded: it is queued as the first of a packet
      that is not there yet. */
  lemma StaleIsQueued()
    ensures var x, j, i, n := Ten(), WINDOW_SIZE - 2, LONG - 1, 2 * WINDOW_SIZE;
      && Reachable(x) && Good(x) && AtMost(x, LONG) && Outstanding(x, n) && IsCommand(x, j, i, n) && x.rx.queue == []
      && Handle(x.rx, Sent(x.size, x.packets, j, i), LONG, false) == Outcome(x.rx.(queue := Phantom()), 0)
      && !RepeatsAreLost(x, n)
  {
    hide Reachable, Good, Total, Fill, Outstanding, First, Count, HandleFragment, Partial, Discards, Sent, Suppresses,
      UpToTen, Before, Seq, AtMost, Handle;
    TenIsOutstanding();
    ReachBefore();
    ReachTen();
    LongPacket();
    StaleTaken(UpToTen());
  }

  lemma StaleTaken(ps: seq<seq<u8>>)
    requires |ps| > WINDOW_SIZE - 2 && ps[WINDOW_SIZE - 2] == Fill(0)
    requires First(1, ps, WINDOW_SIZE - 2) == WINDOW_SIZE - 1
    requires LONG == Count(1, ps[WINDOW_SIZE - 2])
    ensures var c := Channel(Seq(10 * WINDOW_SIZE), [], ps);
      Handle(c, Sent(1, ps, WINDOW_SIZE - 2, LONG - 1), LONG, false) == Outcome(c.(queue := Phantom()), 0)
  {
    hide First, Fill, Count, HandleFragment, Partial, Discards, Sent;
    SentFill(ps, WINDOW_SIZE - 2, 0, LONG - 1);
    MarkedLast(Seq(WINDOW_SIZE - 1), 1);
    OldDuplicateDiscardedIff(WINDOW_SIZE - 1, 10 * WINDOW_SIZE);
    var c, f := Channel(Seq(10 * WINDOW_SIZE), [], ps), Sent(1, ps, WINDOW_SIZE - 2, LONG - 1);
    TakesFirst(c.incoming, ps, f, Partial(Seq(WINDOW_SIZE - 1), 1, 1, 0));
    FragmentHandled(c, f);
  }

  lemma TenIsShort()
    ensures AtMost(Ten(), LONG)
  {
    hide Total, Fill;
    CopiesAre(WINDOW_SIZE - 2);
    CopiesAre(FREE_WINDOWS * WINDOW_SIZE);
    LongCount(0);
  }

  /** The repeat arrives, then the acknowledgement sent before. */
  lemma ReachPhantom()
    ensures Total(1, UpToTen()) == 10 * WINDOW_SIZE && Reachable(Caught(UpToTen(), {}, Phantom()))
  {
    hide Reachable, Good, Total, Fill, Outstanding, First, Count, Handle, Partial, Sent, Suppresses, RepeatsAreLost;
    ReachTen();
    var n := 2 * WINDOW_SIZE;
    StaleIsQueued();
    var x := Ten();
    var x' := Caught(UpToTen(), {n}, Phantom());
    DuplicateAcknowledgedIff(n, 10 * WINDOW_SIZE);
    assert Takes(x, Deliver(WINDOW_SIZE - 2, LONG - 1, LONG, false), x');
    ReachStep(x, Deliver(WINDOW_SIZE - 2, LONG - 1, LONG, false), x');
    Answered(x', n);
    assert {n} - {n} == {};
  }

  lemma PhantomBehind(n: nat)
    requires 10 * WINDOW_SIZE <= n < 17 * WINDOW_SIZE - 2
    ensures Behind(Phantom(), n)
  {
    hide Key, Partial;
    PartialIs(Seq(WINDOW_SIZE - 1), 1, 1, 0);
    assert Seq(WINDOW_SIZE - 1) == Seq(17 * WINDOW_SIZE - 1);
    KeyExact(17 * WINDOW_SIZE - 1, n);
    KeyExact(n + 1, n);
  }

  lemma ReachLap()
    ensures Total(1, UpToLap()) == 17 * WINDOW_SIZE - 2 && Reachable(Caught(UpToLap(), {}, Phantom()))
  {
    hide Reachable, Total, Caught, Behind, UpToTen, Phantom;
    ReachPhantom();
    forall n: nat | 10 * WINDOW_SIZE <= n < 17 * WINDOW_SIZE - 2
      ensures Behind(Phantom(), n)
    {
      PhantomBehind(n);
    }
    More(UpToTen(), {}, Phantom(), 7 * WINDOW_SIZE - 2);
  }

  lemma LapIsShort(p: seq<u8>)
    requires Count(1, p) <= LONG
    ensures forall q :: q in UpToLap() + [p] ==> Count(1, q) <= LONG
  {
    hide Fill;
    CopiesAre(WINDOW_SIZE - 2);
    CopiesAre(FREE_WINDOWS * WINDOW_SIZE);
    CopiesAre(7 * WINDOW_SIZE - 2);
    LongCount(0);
  }

  /** A second long packet, of ones, is dispatched with the last byte of the first. */
  lemma WrongBytesDispatched() returns (x: System)
    ensures Reachable(x) && x.size > 0 && AtMost(x, LONG)
    ensures !(x.rx.dispatched <= x.packets)
  {
    hide Reachable, Total, UpToLap, Partial;
    ReachLap();
    var ps, n := UpToLap(), 17 * WINDOW_SIZE - 2;
    var start := Seq(n + 1);
    assert start == Seq(WINDOW_SIZE - 1);
    assert QueueAt(start, 1, 1, 0) == Phantom();
    ReachWhole(ps, 1, 1);
    var data := Partial(start, 1, 1, LONG - 1).data;
    x := System(1, ps + [Fill(1)], n + LONG - 1, {n + LONG - 1}, Interval(1, n + LONG - 1),
                Channel(Seq(n + LONG), [], ps + [data]));
    LongCount(1);
    LapIsShort(Fill(1));
    WrongByte(start);
    assert (ps + [data])[|ps|] == data && (ps + [Fill(1)])[|ps|] == Fill(1);
  }

  lemma WrongByte(start: u16)
    ensures Partial(start, 1, 1, LONG - 1).data != Fill(1)
  {
    assert Partial(start, 1, 1, LONG - 1).data[LONG - 1] == 0 && Fill(1)[LONG - 1] == 1;
  }

  /** A packet of one byte that takes the number is discarded as already there, and acknowledged:
      the sender is done, and the receiver never gets it. */
  lemma AcknowledgedAndLost() returns (x: System)
    ensures Reachable(x) && x.size > 0 && AtMost(x, LONG)
    ensures Done(x) && x.rx.dispatched != x.packets
  {
    hide Reachable, Total, UpToLap, Seq, Handle, Blocks, Counters, UsedWindows, Suppresses, Count, First, Partial;
    ReachLap();
    var ps, n := UpToLap(), 17 * WINDOW_SIZE - 2;
    var x0 := Caught(ps, {}, Phantom());
    OneByteCount();
    SendTakes(x0, [0]);
    var x1 := x0.(packets := ps + [[0]]);
    ReachStep(x0, Send([0]), x1);
    TotalMore(ps, [0]);
    GuardOpen({}, n + 1);
    NotSuppressed(n + 1, n);
    PhantomHides(ps);
    assert Sent(1, x1.packets, |ps|, 0) == Whole(Seq(n + 1), [0]);
    Round(x1, |ps|, 0, 1, x1.rx);
    x := x1.(s := n + 1, unacked := {} + {n + 1}, acks := x1.acks + {n + 1});
    Answered(x, n + 1);
    x := x.(unacked := {} + {n + 1} - {n + 1});
    assert x.unacked == {};
    LapIsShort([0]);
  }

  lemma OneByteCount()
    ensures Count(1, [0]) == 1
  {
  }

  lemma PhantomHides(ps: seq<seq<u8>>)
    ensures var c := Channel(Seq(17 * WINDOW_SIZE - 2), Phantom(), ps);
      BitsOk(c.queue) && Handle(c, Whole(Seq(17 * WINDOW_SIZE - 1), [0]), 1, false) == Outcome(c, 0)
  {
    hide Partial, Discards, Place;
    PartialIs(Seq(WINDOW_SIZE - 1), 1, 1, 0);
    var c := Channel(Seq(17 * WINDOW_SIZE - 2), Phantom(), ps);
    assert Seq(WINDOW_SIZE - 1) == Seq(17 * WINDOW_SIZE - 1);
    NextIsNew(17 * WINDOW_SIZE - 2);
    OnlyOne(c, c.queue[0]);
  }

  // ---------- The bound ----------

  /** Everything was sent and acknowledged, for all the sender knows. */
  ghost predicate Done(x: System)
    requires x.size > 0
  {
    x.unacked == {} && x.s == Total(x.size, x.packets)
  }

  /** In all runs with packets of at most l commands the packets dispatched are a prefix of those
      sent, and all acknowledged means all dispatched, if and only if l is at most 4097. */
  lemma FragmentBoundExact(l: nat)
    ensures (forall x :: Reachable(x) && x.size > 0 && AtMost(x, l) ==> x.rx.dispatched <= x.packets)
       <==> l <= WINDOW_SIZE + 1
    ensures (forall x :: Reachable(x) && x.size > 0 && AtMost(x, l) && Done(x) ==> x.rx.dispatched == x.packets)
       <==> l <= WINDOW_SIZE + 1
  {
    hide Reachable, Total, Run, Count;
    if l <= WINDOW_SIZE + 1 {
      forall x | Reachable(x) && x.size > 0 && AtMost(x, l)
        ensures x.rx.dispatched <= x.packets
        ensures Done(x) ==> x.rx.dispatched == x.packets
      {
        var states := RunTo(x);
        DispatchedIsPrefix(states, |states| - 1);
        if Done(x) {
          AllAcknowledgedMeansAllDispatched(states, |states| - 1);
        }
      }
    } else {
      var x := WrongBytesDispatched();
      var y := AcknowledgedAndLost();
      assert AtMost(x, l) && AtMost(y, l);
    }
  }
}
