/** What happens to a command whose acknowledgement is lost until the receiver is eight windows
    past it: its repeats are neither delivered nor acknowledged. */
module EnetSilence {
  import opened Words
  import opened EnetWindows
  import opened EnetReceive
  import opened EnetFragments
  import opened EnetDelivery
  import opened EnetSystem

  // ---------- Behind the receiver ----------

  /** The last number the receiver dispatched. */
  function LastOf(x: System): (n: nat)
    requires x.size > 0 && |x.rx.dispatched| <= |x.packets|
  {
    Last(x.size, x.packets, |x.rx.dispatched|)
  }

  /** Number n is unacknowledged and the receiver is eight windows past it. */
  ghost predicate Outstanding(x: System, n: nat)
  {
    && x.size > 0 && |x.rx.dispatched| <= |x.packets|
    && n in x.unacked && n <= LastOf(x) && Window(LastOf(x)) == Window(n) + FREE_WINDOWS
  }

  /** Number n is command i of packet j. */
  predicate IsCommand(x: System, j: nat, i: nat, n: nat)
    requires x.size > 0
  {
    j < |x.packets| && i < Count(x.size, x.packets[j]) && First(x.size, x.packets, j) + i == n
  }

  /** Whenever command n is delivered, the channel stays as it is and nothing is acknowledged. */
  ghost predicate RepeatsAreLost(x: System, n: nat)
    requires x.size > 0 && BitsOk(x.rx.queue)
  {
    && Suppresses(Seq(n), x.rx.incoming)
    && forall j: nat, i: nat, maximum: nat, full: bool ::
         IsCommand(x, j, i, n) ==> Handle(x.rx, Sent(x.size, x.packets, j, i), maximum, full).channel == x.rx
  }

  lemma DispatchedAre(x: System, d: nat, js: seq<nat>)
    requires Inv(x, d, js)
    ensures |x.rx.dispatched| == d <= |x.packets| && LastOf(x) == Last(x.size, x.packets, d)
    ensures x.rx.incoming == Seq(LastOf(x)) && LastOf(x) <= x.s
  {
    hide Total, Expected, Seq, AcksOk, UnackedOk, Ahead, Ready;
  }

  lemma BitsAreOk(x: System)
    requires Good(x)
    ensures x.size > 0 && BitsOk(x.rx.queue)
  {
    hide ChannelInv, Ahead, AcksOk, UnackedOk, Ready, Total;
    var d, js :| Inv(x, d, js);
    BitsHold(x.rx, x.size, x.packets, d, js, x.s);
  }

  lemma EightBehind(n: nat, last: nat)
    requires Window(last) == Window(n) + FREE_WINDOWS
    ensures n < last < n + SEQUENCE
  {
  }

  /** What is outstanding is never acknowledged, and its packet was dispatched. */
  lemma OutstandingIsOld(x: System, n: nat, j: nat, i: nat)
    requires Good(x) && Outstanding(x, n) && IsCommand(x, j, i, n)
    ensures Suppresses(Seq(n), x.rx.incoming) && j < |x.rx.dispatched|
  {
    hide Inv, Suppresses, Seq, Last, First, Count;
    var d: nat, js: seq<nat> :| Inv(x, d, js);
    DispatchedAre(x, d, js);
    EightBehind(n, LastOf(x));
    DuplicateAcknowledgedIff(n, LastOf(x));
    if d <= j {
      FirstAfter(x.size, x.packets, d, j);
    }
  }

  /** One command of a packet that was dispatched comes again, and nothing else stands in its way:
      the channel stays as it is exactly when the receiver is at most nine windows past the
      packet's first number. Otherwise the packet is queued as a new one. */
  lemma RepeatUnchangedIff(x: System, j: nat, i: nat, maximum: nat)
    requires Good(x) && j < |x.rx.dispatched| <= |x.packets| && i < Count(x.size, x.packets[j])
    requires x.s < First(x.size, x.packets, j) + SEQUENCE
    requires |x.packets[j]| <= maximum && Count(x.size, x.packets[j]) <= MAXIMUM_FRAGMENT_COUNT
    ensures BitsOk(x.rx.queue)
    ensures var r := Handle(x.rx, Sent(x.size, x.packets, j, i), maximum, false);
      && (r.channel == x.rx <==> Window(LastOf(x)) <= Window(First(x.size, x.packets, j)) + REACH)
      && (r.channel != x.rx ==> r.code == 0)
  {
    hide Inv, Handle, Sent, Seq, Last, First, Count, Window, Discards, Present;
    BitsAreOk(x);
    var d: nat, js: seq<nat> :| Inv(x, d, js);
    DispatchedAre(x, d, js);
    InvIs(x, d, js);
    var first, last := First(x.size, x.packets, j), LastOf(x);
    if Window(last) <= Window(first) + REACH {
      OldArrives(x.rx, x.size, x.packets, d, js, x.s, j, i, maximum, false);
    } else {
      FirstMonotone(x.size, x.packets, j, d);
      CountCovers(x.size, x.packets[j]);
      FirstBehind(x, j);
      OldDuplicateDiscardedIff(first, last);
      NotPresent(x.rx, x.size, x.packets, d, js, x.s, first);
      SeqDiffers(first, last);
      TakenForNew(x.rx, x.size, x.packets, j, i, maximum);
    }
  }

  lemma InvIs(x: System, d: nat, js: seq<nat>)
    requires Inv(x, d, js)
    ensures x.size > 0 && ChannelInv(x.rx, x.size, x.packets, d, js, x.s)
  {
  }

  lemma FirstBehind(x: System, j: nat)
    requires x.size > 0 && |x.rx.dispatched| <= |x.packets| && j < |x.packets|
    requires Window(LastOf(x)) > Window(First(x.size, x.packets, j)) + REACH
    ensures 0 < First(x.size, x.packets, j) < LastOf(x)
  {
    hide Total, Last;
  }

  lemma SeqDiffers(n: nat, last: nat)
    requires n < last < n + SEQUENCE
    ensures Seq(n) != Seq(last)
  {
  }

  /** An old number is not that of a queued packet: it would be that of a command to come. */
  lemma NotPresent(c: Channel, size: nat, packets: seq<seq<u8>>, d: nat, js: seq<nat>, s: nat, n: nat)
    requires size > 0 && ChannelInv(c, size, packets, d, js, s) && 0 < n < Last(size, packets, d) && s < n + SEQUENCE
    ensures !Present(c.queue, c.incoming, Seq(n))
  {
    hide EntryOk, Total, Seq, Place;
    var k := Place(c.queue, c.incoming, Seq(n));
    if k > 0 && c.queue[k - 1].sn == Seq(n) {
      assert Expected(c.queue[k - 1], size, packets, d, js[k - 1], s);
      EntrySn(c.queue[k - 1], size, packets, js[k - 1]);
      FirstAfter(size, packets, d, js[k - 1]);
      SeqInjective(First(size, packets, js[k - 1]), n);
    }
  }

  lemma EntrySn(e: Incoming, size: nat, packets: seq<seq<u8>>, j: nat)
    requires size > 0 && EntryOk(e, size, packets, j)
    ensures j < |packets| && e.sn == Seq(First(size, packets, j))
  {
  }

  /** How many packets the channel has taken in. */
  function Held(c: Channel): (n: nat)
  {
    |c.queue| + |c.dispatched|
  }

  lemma {:induction false} DispatchHolds(c: Channel)
    ensures Held(Dispatch(c)) == Held(c)
    decreases |c.queue|
  {
    if Ready(c) {
      var x := c.queue[0];
      DispatchHolds(Channel(if x.count > 0 then Seq(x.sn + x.count - 1) else x.sn, c.queue[1..],
        c.dispatched + [x.data]));
    }
  }

  lemma MarkHolds(c: Channel, k: nat, f: Command)
    requires f.Fragment? && k < |c.queue| && f.number < |c.queue[k].bits| && f.offset <= |c.queue[k].data|
    ensures Held(MarkEntry(c, k, f)) == Held(c)
  {
    hide Dispatch, Marked;
    DispatchHolds(c.(queue := c.queue[k := Marked(c.queue[k], f.number, f.offset, f.data)]));
  }

  lemma InsertHolds(c: Channel, k: nat, e: Incoming)
    requires k <= |c.queue|
    ensures Held(c.(queue := Insert(c.queue, k, e))) == Held(c) + 1
  {
  }

  /** A command that is not discarded and whose packet is not queued adds one to the queue. */
  lemma TakenForNew(c: Channel, size: nat, packets: seq<seq<u8>>, j: nat, i: nat, maximum: nat)
    requires size > 0 && BitsOk(c.queue) && j < |packets| && i < Count(size, packets[j])
    requires |packets[j]| <= maximum && Count(size, packets[j]) <= MAXIMUM_FRAGMENT_COUNT
    requires var sn := Seq(First(size, packets, j));
      !Discards(sn, c.incoming) && sn != c.incoming && !Present(c.queue, c.incoming, sn)
    ensures var r := Handle(c, Sent(size, packets, j, i), maximum, false);
      Held(r.channel) == Held(c) + 1 && r.code == 0
  {
    hide Discards, Dispatch, Insert, Seq, First, Count, Place, MarkEntry, Held, Sent, FragmentBad, Low, High;
    var sn := Seq(First(size, packets, j));
    var k := Place(c.queue, c.incoming, sn);
    if |packets[j]| <= size {
      SentWhole(size, packets, j, i);
      var e := Incoming(sn, 0, [], 0, packets[j]);
      InsertHolds(c, k, e);
      DispatchHolds(c.(queue := Insert(c.queue, k, e)));
    } else {
      SentIs(size, packets, j, i);
      FragmentFits(size, packets, j, i, maximum);
      var f := Sent(size, packets, j, i);
      var e := Incoming(f.start, f.count, NoBits(f.count), f.count, Blank(f.total));
      InsertHolds(c, k, e);
      DispatchHolds(c.(queue := Insert(c.queue, k, e)));
      StartedEntry(c, k, e);
      var c1 := Dispatch(c.(queue := Insert(c.queue, k, e)));
      MarkHolds(c1, k - (|c.queue| + 1 - |c1.queue|), f);
    }
  }

  lemma SentWhole(size: nat, packets: seq<seq<u8>>, j: nat, i: nat)
    requires size > 0 && j < |packets| && |packets[j]| <= size && i < Count(size, packets[j])
    ensures Sent(size, packets, j, i) == Whole(Seq(First(size, packets, j)), packets[j])
  {
  }

  lemma FragmentFits(size: nat, packets: seq<seq<u8>>, j: nat, i: nat, maximum: nat)
    requires size > 0 && j < |packets| && |packets[j]| > size && i < Count(size, packets[j]) <= MAXIMUM_FRAGMENT_COUNT
    requires |packets[j]| <= maximum
    ensures var f := Sent(size, packets, j, i);
      f.Fragment? && !FragmentBad(f, maximum) && |f.data| <= maximum && f.count > 0
  {
    hide Count, Low, High, First, Seq;
    Bounds(size, packets[j], i);
  }

  /** What is repeated of an outstanding command is lost exactly when its packet starts at most
      nine windows back; packets of more than 4097 commands may start further back. */
  lemma OutstandingIsSilentIff(x: System, n: nat, j: nat, i: nat)
    requires Good(x) && Outstanding(x, n) && IsCommand(x, j, i, n)
    requires x.s < First(x.size, x.packets, j) + SEQUENCE && Count(x.size, x.packets[j]) <= MAXIMUM_FRAGMENT_COUNT
    ensures BitsOk(x.rx.queue) && Suppresses(Seq(n), x.rx.incoming)
    ensures RepeatsAreLost(x, n) <==> Window(LastOf(x)) <= Window(First(x.size, x.packets, j)) + REACH
  {
    hide Good, Handle, Sent, Suppresses, Seq, First, Count, Window, Last;
    BitsAreOk(x);
    OutstandingIsOld(x, n, j, i);
    RepeatUnchangedIff(x, j, i, |x.packets[j]|);
    if Window(LastOf(x)) <= Window(First(x.size, x.packets, j)) + REACH {
      InReachIsSilent(x, n, j, i);
    }
  }

  lemma InReachIsSilent(x: System, n: nat, j: nat, i: nat)
    requires Good(x) && Outstanding(x, n) && IsCommand(x, j, i, n)
    requires Window(LastOf(x)) <= Window(First(x.size, x.packets, j)) + REACH
    ensures BitsOk(x.rx.queue) && RepeatsAreLost(x, n)
  {
    hide Inv, Handle, Sent, Suppresses, Seq, First, Count, Window, Last;
    BitsAreOk(x);
    OutstandingIsOld(x, n, j, i);
    var d, js :| Inv(x, d, js);
    DispatchedAre(x, d, js);
    InvIs(x, d, js);
    forall j': nat, i': nat, maximum: nat, full: bool | IsCommand(x, j', i', n)
      ensures Handle(x.rx, Sent(x.size, x.packets, j', i'), maximum, full).channel == x.rx
    {
      CommandIsOne(x, n, j, i, j', i');
      OldArrives(x.rx, x.size, x.packets, d, js, x.s, j, i, maximum, full);
    }
  }

  /** A number is that of one command only. */
  lemma CommandIsOne(x: System, n: nat, j: nat, i: nat, j': nat, i': nat)
    requires x.size > 0 && IsCommand(x, j, i, n) && IsCommand(x, j', i', n)
    ensures j == j' && i == i'
  {
    hide First, Count;
    if j < j' {
      FirstMonotone(x.size, x.packets, j, j');
    } else if j' < j {
      FirstMonotone(x.size, x.packets, j', j);
    }
  }

  /** Of packets of at most 4097 commands every repeat is lost. */
  lemma OutstandingIsSilent(x: System, n: nat)
    requires Good(x) && Small(x) && Outstanding(x, n)
    ensures BitsOk(x.rx.queue) && RepeatsAreLost(x, n)
  {
    hide Inv, Suppresses, Seq, First, Count, Last, Window, Handle, Sent, RepeatsAreLost, Small, Travels;
    BitsAreOk(x);
    var d: nat, js: seq<nat> :| Inv(x, d, js);
    DispatchedAre(x, d, js);
    InTotal(x, d, js, n);
    var j, i := Located(x.size, x.packets, n);
    OutstandingIsOld(x, n, j, i);
    OutstandingTravels(x, j, i, n);
    SmallInReach(x, j, i);
    InReachIsSilent(x, n, j, i);
  }

  lemma InTotal(x: System, d: nat, js: seq<nat>, n: nat)
    requires Inv(x, d, js) && n in x.unacked
    ensures 1 <= n <= x.s <= Total(x.size, x.packets)
  {
  }

  lemma OutstandingTravels(x: System, j: nat, i: nat, n: nat)
    requires Good(x) && n in x.unacked && IsCommand(x, j, i, n)
    ensures Travels(x, First(x.size, x.packets, j), First(x.size, x.packets, j) + i)
  {
    hide ChannelInv, Total, Ahead, AcksOk, Ready;
    var d, js :| Inv(x, d, js);
  }

  /** A step never takes the receiver back, nor beyond eight windows past what is
      unacknowledged. */
  lemma OutstandingStays(x: System, x': System, n: nat)
    requires Good(x) && Next(x, x') && Good(x') && Small(x) && Outstanding(x, n) && n in x'.unacked
    ensures Outstanding(x', n)
  {
    hide Inv, Takes, Last, Window;
    var d, js :| Inv(x, d, js);
    var d', js' :| Inv(x', d', js');
    DispatchedAre(x, d, js);
    DispatchedAre(x', d', js');
    LastRises(x, x', d, js);
    WindowMonotone(LastOf(x), LastOf(x'));
    WindowMonotone(LastOf(x'), x'.s);
    UnackedWithin(x', d', js', n);
  }

  lemma UnackedWithin(x: System, d: nat, js: seq<nat>, n: nat)
    requires Inv(x, d, js) && n in x.unacked
    ensures Window(x.s) <= Window(n) + FREE_WINDOWS
  {
  }

  lemma LastRises(x: System, x': System, d: nat, js: seq<nat>)
    requires Inv(x, d, js) && Next(x, x') && Good(x') && Small(x)
    ensures x'.size == x.size && |x.rx.dispatched| <= |x.packets| && |x'.rx.dispatched| <= |x'.packets|
    ensures LastOf(x) <= LastOf(x')
  {
    hide Inv, Takes, Last;
    var d', js' :| Inv(x', d', js');
    DispatchedAre(x, d, js);
    DispatchedAre(x', d', js');
    var step :| Takes(x, step, x');
    match step
    case Send(packet) =>
      SendIs(x, packet, x');
      LastExtends(x, x', packet);
    case Transmit =>
      OnlySender(x, step, x');
    case Acknowledge(n) =>
      OnlySender(x, step, x');
    case Deliver(j, i, maximum, full) =>
      DeliverTravels(x, step, x');
      SmallInReach(x, j, i);
      DeliveredMore(x, x', d, js, j, i, maximum, full);
      LastMonotone(x.size, x.packets, d, |x'.rx.dispatched|);
  }

  lemma LastExtends(x: System, x': System, p: seq<u8>)
    requires x.size > 0 && |x.rx.dispatched| <= |x.packets| && (x' == x || x' == x.(packets := x.packets + [p]))
    ensures LastOf(x') == LastOf(x)
  {
    hide Total;
    TotalExtends(x.size, x.packets, p, |x.rx.dispatched|);
  }

  lemma OnlySender(x: System, step: Step, x': System)
    requires x.size > 0 && Takes(x, step, x') && (step.Transmit? || step.Acknowledge?)
    ensures x'.size == x.size && x'.packets == x.packets && x'.rx == x.rx
  {
  }

  lemma DeliveredMore(x: System, x': System, d: nat, js: seq<nat>, j: nat, i: nat, maximum: nat, full: bool)
    requires Inv(x, d, js) && Takes(x, Deliver(j, i, maximum, full), x') && InReach(x, j)
    ensures x'.size == x.size && x'.packets == x.packets && d <= |x'.rx.dispatched| <= |x.packets|
  {
    hide Total, First, Count, Expected, Received, Seq, AcksOk, UnackedOk, Ready, Near, Handle, Sent, Keeps, Suppresses;
    AheadIsNear(x, d);
    var d', js' := Arrives(x.rx, x.size, x.packets, d, js, x.s, j, i, maximum, full);
  }

  /** Once the receiver is eight windows past a command whose acknowledgement did not reach the
      sender, the sender repeats it in vain: in every later state of the run, as long as the
      command is unacknowledged, whatever of it is delivered changes nothing and is not
      acknowledged. */
  lemma {:induction false} RepeatedInVain(states: seq<System>, k: nat, l: nat, n: nat)
    requires Run(states) && k <= l < |states| && Small(states[l]) && Outstanding(states[k], n)
    requires forall m :: k <= m <= l ==> n in states[m].unacked
    ensures Outstanding(states[l], n)
    ensures BitsOk(states[l].rx.queue) && RepeatsAreLost(states[l], n)
    decreases l
  {
    hide Outstanding, RepeatsAreLost, Good, Next, Small;
    if k < l {
      assert Next(states[l - 1], states[l]);
      SmallBefore(states[l - 1], states[l]);
      RepeatedInVain(states, k, l - 1, n);
      RunIsGood(states, l - 1);
      RunIsGood(states, l);
      OutstandingStays(states[l - 1], states[l], n);
    }
    RunIsGood(states, l);
    OutstandingHasSize(states[l], n);
    OutstandingIsSilent(states[l], n);
  }

  lemma OutstandingHasSize(x: System, n: nat)
    requires Outstanding(x, n)
    ensures x.size > 0
  {
  }

  // ---------- Reachable states ----------

  ghost predicate Reachable(x: System)
  {
    exists states :: Run(states) && states[|states| - 1] == x
  }

  lemma ReachStep(x: System, step: Step, x': System)
    requires Reachable(x) && x.size > 0 && Takes(x, step, x')
    ensures Reachable(x')
  {
    hide Takes;
    var states :| Run(states) && states[|states| - 1] == x;
    assert Next(x, x');
    assert Run(states + [x']) && (states + [x'])[|states|] == x';
  }

  /** The next command is sent, arrives and is acknowledged by the receiver. */
  lemma Round(x: System, j: nat, i: nat, maximum: nat, rx: Channel)
    requires Reachable(x) && x.size > 0 && j < |x.packets| && i < Count(x.size, x.packets[j]) && BitsOk(x.rx.queue)
    requires x.s + 1 == First(x.size, x.packets, j) + i && x.s < Total(x.size, x.packets)
    requires !Blocks(Counters(x.unacked, WINDOWS), UsedWindows(Counters(x.unacked, WINDOWS)), Seq(x.s + 1))
    requires Handle(x.rx, Sent(x.size, x.packets, j, i), maximum, false) == Outcome(rx, 0)
    requires !Suppresses(Seq(x.s + 1), rx.incoming)
    ensures Reachable(x.(s := x.s + 1, unacked := x.unacked + {x.s + 1}, acks := x.acks + {x.s + 1}, rx := rx))
  {
    hide Reachable, Blocks, Counters, UsedWindows, First, Total, Count, Handle, Sent, Suppresses, Seq;
    var x1 := x.(s := x.s + 1, unacked := x.unacked + {x.s + 1});
    assert Takes(x, Transmit, x1);
    ReachStep(x, Transmit, x1);
    var x2 := x1.(acks := x.acks + {x.s + 1}, rx := rx);
    assert Takes(x1, Deliver(j, i, maximum, false), x2);
    ReachStep(x1, Deliver(j, i, maximum, false), x2);
  }

  /** The sender learns of the acknowledgement. */
  lemma Answered(x: System, n: nat)
    requires Reachable(x) && x.size > 0 && n in x.acks && x.s < n + SEQUENCE
    requires forall m :: m in x.unacked && m != n ==> Seq(m) != Seq(n)
    ensures Reachable(x.(unacked := x.unacked - {n}))
  {
    hide Reachable, Seq;
    assert (set m | m in x.unacked && Seq(m) != Seq(n)) == x.unacked - {n};
    ReachStep(x, Acknowledge(n), x.(unacked := x.unacked - {n}));
  }

  /** Everything sent was dispatched and acknowledged by the receiver; of some of it the
      acknowledgement did not reach the sender. */
  function Caught(ps: seq<seq<u8>>, unacked: set<nat>, queue: seq<Incoming>): (x: System)
  {
    var n := Total(1, ps);
    System(1, ps, n, unacked, Interval(1, n), Channel(Seq(n), queue, ps))
  }

  /** Nothing outstanding closes the guard for eight windows. */
  lemma GuardOpen(unacked: set<nat>, n: nat)
    requires forall a :: a in unacked ==> unacked == {a} && a < n && Window(n) <= Window(a) + FREE_WINDOWS
    ensures !Blocks(Counters(unacked, WINDOWS), UsedWindows(Counters(unacked, WINDOWS)), Seq(n))
  {
    hide InWindow, Window;
    var c := Counters(unacked, WINDOWS);
    forall v: nat | v < WINDOWS
      ensures c[v] <= 1 && (c[v] != 0 ==> exists a :: a in unacked && Window(a) % WINDOWS == v)
    {
      FewInWindow(unacked, v);
    }
    BlocksIff(c, UsedWindows(c), Seq(n));
    if Seq(n) % WINDOW_SIZE == 0 {
      forall v: nat | v < WINDOWS && c[v] != 0
        ensures (v + WINDOWS - Seq(n) / WINDOW_SIZE) % WINDOWS >= FREE_WINDOWS
      {
        var a :| a in unacked && Window(a) % WINDOWS == v;
        WindowsBack(a, n);
      }
    }
  }

  lemma FewInWindow(unacked: set<nat>, v: nat)
    requires forall a :: a in unacked ==> unacked == {a}
    ensures |InWindow(unacked, v)| <= 1
    ensures |InWindow(unacked, v)| != 0 ==> exists a :: a in unacked && Window(a) % WINDOWS == v
  {
    hide Window;
    if unacked == {} {
      assert InWindow(unacked, v) == {};
    } else {
      var a :| a in unacked;
      SubsetSize(InWindow(unacked, v), {a});
      if Window(a) % WINDOWS != v {
        assert InWindow(unacked, v) == {};
      }
    }
  }

  /** One to eight windows back. */
  lemma WindowsBack(a: nat, n: nat)
    requires a < n && Seq(n) % WINDOW_SIZE == 0 && Window(n) <= Window(a) + FREE_WINDOWS
    ensures (Window(a) % WINDOWS + WINDOWS - Seq(n) / WINDOW_SIZE) % WINDOWS >= FREE_WINDOWS
  {
    hide Window;
    WindowStarts(a, n);
    SlotOf(n);
    BackOnRing(Window(a), Window(n) - Window(a));
  }

  lemma SlotOf(n: nat)
    ensures Seq(n) / WINDOW_SIZE == Window(n) % WINDOWS
  {
    LapOf(n);
  }

  lemma WindowStarts(a: nat, n: nat)
    requires a < n && Seq(n) % WINDOW_SIZE == 0
    ensures Window(a) < Window(n)
  {
    LapOf(n);
    assert n == WINDOW_SIZE * Window(n);
  }

  lemma BackOnRing(w: nat, k: nat)
    requires 1 <= k <= FREE_WINDOWS
    ensures (w % WINDOWS + WINDOWS - (w + k) % WINDOWS) % WINDOWS == WINDOWS - k
  {
    var r := w % WINDOWS;
    if r + k < WINDOWS {
      assert (w + k) % WINDOWS == r + k;
    } else {
      assert (w + k) % WINDOWS == r + k - WINDOWS;
    }
  }

  /** What waits in the queue belongs behind the next number, and is not complete. */
  predicate Behind(queue: seq<Incoming>, last: nat)
  {
    |queue| <= 1 && BitsOk(queue)
    && forall e :: e in queue ==> e.remaining > 0 && Key(e.sn, Seq(last)) > Key(Seq(last + 1), Seq(last))
  }

  lemma NextIsNew(m: nat)
    ensures !Discards(Seq(m + 1), Seq(m)) && Seq(m + 1) != Seq(m) && Seq(Seq(m) + 1) == Seq(m + 1)
  {
    hide WindowsAhead;
    AheadExact(m + 1, m);
  }

  lemma DispatchesFirst(incoming: u16, e: Incoming, queue: seq<Incoming>, dispatched: seq<seq<u8>>)
    requires e.sn == Seq(incoming + 1) && e.remaining <= 0 && forall e' :: e' in queue ==> e'.remaining > 0
    ensures Dispatch(Channel(incoming, [e] + queue, dispatched))
         == Channel(if e.count > 0 then Seq(e.sn + e.count - 1) else e.sn, queue, dispatched + [e.data])
  {
    assert ([e] + queue)[1..] == queue;
    assert !Ready(Channel(if e.count > 0 then Seq(e.sn + e.count - 1) else e.sn, queue, dispatched + [e.data]));
  }

  lemma TakesOne(last: nat, queue: seq<Incoming>, ps: seq<seq<u8>>)
    requires Behind(queue, last)
    ensures Handle(Channel(Seq(last), queue, ps), Whole(Seq(last + 1), [0]), 1, false)
         == Outcome(Channel(Seq(last + 1), queue, ps + [[0]]), 0)
  {
    hide Discards, Dispatch, Seq, Key;
    var c := Channel(Seq(last), queue, ps);
    var e := Incoming(Seq(last + 1), 0, [], 0, [0]);
    NextIsNew(last);
    if queue != [] {
      assert queue[0] in queue && queue[..|queue| - 1] == [];
    }
    assert Place(queue, Seq(last), Seq(last + 1)) == 0;
    assert Insert(queue, 0, e) == [e] + queue;
    DispatchesFirst(Seq(last), e, queue, ps);
  }

  lemma NotSuppressed(n: nat, last: nat)
    requires last <= n && Window(n) < Window(last) + FREE_WINDOWS - 1
    ensures !Suppresses(Seq(n), Seq(last))
  {
    AheadExact(n, last);
  }

  lemma TotalMore(ps: seq<seq<u8>>, p: seq<u8>)
    ensures Total(1, ps + [p]) == Total(1, ps) + Count(1, p)
    ensures First(1, ps + [p], |ps|) == Total(1, ps) + 1
  {
    assert (ps + [p])[..|ps|] == ps;
  }

  /** One more packet of one byte, up to the acknowledgement the receiver sends. */
  lemma OneMoreSent(ps: seq<seq<u8>>, unacked: set<nat>, queue: seq<Incoming>)
    requires Reachable(Caught(ps, unacked, queue)) && Behind(queue, Total(1, ps))
    requires forall a :: a in unacked ==>
      unacked == {a} && a <= Total(1, ps) && Window(Total(1, ps) + 1) <= Window(a) + FREE_WINDOWS
    ensures Total(1, ps + [[0]]) == Total(1, ps) + 1
    ensures Reachable(Caught(ps + [[0]], unacked + {Total(1, ps) + 1}, queue))
  {
    hide Reachable, Total, First, Blocks, Counters, UsedWindows, Seq, Suppresses, Window, Discards, Key, Handle;
    var x, n, ps' := Caught(ps, unacked, queue), Total(1, ps), ps + [[0]];
    TotalMore(ps, [0]);
    var x1 := x.(packets := ps');
    assert Takes(x, Send([0]), x1);
    ReachStep(x, Send([0]), x1);
    GuardOpen(unacked, n + 1);
    TakesOne(n, queue, ps);
    NotSuppressed(n + 1, n + 1);
    assert Sent(1, ps', |ps|, 0) == Whole(Seq(n + 1), [0]);
    Round(x1, |ps|, 0, 1, Channel(Seq(n + 1), queue, ps'));
    assert Interval(1, n + 1) == Interval(1, n) + {n + 1};
  }

  lemma OneMore(ps: seq<seq<u8>>, unacked: set<nat>, queue: seq<Incoming>)
    requires Reachable(Caught(ps, unacked, queue)) && Behind(queue, Total(1, ps))
    requires forall a :: a in unacked ==>
      unacked == {a} && a <= Total(1, ps) && Window(Total(1, ps) + 1) <= Window(a) + FREE_WINDOWS
    ensures Total(1, ps + [[0]]) == Total(1, ps) + 1
    ensures Reachable(Caught(ps + [[0]], unacked, queue))
  {
    hide Reachable, Total, Seq, Window, Behind;
    OneMoreSent(ps, unacked, queue);
    var n := Total(1, ps) + 1;
    forall m | m in unacked + {n} && m != n
      ensures Seq(m) != Seq(n)
    {
      Apart(m, n);
    }
    Answered(Caught(ps + [[0]], unacked + {n}, queue), n);
    assert unacked + {n} - {n} == unacked;
  }

  lemma Apart(m: nat, n: nat)
    requires m < n && Window(n) <= Window(m) + FREE_WINDOWS
    ensures Seq(m) != Seq(n)
  {
  }

  function Copies(m: nat): (ps: seq<seq<u8>>)
  {
    if m == 0 then [] else Copies(m - 1) + [[0]]
  }

  /** k more packets of one byte. */
  lemma {:induction false} More(ps: seq<seq<u8>>, unacked: set<nat>, queue: seq<Incoming>, k: nat)
    requires Reachable(Caught(ps, unacked, queue))
    requires forall n: nat :: Total(1, ps) <= n < Total(1, ps) + k ==> Behind(queue, n)
    requires forall a :: a in unacked ==>
      unacked == {a} && a <= Total(1, ps) && Window(Total(1, ps) + k) <= Window(a) + FREE_WINDOWS
    ensures Total(1, ps + Copies(k)) == Total(1, ps) + k && Reachable(Caught(ps + Copies(k), unacked, queue))
    decreases k
  {
    hide Reachable, Total, Seq, Caught, Behind, Window;
    if k == 0 {
      assert ps + Copies(0) == ps;
    } else {
      WindowMonotone(Total(1, ps) + k - 1, Total(1, ps) + k);
      More(ps, unacked, queue, k - 1);
      OneMore(ps + Copies(k - 1), unacked, queue);
      assert ps + Copies(k) == (ps + Copies(k - 1)) + [[0]];
    }
  }

  lemma {:induction false} NothingYet()
    ensures Reachable(Caught([], {}, [])) && Total(1, []) == 0
  {
    var x := Caught([], {}, []);
    assert Interval(1, 0) == {};
    assert Run([x]) && [x][0] == x;
  }

  /** What was caught up with is good. */
  lemma CaughtIsGood(ps: seq<seq<u8>>, unacked: set<nat>)
    requires forall a :: a in unacked ==> 1 <= a <= Total(1, ps) && Window(Total(1, ps)) <= Window(a) + FREE_WINDOWS
    ensures Good(Caught(ps, unacked, []))
  {
    hide Total, First, Count, Seq;
    var x, d, js: seq<nat> := Caught(ps, unacked, []), |ps|, [];
    assert ps[..d] == ps;
    forall n | n in x.acks
      ensures Arrived(x, d, js, n) && Window(n) <= Window(x.s)
    {
      var j, i := Located(1, ps, n);
      assert Received(x.rx, d, js, j, i);
      WindowMonotone(n, x.s);
    }
    assert Inv(x, d, js);
  }

  // ---------- It happens ----------

  lemma OutstandingCaught(ps: seq<seq<u8>>, n: nat, queue: seq<Incoming>)
    requires n <= Total(1, ps) && Window(Total(1, ps)) == Window(n) + FREE_WINDOWS
    ensures Outstanding(Caught(ps, {n}, queue), n)
  {
    hide Total, Window;
    assert ps[..|ps|] == ps;
  }

  lemma {:induction false} CopiesAre(m: nat)
    ensures |Copies(m)| == m && forall p :: p in Copies(m) ==> p == [0]
    decreases m
  {
    if m > 0 {
      CopiesAre(m - 1);
    }
  }

  lemma ShortCopies(m: nat)
    ensures AtMost(Caught([[0]] + Copies(m), {1}, []), 1)
  {
    hide Total;
    CopiesAre(m);
  }

  /** A run in which the first command is outstanding, delivered and acknowledged but without
      the acknowledgement having arrived, when the receiver is eight windows past it. */
  lemma DeliveredButNotAcknowledged() returns (states: seq<System>)
    ensures Run(states) && Small(states[|states| - 1]) && Outstanding(states[|states| - 1], 1)
    ensures BitsOk(states[|states| - 1].rx.queue) && RepeatsAreLost(states[|states| - 1], 1)
  {
    hide Run, Reachable, Good, RepeatsAreLost, Total, Seq, Outstanding, Count;
    NothingYet();
    OneMoreSent([], {}, []);
    assert [] + [[0]] == [[0]] && {} + {1} == {1};
    var k := FREE_WINDOWS * WINDOW_SIZE - 1;
    More([[0]], {1}, [], k);
    var ps := [[0]] + Copies(k);
    var x := Caught(ps, {1}, []);
    assert Window(1) == 0 && Window(k + 1) == FREE_WINDOWS;
    CaughtIsGood(ps, {1});
    OutstandingCaught(ps, 1, []);
    ShortCopies(k);
    OutstandingIsSilent(x, 1);
    states := RunTo(x);
  }

  lemma RunTo(x: System) returns (states: seq<System>)
    requires Reachable(x)
    ensures Run(states) && |states| > 0 && states[|states| - 1] == x
  {
    states :| Run(states) && states[|states| - 1] == x;
  }
}
