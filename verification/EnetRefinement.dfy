/** The class of EnetPeer keeps to the steps of EnetSystem: what its methods do to the lists and
    counters of a channel is what the system's steps do to its numbers. */
module EnetRefinement {
  import opened Words
  import opened EnetWindows
  import opened EnetReceive
  import opened EnetFragments
  import opened EnetDelivery
  import opened EnetPeer
  import opened EnetSystem

  // ---------- The lists of a channel ----------

  /** The commands of a channel that were never sent, in the order of the queue. */
  function Unsent(cs: seq<Outgoing>, ch: nat): (r: seq<Outgoing>)
  {
    if cs == [] then []
    else
      var c := cs[|cs| - 1];
      Unsent(cs[..|cs| - 1], ch) + if c.attempts == 0 && c.channel == ch then [c] else []
  }

  /** How many commands sent at least once bear a number on a channel. */
  function Named(cs: seq<Outgoing>, ch: nat, sn: u16): (n: nat)
  {
    if cs == [] then 0 else Named(cs[..|cs| - 1], ch, sn) + NamedOne(cs[|cs| - 1], ch, sn)
  }

  function NamedOne(c: Outgoing, ch: nat, sn: u16): (n: nat)
  {
    if c.attempts > 0 && c.channel == ch && c.sn == sn then 1 else 0
  }

  lemma {:induction false} UnsentParts(a: seq<Outgoing>, b: seq<Outgoing>, ch: nat)
    ensures Unsent(a + b, ch) == Unsent(a, ch) + Unsent(b, ch)
    decreases |b|
  {
    if b == [] {
      assert a + b == a;
    } else {
      assert (a + b)[..|a + b| - 1] == a + b[..|b| - 1];
      UnsentParts(a, b[..|b| - 1], ch);
    }
  }

  lemma {:induction false} NamedParts(a: seq<Outgoing>, b: seq<Outgoing>, ch: nat, sn: u16)
    ensures Named(a + b, ch, sn) == Named(a, ch, sn) + Named(b, ch, sn)
    decreases |b|
  {
    hide NamedOne;
    if b == [] {
      assert a + b == a;
    } else {
      assert (a + b)[..|a + b| - 1] == a + b[..|b| - 1];
      NamedParts(a, b[..|b| - 1], ch, sn);
    }
  }

  lemma OneUnsent(c: Outgoing, ch: nat)
    ensures Unsent([c], ch) == if c.attempts == 0 && c.channel == ch then [c] else []
  {
    assert [c][..0] == [];
  }

  lemma OneNamed(c: Outgoing, ch: nat, sn: u16)
    ensures Named([c], ch, sn) == NamedOne(c, ch, sn)
  {
    hide NamedOne;
    assert [c][..0] == [];
  }

  lemma {:induction false} NamedIff(cs: seq<Outgoing>, ch: u8, sn: u16)
    ensures Named(cs, ch, sn) > 0 <==> exists c :: c in cs && c.attempts > 0 && Names(c, sn, ch)
    decreases |cs|
  {
    if cs != [] {
      var front, last := cs[..|cs| - 1], cs[|cs| - 1];
      NamedIff(front, ch, sn);
      assert forall c :: c in cs <==> c in front || c == last;
    }
  }

  // ---------- What a peer represents ----------

  /** The lists stand for the sender of a system: in flight are the unacknowledged numbers,
      and the commands never sent are numbered on from the last one sent. */
  ghost predicate Represents(sent: seq<Outgoing>, outgoing: seq<Outgoing>, ch: nat, x: System)
  {
    && x.size > 0 && Good(x)
    && Counts(sent, outgoing, ch, x.unacked) && Bears(sent, outgoing, ch, x.unacked)
    && NumberedFrom(Unsent(outgoing, ch), x.s + 1) && x.s + |Unsent(outgoing, ch)| == Total(x.size, x.packets)
  }

  ghost predicate Counts(sent: seq<Outgoing>, outgoing: seq<Outgoing>, ch: nat, unacked: set<nat>)
  {
    forall w: nat :: w < WINDOWS ==> InFlight(sent, ch, w) + InFlight(outgoing, ch, w) == |InWindow(unacked, w)|
  }

  ghost predicate Bears(sent: seq<Outgoing>, outgoing: seq<Outgoing>, ch: nat, unacked: set<nat>)
  {
    forall sn: u16 :: Named(sent, ch, sn) + Named(outgoing, ch, sn) == if IsSeq(unacked, sn) then 1 else 0
  }

  ghost predicate IsSeq(ns: set<nat>, sn: u16)
  {
    exists n :: n in ns && Seq(n) == sn
  }

  predicate NumberedFrom(cs: seq<Outgoing>, n: nat)
  {
    forall i :: 0 <= i < |cs| ==> cs[i].sn == Seq(n + i)
  }

  /** What is unacknowledged in a good system can be told apart by 16 bits. */
  lemma UnackedApart(x: System, m: nat, n: nat)
    requires Good(x) && m in x.unacked && n in x.unacked && Seq(m) == Seq(n)
    ensures m == n
  {
    hide Inv, Seq, Window;
    WithinLap(x, m);
    WithinLap(x, n);
    Injective(m, n);
  }

  lemma Injective(a: nat, b: nat)
    requires Seq(a) == Seq(b) && -SEQUENCE < a - b < SEQUENCE
    ensures a == b
  {
  }

  lemma WithinLap(x: System, n: nat)
    requires Good(x) && n in x.unacked
    ensures 1 <= n <= x.s < n + SEQUENCE
  {
    hide ChannelInv, Ahead, AcksOk, Ready, Total;
    var d, js :| Inv(x, d, js);
    NotOld(n, x.s);
  }

  // ---------- Counters ----------

  lemma SlotOf(n: nat)
    ensures Seq(n) / WINDOW_SIZE == Window(n) % WINDOWS
  {
    LapOf(n);
  }

  lemma OneMore(s: set<nat>, n: nat, w: nat)
    requires n !in s
    ensures |InWindow(s + {n}, w)| == |InWindow(s, w)| + if Window(n) % WINDOWS == w then 1 else 0
  {
    hide Window;
    if Window(n) % WINDOWS == w {
      assert InWindow(s + {n}, w) == InWindow(s, w) + {n};
    } else {
      assert InWindow(s + {n}, w) == InWindow(s, w);
    }
  }

  /** The counters of one channel are those of the system. */
  ghost predicate CountersAre(windows: seq<nat>, used: set<nat>, unacked: set<nat>)
  {
    && |windows| == WINDOWS && UsedOk(windows, used)
    && forall w :: 0 <= w < WINDOWS ==> windows[w] == |InWindow(unacked, w)|
  }

  /** So the test the code makes on its counters is the guard of the system. */
  lemma GuardAgrees(windows: seq<nat>, used: set<nat>, unacked: set<nat>, sn: u16)
    requires CountersAre(windows, used, unacked)
    ensures Blocks(windows, used, sn) ==
      Blocks(Counters(unacked, WINDOWS), UsedWindows(Counters(unacked, WINDOWS)), sn)
  {
    hide Blocks, InWindow;
    assert windows == Counters(unacked, WINDOWS);
    assert used == UsedWindows(windows);
  }

  lemma CountersBegin(windows: seq<seq<nat>>, used: seq<set<nat>>, sent: seq<Outgoing>, outgoing: seq<Outgoing>,
                      ch: nat, unacked: set<nat>)
    requires AllCounted(windows, used, sent, outgoing) && ch < |windows|
    ensures Counts(sent, outgoing, ch, unacked) <==> CountersAre(windows[ch], used[ch], unacked)
  {
    hide InFlight, InWindow, UsedOk;
    assert Counted(windows[ch], used[ch], sent, outgoing, ch);
  }

  lemma CountersUp(windows: seq<nat>, used: set<nat>, unacked: set<nat>, n: nat)
    requires CountersAre(windows, used, unacked) && n !in unacked
    ensures var w := Seq(n) / WINDOW_SIZE;
      CountersAre(windows[w := windows[w] + 1], used + {w}, unacked + {n})
  {
    hide InWindow, Seq, Window;
    SlotOf(n);
    UsedUp(windows, used, Seq(n) / WINDOW_SIZE);
    forall w | 0 <= w < WINDOWS
      ensures |InWindow(unacked + {n}, w)| == |InWindow(unacked, w)| + if Window(n) % WINDOWS == w then 1 else 0
    {
      OneMore(unacked, n, w);
    }
  }

  // ---------- Queueing a packet ----------

  /** Numbering and queueing the commands of a packet is a Send step. */
  lemma QueuedIsSend(sent: seq<Outgoing>, outgoing: seq<Outgoing>, ch: nat, x: System,
                     packet: seq<u8>, commands: seq<Outgoing>) returns (x': System)
    requires Represents(sent, outgoing, ch, x)
    requires |commands| == Count(x.size, packet) <= MAXIMUM_FRAGMENT_COUNT
    requires forall c :: c in commands ==> c.attempts == 0 && c.channel == ch
    requires NumberedFrom(commands, Total(x.size, x.packets) + 1)
    ensures Takes(x, Send(packet), x') && x'.packets == x.packets + [packet]
    ensures Represents(sent, outgoing + commands, ch, x')
  {
    hide InFlight, Named, Unsent, Seq, Good, Count, Total, Counts, Bears, NumberedFrom, Takes;
    x' := x.(packets := x.packets + [packet]);
    SendTakes(x, packet);
    TakesKeeps(x, Send(packet), x');
    UnsentParts(outgoing, commands, ch);
    AllUnsent(commands, ch);
    NumbersJoin(Unsent(outgoing, ch), commands, x.s + 1);
    TotalMore(x.size, x.packets, packet);
    QueuedCounts(sent, outgoing, ch, x.unacked, commands);
  }

  lemma SendTakes(x: System, packet: seq<u8>)
    requires x.size > 0 && Count(x.size, packet) <= MAXIMUM_FRAGMENT_COUNT
    ensures Takes(x, Send(packet), x.(packets := x.packets + [packet]))
  {
    hide Count;
  }

  lemma TotalMore(size: nat, packets: seq<seq<u8>>, packet: seq<u8>)
    requires size > 0
    ensures Total(size, packets + [packet]) == Total(size, packets) + Count(size, packet)
  {
    assert (packets + [packet])[..|packets|] == packets;
  }

  lemma NumbersJoin(a: seq<Outgoing>, b: seq<Outgoing>, n: nat)
    requires NumberedFrom(a, n) && NumberedFrom(b, n + |a|)
    ensures NumberedFrom(a + b, n)
  {
    hide Seq;
    forall i | 0 <= i < |a + b|
      ensures (a + b)[i].sn == Seq(n + i)
    {
      if i >= |a| {
        assert (a + b)[i] == b[i - |a|];
      }
    }
  }

  /** Commands never sent are neither counted nor named. */
  lemma QueuedCounts(sent: seq<Outgoing>, outgoing: seq<Outgoing>, ch: nat, unacked: set<nat>, commands: seq<Outgoing>)
    requires forall c :: c in commands ==> c.attempts == 0
    ensures Counts(sent, outgoing, ch, unacked) ==> Counts(sent, outgoing + commands, ch, unacked)
    ensures Bears(sent, outgoing, ch, unacked) ==> Bears(sent, outgoing + commands, ch, unacked)
  {
    hide InFlight, Named, InWindow, IsSeq;
    forall w: nat | w < WINDOWS
      ensures InFlight(outgoing + commands, ch, w) == InFlight(outgoing, ch, w)
    {
      InFlightParts(outgoing, commands, ch, w);
      NoneInFlight(commands, ch, w);
    }
    forall sn: u16
      ensures Named(outgoing + commands, ch, sn) == Named(outgoing, ch, sn)
    {
      NamedParts(outgoing, commands, ch, sn);
      NoneNamed(commands, ch, sn);
    }
  }

  lemma {:induction false} AllUnsent(cs: seq<Outgoing>, ch: nat)
    requires forall c :: c in cs ==> c.attempts == 0 && c.channel == ch
    ensures Unsent(cs, ch) == cs
    decreases |cs|
  {
    if cs != [] {
      AllUnsent(cs[..|cs| - 1], ch);
      assert cs[|cs| - 1] in cs;
    }
  }

  lemma {:induction false} NoneInFlight(cs: seq<Outgoing>, ch: nat, w: nat)
    requires forall c :: c in cs ==> c.attempts == 0
    ensures InFlight(cs, ch, w) == 0
    decreases |cs|
  {
    if cs != [] {
      NoneInFlight(cs[..|cs| - 1], ch, w);
      assert cs[|cs| - 1] in cs;
    }
  }

  lemma {:induction false} NoneNamed(cs: seq<Outgoing>, ch: nat, sn: u16)
    requires forall c :: c in cs ==> c.attempts == 0
    ensures Named(cs, ch, sn) == 0
    decreases |cs|
  {
    if cs != [] {
      NoneNamed(cs[..|cs| - 1], ch, sn);
      assert cs[|cs| - 1] in cs;
    }
  }

  // ---------- What the network may deliver ----------

  /** The state after command i of packet j was delivered. */
  ghost function AfterDelivery(x: System, j: nat, i: nat, maximum: nat, full: bool): (x': System)
    requires x.size > 0 && j < |x.packets| && i < Count(x.size, x.packets[j]) && BitsOk(x.rx.queue)
  {
    var r, n := Handle(x.rx, Sent(x.size, x.packets, j, i), maximum, full), First(x.size, x.packets, j) + i;
    x.(rx := r.channel,
       acks := if r.code == 0 && !Suppresses(Seq(n), r.channel.incoming) then x.acks + {n} else x.acks)
  }

  /** Command i of packet j bears the number sn, is outstanding, and its delivery is a step of the
      system whatever the limits of the receiver. */
  ghost predicate Deliverable(x: System, j: nat, i: nat, sn: u16)
    requires x.size > 0
  {
    && j < |x.packets| && i < Count(x.size, x.packets[j]) && BitsOk(x.rx.queue)
    && First(x.size, x.packets, j) + i in x.unacked && Seq(First(x.size, x.packets, j) + i) == sn
    && forall maximum: nat, full: bool ::
         Takes(x, Deliver(j, i, maximum, full), AfterDelivery(x, j, i, maximum, full))
  }

  ghost predicate MayArrive(x: System, sn: u16)
    requires x.size > 0
  {
    exists j: nat, i: nat :: Deliverable(x, j, i, sn)
  }

  lemma {:induction false} SentIsNamed(cs: seq<Outgoing>, c: Outgoing)
    requires c in cs && c.attempts > 0
    ensures Named(cs, c.channel, c.sn) > 0
    decreases |cs|
  {
    var front, last := cs[..|cs| - 1], cs[|cs| - 1];
    if last != c {
      assert c in front;
      SentIsNamed(front, c);
    }
  }

  lemma GoodBits(x: System)
    requires Good(x)
    ensures x.size > 0 && BitsOk(x.rx.queue)
  {
    hide ChannelInv, Ahead, AcksOk, UnackedOk, Ready, Total;
    var d, js :| Inv(x, d, js);
    BitsHold(x.rx, x.size, x.packets, d, js, x.s);
  }

  /** Every command the lists hold as sent, retried ones too, is one the network may deliver. */
  lemma InFlightMayArrive(sent: seq<Outgoing>, outgoing: seq<Outgoing>, ch: nat, x: System, c: Outgoing)
    requires Represents(sent, outgoing, ch, x)
    requires (c in sent || c in outgoing) && c.attempts > 0 && c.channel == ch
    ensures MayArrive(x, c.sn)
  {
    hide Good, Named, Unsent, Counts, NumberedFrom, Total, First, Count, Seq, Handle, Sent, Suppresses;
    if c in sent {
      SentIsNamed(sent, c);
    } else {
      SentIsNamed(outgoing, c);
    }
    assert IsSeq(x.unacked, c.sn);
    var n :| n in x.unacked && Seq(n) == c.sn;
    WithinLap(x, n);
    GoodBits(x);
    var j, i := Located(x.size, x.packets, n);
    assert Deliverable(x, j, i, c.sn);
  }

  /** Of packets of at most 4097 commands a delivery, of a repeat or not, leaves what the lists
      represent. */
  lemma DeliveryRepresents(sent: seq<Outgoing>, outgoing: seq<Outgoing>, ch: nat, x: System,
                           j: nat, i: nat, maximum: nat, full: bool, x': System)
    requires Represents(sent, outgoing, ch, x) && Small(x) && Takes(x, Deliver(j, i, maximum, full), x')
    ensures Represents(sent, outgoing, ch, x')
  {
    hide Good, Unsent, Counts, Bears, NumberedFrom, Total, Takes, Small, Travels, InReach, First, Count;
    var step := Deliver(j, i, maximum, full);
    DeliverTravels(x, step, x');
    SmallInReach(x, j, i);
    TakesKeeps(x, step, x');
    OnlyReceiver(x, step, x');
  }

  lemma OnlyReceiver(x: System, step: Step, x': System)
    requires x.size > 0 && step.Deliver? && Takes(x, step, x')
    ensures x'.size == x.size && x'.packets == x.packets && x'.s == x.s && x'.unacked == x.unacked
  {
    hide First, Handle, Sent, Suppresses, Travels;
  }

  // ---------- A pass over the queue ----------

  /** The system after n more commands were sent for the first time. */
  function Transmitted(x: System, n: nat): (x': System)
  {
    x.(s := x.s + n, unacked := x.unacked + Interval(x.s + 1, n))
  }

  /** Each of the first n is a step the guard allows. */
  ghost predicate Transmits(x: System, n: nat)
    requires x.size > 0
  {
    forall i: nat :: i < n ==> Takes(Transmitted(x, i), Transmit, Transmitted(x, i + 1))
  }

  /** First commands of a channel carry packets. */
  predicate CarriesData(cs: seq<Outgoing>, ch: nat)
  {
    forall c :: c in cs && c.attempts == 0 && c.channel == ch ==> c.hasPacket
  }

  /** After the first |took| commands of the queue were looked at. */
  ghost predicate PassedSoFar(was: seq<Outgoing>, took: seq<bool>, windows: seq<seq<nat>>, used: seq<set<nat>>,
                              ch: nat, x: System)
    requires |took| <= |was| && ChannelsOk(windows, used) && ch < |windows| && x.size > 0
  {
    var taken, left := Unsent(Taken(was, took), ch), Unsent(Left(was, took), ch);
    && Unsent(was[..|took|], ch) == taken + left
    && Transmits(x, |taken|) && Good(Transmitted(x, |taken|))
    && CountersAre(WindowsAfter(windows, was, took)[ch], UsedAfter(used, was, took)[ch],
       Transmitted(x, |taken|).unacked)
  }

  /** What a pass that sends commands does is as many Transmit steps as there were commands sent
      for the first time. What it sends, for the first time or again, the network may deliver. */
  lemma PassIsTransmits(sent: seq<Outgoing>, was: seq<Outgoing>, windows: seq<seq<nat>>, used: seq<set<nat>>,
                        took: seq<bool>, again: seq<Outgoing>, ch: nat, x: System)
    requires Represents(sent, was, ch, x) && |took| == |was| && CarriesData(was, ch)
    requires ChannelsOk(windows, used) && ch < |windows| && AllCounted(windows, used, sent, was)
    requires InOrder(was, took, |windows|) && GuardKept(was, took, windows, used)
    requires SentAgain(again, Taken(was, took))
    requires AllCounted(WindowsAfter(windows, was, took), UsedAfter(used, was, took), sent + again, Left(was, took))
    ensures var n := |Unsent(Taken(was, took), ch)|;
      && Transmits(x, n) && Represents(sent + again, Left(was, took), ch, Transmitted(x, n))
      && forall c :: c in again && c.channel == ch ==> MayArrive(Transmitted(x, n), c.sn)
  {
    hide InFlight, Named, InWindow, Seq, Unsent, Left, Taken, WindowsAfter, UsedAfter, Transmits, Good, Transmitted,
         CountersAre, AllCounted, InOrder, GuardKept, SentAgain, CarriesData, Bears, Counts, Total, MayArrive;
    assert took[..|took|] == took;
    PassSoFar(sent, was, windows, used, took, ch, x, |took|);
    assert was[..|was|] == was;
    var taken, left := Unsent(Taken(was, took), ch), Unsent(Left(was, took), ch);
    var x' := Transmitted(x, |taken|);
    CountersBegin(WindowsAfter(windows, was, took), UsedAfter(used, was, took), sent + again, Left(was, took), ch,
                  x'.unacked);
    NumbersSplit(taken, left, x.s + 1);
    BearsAfter(sent, was, took, again, ch, x, |taken|);
    TransmittedFields(x, |taken|);
    forall c | c in again && c.channel == ch
      ensures MayArrive(x', c.sn)
    {
      SentOnceMore(again, Taken(was, took), c);
      InFlightMayArrive(sent + again, Left(was, took), ch, x', c);
    }
  }

  lemma SentOnceMore(again: seq<Outgoing>, before: seq<Outgoing>, c: Outgoing)
    requires SentAgain(again, before) && c in again
    ensures c.attempts > 0
  {
    var i :| 0 <= i < |again| && again[i] == c;
    assert again[i].attempts == before[i].attempts + 1;
  }

  lemma TransmittedFields(x: System, n: nat)
    ensures var x' := Transmitted(x, n);
      x'.size == x.size && x'.packets == x.packets && x'.s == x.s + n
  {
  }

  lemma NumbersSplit(a: seq<Outgoing>, b: seq<Outgoing>, n: nat)
    requires NumberedFrom(a + b, n)
    ensures NumberedFrom(a, n) && NumberedFrom(b, n + |a|)
  {
    hide Seq;
    forall i | 0 <= i < |b|
      ensures b[i].sn == Seq(n + |a| + i)
    {
      assert (a + b)[|a| + i] == b[i];
    }
    forall i | 0 <= i < |a|
      ensures a[i].sn == Seq(n + i)
    {
      assert (a + b)[i] == a[i];
    }
  }

  lemma {:induction false} PassSoFar(sent: seq<Outgoing>, was: seq<Outgoing>, windows: seq<seq<nat>>,
                                     used: seq<set<nat>>,
                                     took: seq<bool>, ch: nat, x: System, k: nat)
    requires Represents(sent, was, ch, x) && k <= |took| == |was| && CarriesData(was, ch)
    requires ChannelsOk(windows, used) && ch < |windows| && AllCounted(windows, used, sent, was)
    requires InOrder(was, took, |windows|) && GuardKept(was, took, windows, used)
    ensures PassedSoFar(was, took[..k], windows, used, ch, x)
    decreases k
  {
    hide InFlight, Named, Seq, Unsent, Left, Taken, WindowsAfter, UsedAfter, Good, CountersAre, Total, PassedSoFar,
      Blocks,
         AllCounted, ChannelsOk, InOrder, GuardKept, CarriesData, Bears, Counts, NumberedFrom;
    if k == 0 {
      assert took[..0] == [];
      PassStarts(sent, was, windows, used, ch, x);
    } else {
      PassSoFar(sent, was, windows, used, took, ch, x, k - 1);
      assert took[..k] == took[..k - 1] + [took[k - 1]];
      var c := was[k - 1];
      if took[k - 1] && c.attempts == 0 && c.channel == ch {
        NoneLeftBefore(was, took, |windows|, ch, k - 1);
        GuardAt(was, took, windows, used, k - 1);
        PassSends(was, took[..k - 1], windows, used, ch, x);
      } else {
        PassSkips(was, took[..k - 1], took[k - 1], windows, used, ch, x);
      }
    }
  }

  lemma PassStarts(sent: seq<Outgoing>, was: seq<Outgoing>, windows: seq<seq<nat>>, used: seq<set<nat>>,
                   ch: nat, x: System)
    requires x.size > 0 && Good(x) && Counts(sent, was, ch, x.unacked)
    requires ChannelsOk(windows, used) && ch < |windows| && AllCounted(windows, used, sent, was)
    ensures PassedSoFar(was, [], windows, used, ch, x)
  {
    hide Good, Counts, CountersAre, AllCounted, ChannelsOk;
    CountersBegin(windows, used, sent, was, ch, x.unacked);
    assert x.unacked + Interval(x.s + 1, 0) == x.unacked;
    assert Transmitted(x, 0) == x;
    assert was[..0] == [];
  }

  lemma {:induction false} NoneLeft(cs: seq<Outgoing>, took: seq<bool>, ch: nat)
    requires |took| <= |cs|
    requires forall h :: 0 <= h < |took| && cs[h].attempts == 0 && cs[h].channel == ch ==> took[h]
    ensures Unsent(Left(cs, took), ch) == []
    decreases |took|
  {
    if took != [] {
      var k := |took| - 1;
      NoneLeft(cs, took[..k], ch);
      if !took[k] {
        UnsentParts(Left(cs, took[..k]), [cs[k]], ch);
        OneUnsent(cs[k], ch);
      } else {
        assert Left(cs, took[..k]) + [] == Left(cs, took[..k]);
      }
    }
  }

  /** A command sent for the first time leaves none of its channel behind. */
  lemma NoneLeftBefore(was: seq<Outgoing>, took: seq<bool>, channels: nat, ch: nat, k: nat)
    requires k < |took| <= |was| && InOrder(was, took, channels) && CarriesData(was, ch) && ch < channels
    requires took[k] && was[k].attempts == 0 && was[k].channel == ch
    ensures Unsent(Left(was, took[..k]), ch) == []
  {
    hide Unsent, Left;
    assert was[k] in was;
    forall h | 0 <= h < k && was[h].attempts == 0 && was[h].channel == ch
      ensures took[..k][h]
    {
      assert was[h] in was;
      assert IsData(was[h], channels) && IsData(was[k], channels);
    }
    NoneLeft(was, took[..k], ch);
  }

  lemma GuardAt(was: seq<Outgoing>, took: seq<bool>, windows: seq<seq<nat>>, used: seq<set<nat>>, k: nat)
    requires k < |took| <= |was| && ChannelsOk(windows, used) && GuardKept(was, took, windows, used)
    requires took[k] && was[k].attempts == 0 && was[k].channel < |windows|
    ensures var c := was[k];
      !Blocks(WindowsAfter(windows, was, took[..k])[c.channel], UsedAfter(used, was, took[..k])[c.channel], c.sn)
  {
    hide Blocks, WindowsAfter, UsedAfter;
    assert GuardPassedAt(was, took, windows, used, k);
  }

  /** One command more: which list it goes to. */
  lemma ListsNext(was: seq<Outgoing>, took: seq<bool>, b: bool, ch: nat)
    requires |took| < |was|
    ensures var c := was[|took|];
      var one := if c.attempts == 0 && c.channel == ch then [c] else [];
      && Unsent(was[..|took| + 1], ch) == Unsent(was[..|took|], ch) + one
      && Unsent(Taken(was, took + [b]), ch) == Unsent(Taken(was, took), ch) + (if b then one else [])
      && Unsent(Left(was, took + [b]), ch) == Unsent(Left(was, took), ch) + (if b then [] else one)
  {
    hide Unsent, Left, Taken;
    var k := |took|;
    LeftNext(was, took, b);
    assert was[..k + 1] == was[..k] + [was[k]];
    UnsentParts(was[..k], [was[k]], ch);
    UnsentParts(Taken(was, took), [was[k]], ch);
    UnsentParts(Left(was, took), [was[k]], ch);
    OneUnsent(was[k], ch);
    assert Taken(was, took) + [] == Taken(was, took) && Left(was, took) + [] == Left(was, took);
  }

  lemma PassSkips(was: seq<Outgoing>, took: seq<bool>, b: bool, windows: seq<seq<nat>>, used: seq<set<nat>>,
                  ch: nat, x: System)
    requires |took| < |was| && ChannelsOk(windows, used) && ch < |windows| && x.size > 0
    requires PassedSoFar(was, took, windows, used, ch, x)
    requires !(b && was[|took|].attempts == 0 && was[|took|].channel == ch)
    ensures PassedSoFar(was, took + [b], windows, used, ch, x)
  {
    hide Unsent, Left, Taken, WindowsAfter, UsedAfter, Transmits, Good, Transmitted, CountersAre;
    ListsNext(was, took, b, ch);
    AfterNext(windows, used, was, took, b);
    assert (took + [b])[..|took|] == took && |took + [b]| == |took| + 1;
  }

  /** The next number of the channel, at the head of what is left. */
  lemma NumberAt(was: seq<Outgoing>, k: nat, ch: nat, n: nat)
    requires k < |was| && was[k].attempts == 0 && was[k].channel == ch && NumberedFrom(Unsent(was, ch), n)
    ensures was[k].sn == Seq(n + |Unsent(was[..k], ch)|) && |Unsent(was[..k], ch)| < |Unsent(was, ch)|
  {
    hide Unsent, Seq;
    var front := Unsent(was[..k], ch);
    assert was == was[..k] + ([was[k]] + was[k + 1..]);
    UnsentParts(was[..k], [was[k]] + was[k + 1..], ch);
    UnsentParts([was[k]], was[k + 1..], ch);
    OneUnsent(was[k], ch);
    assert Unsent(was, ch)[|front|] == was[k];
  }

  lemma PassSends(was: seq<Outgoing>, took: seq<bool>, windows: seq<seq<nat>>, used: seq<set<nat>>, ch: nat, x: System)
    requires |took| < |was| && ChannelsOk(windows, used) && ch < |windows| && x.size > 0
    requires PassedSoFar(was, took, windows, used, ch, x)
    requires was[|took|].attempts == 0 && was[|took|].channel == ch && Unsent(Left(was, took), ch) == []
    requires !Blocks(WindowsAfter(windows, was, took)[ch], UsedAfter(used, was, took)[ch], was[|took|].sn)
    requires NumberedFrom(Unsent(was, ch), x.s + 1) && x.s + |Unsent(was, ch)| == Total(x.size, x.packets)
    ensures PassedSoFar(was, took + [true], windows, used, ch, x)
  {
    hide Unsent, Left, Taken, WindowsAfter, UsedAfter, Good, CountersAre, Blocks, Total, Seq, NumberedFrom, Transmitted,
         Transmits, CountUp, BitsUp;
    var n := |Unsent(Taken(was, took), ch)|;
    ListsSent(was, took, ch);
    NextNumber(was, took, ch, x.s + 1, n);
    SendsNext(WindowsAfter(windows, was, took), UsedAfter(used, was, took), ch, x, n, was[|took|].sn);
    AfterNext(windows, used, was, took, true);
  }

  /** One command sent for the first time: the step, and the counters after it. */
  lemma SendsNext(w: seq<seq<nat>>, u: seq<set<nat>>, ch: nat, x: System, n: nat, sn: u16)
    requires x.size > 0 && ch < |w| == |u| && Sized(w) && sn == Seq(x.s + 1 + n) && x.s + n < Total(x.size, x.packets)
    requires Transmits(x, n) && Good(Transmitted(x, n)) && CountersAre(w[ch], u[ch], Transmitted(x, n).unacked)
    requires !Blocks(w[ch], u[ch], sn)
    ensures Transmits(x, n + 1) && Good(Transmitted(x, n + 1))
    ensures CountersAre(CountUp(w, ch, sn)[ch], BitsUp(u, ch, sn)[ch], Transmitted(x, n + 1).unacked)
  {
    hide Good, CountersAre, Blocks, Counters, UsedWindows, Total, Seq, Transmitted, Takes, Transmits, CountUp, BitsUp;
    GuardAgrees(w[ch], u[ch], Transmitted(x, n).unacked, sn);
    TransmitsNext(x, n, sn);
    TransmitsMore(x, n);
    CountersUpNext(w, u, ch, x, n, sn);
  }

  lemma NextNumber(was: seq<Outgoing>, took: seq<bool>, ch: nat, first: nat, n: nat)
    requires |took| < |was| && was[|took|].attempts == 0 && was[|took|].channel == ch
    requires |Unsent(was[..|took|], ch)| == n && NumberedFrom(Unsent(was, ch), first)
    ensures was[|took|].sn == Seq(first + n) && n < |Unsent(was, ch)|
  {
    hide Unsent, Seq, NumberedFrom;
    NumberAt(was, |took|, ch, first);
  }

  lemma ListsSent(was: seq<Outgoing>, took: seq<bool>, ch: nat)
    requires |took| < |was| && was[|took|].attempts == 0 && was[|took|].channel == ch
    requires Unsent(was[..|took|], ch) == Unsent(Taken(was, took), ch) + Unsent(Left(was, took), ch)
    requires Unsent(Left(was, took), ch) == []
    ensures var more := took + [true];
      && |more| == |took| + 1 && |Unsent(Taken(was, more), ch)| == |Unsent(Taken(was, took), ch)| + 1
      && Unsent(was[..|more|], ch) == Unsent(Taken(was, more), ch) + Unsent(Left(was, more), ch)
    ensures |Unsent(was[..|took|], ch)| == |Unsent(Taken(was, took), ch)|
  {
    hide Unsent, Left, Taken;
    ListsNext(was, took, true, ch);
  }

  lemma TransmitsMore(x: System, n: nat)
    requires x.size > 0 && Transmits(x, n) && Takes(Transmitted(x, n), Transmit, Transmitted(x, n + 1))
    ensures Transmits(x, n + 1)
  {
    hide Takes, Transmitted;
  }

  lemma TransmitsNext(x: System, n: nat, sn: u16)
    requires x.size > 0 && Good(Transmitted(x, n)) && sn == Seq(x.s + 1 + n) && x.s + n < Total(x.size, x.packets)
    requires var c := Counters(Transmitted(x, n).unacked, WINDOWS); !Blocks(c, UsedWindows(c), sn)
    ensures Takes(Transmitted(x, n), Transmit, Transmitted(x, n + 1)) && Good(Transmitted(x, n + 1))
  {
    hide Good, Blocks, Counters, UsedWindows, Total, Seq;
    TransmittedNext(x, n);
    TakesKeeps(Transmitted(x, n), Transmit, Transmitted(x, n + 1));
  }

  lemma TransmittedNext(x: System, n: nat)
    ensures Transmitted(x, n + 1).unacked == Transmitted(x, n).unacked + {x.s + 1 + n}
    ensures Transmitted(x, n + 1).s == Transmitted(x, n).s + 1 == x.s + n + 1
  {
    assert Interval(x.s + 1, n + 1) == Interval(x.s + 1, n) + {x.s + 1 + n};
  }

  lemma CountersUpNext(w: seq<seq<nat>>, u: seq<set<nat>>, ch: nat, x: System, n: nat, sn: u16)
    requires ch < |w| == |u| && Good(Transmitted(x, n)) && sn == Seq(x.s + 1 + n)
    requires CountersAre(w[ch], u[ch], Transmitted(x, n).unacked)
    ensures CountersAre(CountUp(w, ch, sn)[ch], BitsUp(u, ch, sn)[ch], Transmitted(x, n + 1).unacked)
  {
    hide Good, InWindow, UsedOk, Seq;
    TransmittedNext(x, n);
    var next := x.s + 1 + n;
    if next in Transmitted(x, n).unacked {
      WithinLap(Transmitted(x, n), next);
      TransmittedFields(x, n);
      assert false;
    }
    CountersUp(w[ch], u[ch], Transmitted(x, n).unacked, next);
  }

  // ---------- The numbers borne after a pass ----------

  function Bearing(cs: seq<Outgoing>, sn: u16): (n: nat)
  {
    if cs == [] then 0 else Bearing(cs[..|cs| - 1], sn) + if cs[|cs| - 1].sn == sn then 1 else 0
  }

  lemma {:induction false} NamedAgain(again: seq<Outgoing>, before: seq<Outgoing>, ch: nat, sn: u16)
    requires SentAgain(again, before)
    ensures Named(again, ch, sn) == Named(before, ch, sn) + Bearing(Unsent(before, ch), sn)
    decreases |again|
  {
    if again != [] {
      var k := |again| - 1;
      NamedAgain(again[..k], before[..k], ch, sn);
      var one := if before[k].attempts == 0 && before[k].channel == ch then [before[k]] else [];
      assert Unsent(before, ch) == Unsent(before[..k], ch) + one;
      if one != [] {
        assert Unsent(before, ch)[..|Unsent(before, ch)| - 1] == Unsent(before[..k], ch);
      } else {
        assert Unsent(before, ch) == Unsent(before[..k], ch);
      }
    }
  }

  lemma {:induction false} NamedTakenLeft(cs: seq<Outgoing>, took: seq<bool>, ch: nat, sn: u16)
    requires |took| <= |cs|
    ensures Named(Taken(cs, took), ch, sn) + Named(Left(cs, took), ch, sn) == Named(cs[..|took|], ch, sn)
    decreases |took|
  {
    hide NamedOne, Named;
    if took == [] {
      NamedNone(ch, sn);
    } else {
      var k := |took| - 1;
      NamedTakenLeft(cs, took[..k], ch, sn);
      assert cs[..k + 1] == cs[..k] + [cs[k]];
      NamedParts(cs[..k], [cs[k]], ch, sn);
      NamedParts(Taken(cs, took[..k]), [cs[k]], ch, sn);
      NamedParts(Left(cs, took[..k]), [cs[k]], ch, sn);
      assert Taken(cs, took[..k]) + [] == Taken(cs, took[..k]) && Left(cs, took[..k]) + [] == Left(cs, took[..k]);
    }
  }

  lemma NamedNone(ch: nat, sn: u16)
    ensures Named([], ch, sn) == 0
  {
  }

  lemma {:induction false} BearingIs(cs: seq<Outgoing>, n: nat, sn: u16)
    requires NumberedFrom(cs, n) && |cs| <= SEQUENCE
    ensures Bearing(cs, sn) == if IsSeq(Interval(n, |cs|), sn) then 1 else 0
    decreases |cs|
  {
    hide Seq;
    if cs != [] {
      var k := |cs| - 1;
      BearingIs(cs[..k], n, sn);
      assert Interval(n, k + 1) == Interval(n, k) + {n + k};
      if Seq(n + k) == sn {
        assert n + k in Interval(n, |cs|);
        if m :| m in Interval(n, k) && Seq(m) == sn {
          Injective(m, n + k);
        }
      }
      if m :| m in Interval(n, k) && Seq(m) == sn {
        assert m in Interval(n, |cs|);
      }
    }
  }

  lemma BearsAfter(sent: seq<Outgoing>, was: seq<Outgoing>, took: seq<bool>, again: seq<Outgoing>, ch: nat, x: System,
                   n: nat)
    requires |took| == |was| && SentAgain(again, Taken(was, took)) && n == |Unsent(Taken(was, took), ch)|
    requires Good(x) && Good(Transmitted(x, n)) && Bears(sent, was, ch, x.unacked)
    requires NumberedFrom(Unsent(Taken(was, took), ch), x.s + 1)
    ensures Bears(sent + again, Left(was, took), ch, Transmitted(x, n).unacked)
  {
    hide Named, Unsent, Left, Taken, SentAgain, Good, Bearing, Seq, NumberedFrom, IsSeq;
    assert was[..|was|] == was;
    LessThanALap(x, n);
    forall sn: u16
      ensures Named(sent + again, ch, sn) + Named(Left(was, took), ch, sn)
           == if IsSeq(Transmitted(x, n).unacked, sn) then 1 else 0
    {
      NamedParts(sent, again, ch, sn);
      NamedAgain(again, Taken(was, took), ch, sn);
      NamedTakenLeft(was, took, ch, sn);
      BearingIs(Unsent(Taken(was, took), ch), x.s + 1, sn);
      SeqOfUnion(x, n, sn);
    }
  }

  lemma LessThanALap(x: System, n: nat)
    requires Good(Transmitted(x, n))
    ensures n <= SEQUENCE
  {
    hide Good;
    if n > 0 {
      assert x.s + 1 in Transmitted(x, n).unacked;
      WithinLap(Transmitted(x, n), x.s + 1);
    }
  }

  lemma SeqOfUnion(x: System, n: nat, sn: u16)
    requires Good(x) && Good(Transmitted(x, n))
    ensures IsSeq(Transmitted(x, n).unacked, sn) <==> IsSeq(x.unacked, sn) || IsSeq(Interval(x.s + 1, n), sn)
    ensures !(IsSeq(x.unacked, sn) && IsSeq(Interval(x.s + 1, n), sn))
  {
    hide Good, Seq;
    if IsSeq(x.unacked, sn) && IsSeq(Interval(x.s + 1, n), sn) {
      var a :| a in x.unacked && Seq(a) == sn;
      var b :| b in Interval(x.s + 1, n) && Seq(b) == sn;
      UnackedApart(Transmitted(x, n), a, b);
      WithinLap(x, a);
      assert false;
    }
    if IsSeq(x.unacked, sn) {
      var a :| a in x.unacked && Seq(a) == sn;
      assert a in Transmitted(x, n).unacked;
    }
    if IsSeq(Interval(x.s + 1, n), sn) {
      var b :| b in Interval(x.s + 1, n) && Seq(b) == sn;
      assert b in Transmitted(x, n).unacked;
    }
  }

  // ---------- Timeouts ----------

  /** A command whose timer ran out goes back to the queue: the system does not notice, at whichever
      command the check ends. */
  lemma TimeoutsAreSilent(sent: seq<Outgoing>, outgoing: seq<Outgoing>, n: nat, now: u32, ch: nat, x: System)
    requires Represents(sent, outgoing, ch, x) && AllSent(sent) && n <= |sent|
    ensures Represents(EnetPeer.Waiting(sent[..n], now) + sent[n..], Expired(sent[..n], now) + outgoing, ch, x)
  {
    hide InFlight, Named, Unsent, InWindow, Good, Seq, NumberedFrom, IsSeq, EnetPeer.Waiting, Expired, Total;
    var front, rest := sent[..n], sent[n..];
    var waiting, expired := EnetPeer.Waiting(front, now), Expired(front, now);
    assert sent == front + rest;
    UnsentParts(expired, outgoing, ch);
    NoneUnsent(front, now, ch);
    var none: seq<Outgoing> := [];
    assert none + Unsent(outgoing, ch) == Unsent(outgoing, ch);
    forall w: nat | w < WINDOWS
      ensures InFlight(waiting + rest, ch, w) + InFlight(expired + outgoing, ch, w)
           == InFlight(sent, ch, w) + InFlight(outgoing, ch, w)
    {
      InFlightParts(waiting, rest, ch, w);
      InFlightParts(front, rest, ch, w);
      InFlightParts(expired, outgoing, ch, w);
      WaitingOrExpired(front, now, ch, w, 0);
    }
    forall sn: u16
      ensures Named(waiting + rest, ch, sn) + Named(expired + outgoing, ch, sn)
           == Named(sent, ch, sn) + Named(outgoing, ch, sn)
    {
      NamedParts(waiting, rest, ch, sn);
      NamedParts(front, rest, ch, sn);
      NamedParts(expired, outgoing, ch, sn);
      WaitingOrExpired(front, now, ch, 0, sn);
    }
  }

  lemma {:induction false} NoneUnsent(sent: seq<Outgoing>, now: u32, ch: nat)
    requires AllSent(sent)
    ensures Unsent(Expired(sent, now), ch) == []
    decreases |sent|
  {
    hide TimedOut;
    if sent != [] {
      var front, c := sent[..|sent| - 1], sent[|sent| - 1];
      assert c in sent;
      NoneUnsent(front, now, ch);
      if TimedOut(c, now) {
        UnsentParts(Expired(front, now), [c.(timeout := c.timeout * 2)], ch);
        OneUnsent(c.(timeout := c.timeout * 2), ch);
      } else {
        assert Expired(front, now) + [] == Expired(front, now);
      }
    }
  }

  lemma {:induction false} WaitingOrExpired(sent: seq<Outgoing>, now: u32, ch: nat, w: nat, sn: u16)
    ensures InFlight(EnetPeer.Waiting(sent, now), ch, w) + InFlight(Expired(sent, now), ch, w) == InFlight(sent, ch, w)
    ensures Named(EnetPeer.Waiting(sent, now), ch, sn) + Named(Expired(sent, now), ch, sn) == Named(sent, ch, sn)
    decreases |sent|
  {
    hide TimedOut;
    if sent != [] {
      var front, c := sent[..|sent| - 1], sent[|sent| - 1];
      var later := c.(timeout := c.timeout * 2);
      WaitingOrExpired(front, now, ch, w, sn);
      PutLast(EnetPeer.Waiting(front, now), c, ch, w);
      PutLast(Expired(front, now), later, ch, w);
      NamedParts(EnetPeer.Waiting(front, now), [c], ch, sn);
      NamedParts(Expired(front, now), [later], ch, sn);
      OneNamed(c, ch, sn);
      OneNamed(later, ch, sn);
      assert EnetPeer.Waiting(front, now) + [] == EnetPeer.Waiting(front, now)
        && Expired(front, now) + [] == Expired(front, now);
    }
  }

  // ---------- Acknowledgements ----------

  /** What RemoveSent promises of the command an acknowledgement names. */
  ghost predicate Removed(sent: seq<Outgoing>, outgoing: seq<Outgoing>, sent': seq<Outgoing>, outgoing': seq<Outgoing>,
                          c: Outgoing)
  {
    && c.attempts > 0
    && (|| (Without(sent, sent', c) && outgoing' == outgoing)
        || (Without(outgoing, outgoing', c) && sent' == sent))
  }

  lemma NamedMiddle(cs: seq<Outgoing>, k: nat, ch: nat, sn: u16)
    requires k < |cs|
    ensures Named(cs, ch, sn) == Named(cs[..k] + cs[k + 1..], ch, sn) + NamedOne(cs[k], ch, sn)
  {
    hide Named, NamedOne;
    var c := cs[k];
    assert cs == cs[..k] + ([c] + cs[k + 1..]);
    NamedParts(cs[..k], [c] + cs[k + 1..], ch, sn);
    NamedParts([c], cs[k + 1..], ch, sn);
    NamedParts(cs[..k], cs[k + 1..], ch, sn);
    OneNamed(c, ch, sn);
  }

  lemma UnsentMiddle(cs: seq<Outgoing>, k: nat, ch: nat)
    requires k < |cs| && cs[k].attempts > 0
    ensures Unsent(cs, ch) == Unsent(cs[..k] + cs[k + 1..], ch)
  {
    hide Unsent;
    var c := cs[k];
    assert cs == cs[..k] + ([c] + cs[k + 1..]);
    UnsentParts(cs[..k], [c] + cs[k + 1..], ch);
    UnsentParts([c], cs[k + 1..], ch);
    UnsentParts(cs[..k], cs[k + 1..], ch);
    OneUnsent(c, ch);
  }

  lemma WithoutOne(before: seq<Outgoing>, after: seq<Outgoing>, c: Outgoing, ch: nat, w: nat, sn: u16)
    requires Without(before, after, c) && c.attempts > 0
    ensures InFlight(before, ch, w) == InFlight(after, ch, w) + One(c, ch, w)
    ensures Named(before, ch, sn) == Named(after, ch, sn) + NamedOne(c, ch, sn)
    ensures Unsent(before, ch) == Unsent(after, ch)
  {
    hide InFlight, Named, NamedOne, One, Unsent;
    var k :| 0 <= k < |before| && before[k] == c && after == before[..k] + before[k + 1..];
    TakenOut(before, k, ch, w);
    NamedMiddle(before, k, ch, sn);
    UnsentMiddle(before, k, ch);
  }

  lemma RemovedOne(sent: seq<Outgoing>, outgoing: seq<Outgoing>, sent': seq<Outgoing>, outgoing': seq<Outgoing>,
                   c: Outgoing, ch: nat)
    requires Removed(sent, outgoing, sent', outgoing', c)
    ensures Unsent(outgoing', ch) == Unsent(outgoing, ch)
    ensures forall w: nat ::
      InFlight(sent, ch, w) + InFlight(outgoing, ch, w) == InFlight(sent', ch, w) + InFlight(outgoing', ch, w)
        + One(c, ch, w)
    ensures forall sn: u16 ::
      Named(sent, ch, sn) + Named(outgoing, ch, sn) == Named(sent', ch, sn) + Named(outgoing', ch, sn)
        + NamedOne(c, ch, sn)
  {
    hide InFlight, Named, NamedOne, One, Unsent, Removed;
    RemovedOneAt(sent, outgoing, sent', outgoing', c, ch, 0, 0);
    forall w: nat
      ensures InFlight(sent, ch, w) + InFlight(outgoing, ch, w)
           == InFlight(sent', ch, w) + InFlight(outgoing', ch, w) + One(c, ch, w)
    {
      RemovedOneAt(sent, outgoing, sent', outgoing', c, ch, w, 0);
    }
    forall sn: u16
      ensures Named(sent, ch, sn) + Named(outgoing, ch, sn)
           == Named(sent', ch, sn) + Named(outgoing', ch, sn) + NamedOne(c, ch, sn)
    {
      RemovedOneAt(sent, outgoing, sent', outgoing', c, ch, 0, sn);
    }
  }

  lemma RemovedOneAt(sent: seq<Outgoing>, outgoing: seq<Outgoing>, sent': seq<Outgoing>, outgoing': seq<Outgoing>,
                     c: Outgoing, ch: nat, w: nat, sn: u16)
    requires Removed(sent, outgoing, sent', outgoing', c)
    ensures Unsent(outgoing', ch) == Unsent(outgoing, ch)
    ensures InFlight(sent, ch, w) + InFlight(outgoing, ch, w)
         == InFlight(sent', ch, w) + InFlight(outgoing', ch, w) + One(c, ch, w)
    ensures Named(sent, ch, sn) + Named(outgoing, ch, sn)
         == Named(sent', ch, sn) + Named(outgoing', ch, sn) + NamedOne(c, ch, sn)
  {
    hide InFlight, Named, NamedOne, One, Unsent, Without;
    if Without(sent, sent', c) && outgoing' == outgoing {
      WithoutOne(sent, sent', c, ch, w, sn);
    } else {
      WithoutOne(outgoing, outgoing', c, ch, w, sn);
    }
  }

  /** Taking an acknowledgement of number n, known by 16 bits, removes the command of number n if
      it is in flight, and is the Acknowledge step. */
  lemma RemovalIsAcknowledge(sent: seq<Outgoing>, outgoing: seq<Outgoing>, ch: u8, x: System, n: nat,
                             found: bool, c: Outgoing, sent': seq<Outgoing>, outgoing': seq<Outgoing>)
    returns (x': System)
    requires Represents(sent, outgoing, ch, x) && n in x.acks && x.s < n + SEQUENCE
    requires found <==> exists y :: y in sent + outgoing && y.attempts > 0 && Names(y, Seq(n), ch)
    requires !found ==> sent' == sent && outgoing' == outgoing
    requires found ==> Names(c, Seq(n), ch) && Removed(sent, outgoing, sent', outgoing', c)
    ensures found <==> n in x.unacked
    ensures Takes(x, Acknowledge(n), x') && x' == x.(unacked := x.unacked - {n})
    ensures Represents(sent', outgoing', ch, x')
  {
    hide InFlight, Named, NamedOne, One, Unsent, Removed, InWindow, Inv, Seq, NumberedFrom, Names, Total, IsSeq;
    x' := x.(unacked := set m | m in x.unacked && Seq(m) != Seq(n));
    TakesKeeps(x, Acknowledge(n), x');
    AcknowledgedOnly(x, n);
    FoundIff(sent, outgoing, ch, x, n);
    if found {
      NamesAre(c, Seq(n), ch);
      AttemptsOf(sent, outgoing, sent', outgoing', c);
      RemovedOne(sent, outgoing, sent', outgoing', c, ch);
      CountsLess(sent, outgoing, sent', outgoing', c, ch, x.unacked, n);
      BearsLess(sent, outgoing, sent', outgoing', c, ch, x, n);
    } else {
      assert x.unacked - {n} == x.unacked;
    }
  }

  lemma AttemptsOf(sent: seq<Outgoing>, outgoing: seq<Outgoing>, sent': seq<Outgoing>, outgoing': seq<Outgoing>,
                   c: Outgoing)
    requires Removed(sent, outgoing, sent', outgoing', c)
    ensures c.attempts > 0
  {
  }

  lemma AcknowledgedOnly(x: System, n: nat)
    requires Good(x) && n in x.acks && x.s < n + SEQUENCE
    ensures (set m | m in x.unacked && Seq(m) != Seq(n)) == x.unacked - {n}
    ensures IsSeq(x.unacked, Seq(n)) <==> n in x.unacked
  {
    hide ChannelInv, Ahead, Ready, Total, Arrived, Window, Seq;
    var d, js :| Inv(x, d, js);
    Within(x, d, js, n);
    AcknowledgesOne(x, n);
    if IsSeq(x.unacked, Seq(n)) {
      var m :| m in x.unacked && Seq(m) == Seq(n);
      assert m !in x.unacked - {n};
      assert m == n;
    }
    if n in x.unacked {
      assert IsSeq(x.unacked, Seq(n));
    }
  }

  lemma Within(x: System, d: nat, js: seq<nat>, n: nat)
    requires Inv(x, d, js) && n in x.acks
    ensures UnackedOk(x) && n <= x.s
  {
    hide Expected, Total, Arrived, Window, Seq;
  }

  lemma FoundIff(sent: seq<Outgoing>, outgoing: seq<Outgoing>, ch: u8, x: System, n: nat)
    requires Bears(sent, outgoing, ch, x.unacked)
    ensures IsSeq(x.unacked, Seq(n)) <==> exists y :: y in sent + outgoing && y.attempts > 0 && Names(y, Seq(n), ch)
  {
    hide Named, Names, Seq, IsSeq;
    NamedParts(sent, outgoing, ch, Seq(n));
    NamedIff(sent + outgoing, ch, Seq(n));
  }

  lemma CountsLess(sent: seq<Outgoing>, outgoing: seq<Outgoing>, sent': seq<Outgoing>, outgoing': seq<Outgoing>,
                   c: Outgoing, ch: nat, unacked: set<nat>, n: nat)
    requires Counts(sent, outgoing, ch, unacked) && n in unacked
    requires c.attempts > 0 && c.channel == ch && c.sn == Seq(n)
    requires forall w: nat ::
      InFlight(sent, ch, w) + InFlight(outgoing, ch, w) == InFlight(sent', ch, w) + InFlight(outgoing', ch, w)
        + One(c, ch, w)
    ensures Counts(sent', outgoing', ch, unacked - {n})
  {
    hide InFlight, InWindow, Seq, Window;
    SlotOf(n);
    assert unacked - {n} + {n} == unacked;
    forall w: nat | w < WINDOWS
      ensures InFlight(sent', ch, w) + InFlight(outgoing', ch, w) == |InWindow(unacked - {n}, w)|
    {
      OneMore(unacked - {n}, n, w);
    }
  }

  lemma BearsLess(sent: seq<Outgoing>, outgoing: seq<Outgoing>, sent': seq<Outgoing>, outgoing': seq<Outgoing>,
                  c: Outgoing, ch: nat, x: System, n: nat)
    requires Good(x) && Bears(sent, outgoing, ch, x.unacked) && n in x.unacked
    requires c.attempts > 0 && c.channel == ch && c.sn == Seq(n)
    requires forall sn: u16 ::
      Named(sent, ch, sn) + Named(outgoing, ch, sn) == Named(sent', ch, sn) + Named(outgoing', ch, sn)
        + NamedOne(c, ch, sn)
    ensures Bears(sent', outgoing', ch, x.unacked - {n})
  {
    hide Named, Good, Seq;
    forall sn: u16
      ensures Named(sent', ch, sn) + Named(outgoing', ch, sn) == if IsSeq(x.unacked - {n}, sn) then 1 else 0
    {
      SeqOfRest(x, n, sn);
    }
  }

  lemma SeqOfRest(x: System, n: nat, sn: u16)
    requires Good(x) && n in x.unacked
    ensures IsSeq(x.unacked - {n}, sn) <==> IsSeq(x.unacked, sn) && sn != Seq(n)
    ensures IsSeq(x.unacked, Seq(n))
  {
    hide Good, Seq;
    if IsSeq(x.unacked - {n}, sn) {
      var m :| m in x.unacked - {n} && Seq(m) == sn;
      assert m in x.unacked;
      if sn == Seq(n) {
        UnackedApart(x, m, n);
        assert false;
      }
    }
    if IsSeq(x.unacked, sn) && sn != Seq(n) {
      var m :| m in x.unacked && Seq(m) == sn;
      assert m in x.unacked - {n};
    }
  }

  /** What is removed from another channel does not matter to this one. */
  lemma OtherChannelStays(sent: seq<Outgoing>, outgoing: seq<Outgoing>, ch: nat, x: System, c: Outgoing,
                          sent': seq<Outgoing>, outgoing': seq<Outgoing>)
    requires Represents(sent, outgoing, ch, x) && Removed(sent, outgoing, sent', outgoing', c) && c.channel != ch
    ensures Represents(sent', outgoing', ch, x)
  {
    hide InFlight, Named, Unsent, Removed, InWindow, Good, NumberedFrom, Total, IsSeq;
    RemovedOne(sent, outgoing, sent', outgoing', c, ch);
  }

  /** A new peer stands for a new system. */
  lemma NewPeerRepresents(ch: nat, x: System)
    requires Start(x)
    ensures Represents([], [], ch, x)
  {
    StartInv(x);
    assert forall w: nat :: w < WINDOWS ==> InWindow({}, w) == {};
  }

  // ---------- The peer itself ----------

  /** Queueing the commands of a packet, as enet_peer_send does, is a Send step. */
  method QueuePacket(p: Peer, commands: seq<Outgoing>, ghost ch: nat, ghost x: System, ghost packet: seq<u8>)
    returns (ghost x': System)
    requires p.Valid() && Represents(p.sent, p.outgoing, ch, x)
    requires |commands| == Count(x.size, packet) <= MAXIMUM_FRAGMENT_COUNT
    requires forall c :: c in commands ==> c.attempts == 0 && c.channel == ch
    requires NumberedFrom(commands, Total(x.size, x.packets) + 1)
    modifies p`outgoing
    ensures p.Valid() && p.outgoing == old(p.outgoing) + commands
    ensures x.size > 0 && Takes(x, Send(packet), x') && x'.packets == x.packets + [packet]
    ensures Represents(p.sent, p.outgoing, ch, x')
  {
    hide AllCounted, Bytes, AllSent, RetriedFirst, Good, Counts, Bears, NumberedFrom, Unsent, Total, Takes, Count;
    ghost var outgoing := p.outgoing;
    for k := 0 to |commands|
      invariant p.Valid() && p.outgoing == outgoing + commands[..k]
    {
      assert commands[k] in commands;
      p.Queue(commands[k]);
      assert commands[..k + 1] == commands[..k] + [commands[k]];
    }
    assert commands[..|commands|] == commands;
    x' := QueuedIsSend(p.sent, outgoing, ch, x, packet, commands);
  }

  /** A pass of the peer is a run of Transmit steps of every channel's system; one that nothing hinders
      transmits everything that was waiting. */
  method SendPass(p: Peer, now: u32, limit: nat, mtu: nat, packetSize: nat, commands: nat, buffers: nat, rtt: nat,
                  ghost ch: nat, ghost x: System) returns (size: nat, ghost n: nat)
    requires p.Valid() && packetSize <= mtu <= 4096 && ch < p.channelCount
    requires forall c :: c in p.outgoing ==> c.size + c.length <= 0xFFFF
    requires Represents(p.sent, p.outgoing, ch, x) && CarriesData(p.outgoing, ch)
    modifies p`sent, p`outgoing, p`windows, p`used, p`inTransit, p`nextTimeout
    ensures old(p.TimerSet()) ==> p.TimerSet()
    ensures p.Valid() && Transmits(x, n) && Represents(p.sent, p.outgoing, ch, Transmitted(x, n))
    ensures Transmitted(x, n).size > 0
      && forall c :: c in p.sent && c.channel == ch ==> MayArrive(Transmitted(x, n), c.sn)
    ensures var b := Begin(old(p.windows), old(p.used), old(p.inTransit), limit, mtu, packetSize, commands, buffers);
      Unhindered(b, old(p.outgoing)) ==> n == |Unsent(old(p.outgoing), ch)| && p.outgoing == []
  {
    hide Decides, Unhindered, Written, Stamped;
    hide AllCounted, Bytes, Represents, CarriesData, Transmits, AllSent, RetriedFirst, InOrder, GuardKept, SentAgain,
         WindowsAfter, UsedAfter, Left, Taken, ChannelsOk, Unsent, Transmitted;
    ghost var sent, was, windows, used := p.sent, p.outgoing, p.windows, p.used;
    var canPing, continueSending;
    ghost var took, again, stopped;
    ghost var b := Begin(windows, used, p.inTransit, limit, mtu, packetSize, commands, buffers);
    size, canPing, continueSending, took, again, stopped :=
      p.SendReliable(now, limit, mtu, packetSize, commands, buffers, rtt);
    if Unhindered(b, was) {
      EverythingIsSent(b, was, took, stopped);
    }
    PassIsTransmits(sent, was, windows, used, took, again, ch, x);
    n := |Unsent(Taken(was, took), ch)|;
    AllMayArrive(p.sent, p.outgoing, ch, Transmitted(x, n));
  }

  lemma AllMayArrive(sent: seq<Outgoing>, outgoing: seq<Outgoing>, ch: nat, x: System)
    requires Represents(sent, outgoing, ch, x) && AllSent(sent)
    ensures x.size > 0 && forall c :: c in sent && c.channel == ch ==> MayArrive(x, c.sn)
  {
    hide MayArrive, Good, Unsent, Counts, Bears, NumberedFrom, Total;
    forall c | c in sent && c.channel == ch
      ensures MayArrive(x, c.sn)
    {
      InFlightMayArrive(sent, outgoing, ch, x, c);
    }
  }

  /** Timeouts change nothing for any channel's system. */
  method CheckPeer(p: Peer, now: u32, ghost ch: nat, ghost x: System) returns (gaveUp: bool)
    requires p.Valid() && Represents(p.sent, p.outgoing, ch, x)
    modifies p`sent, p`outgoing, p`inTransit, p`earliestTimeout, p`nextTimeout
    ensures old(p.TimerSet()) ==> p.TimerSet()
    ensures p.Valid() && Represents(p.sent, p.outgoing, ch, x)
  {
    hide AllCounted, Bytes, Represents, RetriedFirst, Expired, EnetPeer.Waiting, GivesUpAt, Earliest;
    ghost var sent, outgoing := p.sent, p.outgoing;
    ghost var n;
    gaveUp, n := p.CheckTimeouts(now);
    TimeoutsAreSilent(sent, outgoing, n, now, ch, x);
  }

  /** An acknowledgement the network delivers to the peer is an Acknowledge step of the system
      of its channel. */
  method TakeAcknowledgement(p: Peer, channel: u8, sn: u16, ghost x: System, ghost n: nat) returns (ghost x': System)
    requires p.Valid() && Represents(p.sent, p.outgoing, channel, x)
    requires n in x.acks && x.s < n + SEQUENCE && sn == Seq(n)
    modifies p`sent, p`outgoing, p`windows, p`used, p`inTransit, p`nextTimeout
    ensures old(p.TimerSet()) ==> p.TimerSet()
    ensures p.Valid() && x.size > 0 && Takes(x, Acknowledge(n), x') && Represents(p.sent, p.outgoing, channel, x')
  {
    hide AllCounted, Bytes, AllSent, RetriedFirst, Without, Names, Seq, Takes, Good, Counts, Bears, NumberedFrom,
      Unsent,
         Total;
    ghost var sent, outgoing := p.sent, p.outgoing;
    var found;
    ghost var c;
    found, c := p.RemoveSent(sn, channel);
    x' := RemovalIsAcknowledge(sent, outgoing, channel, x, n, found, c, p.sent, p.outgoing);
  }
}
