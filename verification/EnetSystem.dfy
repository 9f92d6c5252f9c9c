/** One reliable ENet channel end to end: a sender that keeps to its window guard, a receiver,
    and a network that may deliver any command sent, any number of times and in any order, for as
    long as it is unacknowledged, and after that while it is less than eight windows old. */
module EnetSystem {
  import opened Words
  import opened EnetWindows
  import opened EnetReceive
  import opened EnetFragments
  import opened EnetDelivery

  /** The packets queued, how many commands were sent at least once, the numbers sent and not
      yet known to be acknowledged, the acknowledgements on the network, and the receiver. */
  datatype System = System(size: nat, packets: seq<seq<u8>>, s: nat, unacked: set<nat>, acks: set<nat>, rx: Channel)

  datatype Step =
    | Send(packet: seq<u8>)
    | Transmit
    | Deliver(j: nat, i: nat, maximum: nat, full: bool)
    | Acknowledge(n: nat)

  // ---------- The sender's counters ----------

  ghost function InWindow(unacked: set<nat>, v: nat): (r: set<nat>)
  {
    set n | n in unacked && Window(n) % WINDOWS == v
  }

  /** reliableWindows: for each window the numbers sent and unacknowledged. */
  ghost function Counters(unacked: set<nat>, k: nat): (c: seq<nat>)
    ensures |c| == k && forall v :: 0 <= v < k ==> c[v] == |InWindow(unacked, v)|
  {
    if k == 0 then [] else Counters(unacked, k - 1) + [|InWindow(unacked, k - 1)|]
  }

  /** usedReliableWindows. */
  ghost function UsedWindows(counters: seq<nat>): (used: set<nat>)
  {
    set v: nat | v < |counters| && counters[v] != 0
  }

  // ---------- Steps ----------

  ghost predicate Start(x: System)
  {
    x.size > 0 && x == System(x.size, [], 0, {}, {}, Channel(0, [], []))
  }

  /** Number n, of a packet that starts at `first`, may be on the network: it is outstanding, so
      the sender may send it at any time, or it was sent not long ago. */
  ghost predicate Travels(x: System, first: nat, n: nat)
  {
    n <= x.s && (n in x.unacked || x.s < n + FREE_WINDOWS * WINDOW_SIZE || x.s < first + REACH * WINDOW_SIZE)
  }

  ghost predicate Takes(x: System, step: Step, x': System)
    requires x.size > 0
  {
    match step
    case Send(packet) =>
      x' == if Count(x.size, packet) > MAXIMUM_FRAGMENT_COUNT then x else x.(packets := x.packets + [packet])
    case Transmit =>
      && x.s < Total(x.size, x.packets)
      && !Blocks(Counters(x.unacked, WINDOWS), UsedWindows(Counters(x.unacked, WINDOWS)), Seq(x.s + 1))
      && x' == x.(s := x.s + 1, unacked := x.unacked + {x.s + 1})
    case Deliver(j, i, maximum, full) =>
      && j < |x.packets| && i < Count(x.size, x.packets[j]) && BitsOk(x.rx.queue)
      && Travels(x, First(x.size, x.packets, j), First(x.size, x.packets, j) + i)
      && var r := Handle(x.rx, Sent(x.size, x.packets, j, i), maximum, full);
        var n := First(x.size, x.packets, j) + i;
        x' == x.(rx := r.channel,
                 acks := if r.code == 0 && !Suppresses(Seq(n), r.channel.incoming) then x.acks + {n} else x.acks)
    case Acknowledge(n) =>
      && n in x.acks && x.s < n + SEQUENCE
      && x' == x.(unacked := set m | m in x.unacked && Seq(m) != Seq(n))
  }

  /** No packet takes more than l commands. */
  ghost predicate AtMost(x: System, l: nat)
    requires x.size > 0
  {
    forall p :: p in x.packets ==> Count(x.size, p) <= l
  }

  /** The fragments of a packet that starts in one window end in the next: what a caller of
      enet_peer_send can see to. */
  ghost predicate Small(x: System)
  {
    x.size > 0 && AtMost(x, WINDOW_SIZE + 1)
  }

  ghost predicate Next(x: System, x': System)
  {
    x.size > 0 && exists step :: Takes(x, step, x')
  }

  ghost predicate Run(states: seq<System>)
  {
    && states != [] && Start(states[0])
    && forall k :: 0 < k < |states| ==> Next(states[k - 1], states[k])
  }

  // ---------- The invariant ----------

  /** Number n is command i of packet j, and it has arrived. */
  ghost predicate Arrived(x: System, d: nat, js: seq<nat>, n: nat)
    requires x.size > 0 && |js| == |x.rx.queue|
  {
    exists j: nat, i: nat ::
      j < |x.packets| && i < Count(x.size, x.packets[j]) && n == First(x.size, x.packets, j) + i
        && Received(x.rx, d, js, j, i)
  }

  ghost predicate Ahead(x: System, d: nat)
    requires x.size > 0 && d <= |x.packets|
  {
    Window(x.s) <= Window(Last(x.size, x.packets, d)) + FREE_WINDOWS - 1
  }

  /** Only what arrived is acknowledged, at most six windows ahead of the receiver. */
  ghost predicate AcksOk(x: System, d: nat, js: seq<nat>)
    requires x.size > 0 && d <= |x.packets| && |js| == |x.rx.queue|
  {
    forall n :: n in x.acks ==>
      1 <= n <= x.s && Arrived(x, d, js, n) && Window(n) <= Window(Last(x.size, x.packets, d)) + FREE_WINDOWS - 2
  }

  /** What is unacknowledged lies in the window of the last number sent or the eight before. */
  ghost predicate UnackedOk(x: System)
  {
    && (forall n :: n in x.unacked ==> 1 <= n <= x.s && Window(x.s) <= Window(n) + FREE_WINDOWS)
    && (forall n: nat :: 1 <= n <= x.s ==> n in x.unacked || n in x.acks)
  }

  ghost predicate Core(x: System, d: nat, js: seq<nat>)
  {
    && x.size > 0 && x.s <= Total(x.size, x.packets)
    && ChannelInv(x.rx, x.size, x.packets, d, js, x.s)
    && Ahead(x, d) && AcksOk(x, d, js) && UnackedOk(x)
  }

  /** Between steps nothing waits for dispatch. */
  ghost predicate Inv(x: System, d: nat, js: seq<nat>)
  {
    Core(x, d, js) && !Ready(x.rx)
  }

  ghost predicate Good(x: System)
  {
    exists d, js :: Inv(x, d, js)
  }

  lemma AheadIsNear(x: System, d: nat)
    requires x.size > 0 && d <= |x.packets| && Ahead(x, d)
    ensures Near(x.size, x.packets, d, x.s)
  {
    hide Last;
  }

  /** Every number is that of a command. */
  lemma {:induction false} Located(size: nat, packets: seq<seq<u8>>, n: nat) returns (j: nat, i: nat)
    requires size > 0 && 1 <= n <= Total(size, packets)
    ensures j < |packets| && i < Count(size, packets[j]) && First(size, packets, j) + i == n
    decreases |packets|
  {
    hide Count;
    var m := |packets| - 1;
    assert packets[..m] + [packets[m]] == packets;
    if n > Total(size, packets[..m]) {
      j, i := m, n - Total(size, packets[..m]) - 1;
    } else {
      j, i := Located(size, packets[..m], n);
      assert packets[..m][..j] == packets[..j];
    }
  }

  // ---------- Send ----------

  lemma {:induction false} TotalExtends(size: nat, packets: seq<seq<u8>>, p: seq<u8>, j: nat)
    requires size > 0 && j <= |packets|
    ensures (packets + [p])[..j] == packets[..j]
  {
  }

  lemma SendKeeps(x: System, p: seq<u8>, d: nat, js: seq<nat>)
    requires Inv(x, d, js)
    ensures Inv(x.(packets := x.packets + [p]), d, js)
  {
    hide Total, Count, Filled, Clear, Received, Seq, Window;
    var x' := x.(packets := x.packets + [p]);
    assert (x.packets + [p])[..|x.packets|] == x.packets;
    TotalExtends(x.size, x.packets, p, d);
    assert x'.packets[..d] == x.packets[..d];
    SendTotal(x.size, x.packets, p);
    forall i | 0 <= i < |js|
      ensures Expected(x'.rx.queue[i], x.size, x'.packets, d, js[i], x.s)
    {
      assert Expected(x.rx.queue[i], x.size, x.packets, d, js[i], x.s);
      TotalExtends(x.size, x.packets, p, js[i]);
    }
    forall n | n in x.acks
      ensures Arrived(x', d, js, n)
    {
      assert Arrived(x, d, js, n);
      var j: nat, i: nat :| j < |x.packets| && i < Count(x.size, x.packets[j]) && n == First(x.size, x.packets, j) + i
        && Received(x.rx, d, js, j, i);
      TotalExtends(x.size, x.packets, p, j);
      assert j < |x'.packets| && i < Count(x.size, x'.packets[j]) && n == First(x.size, x'.packets, j) + i;
    }
  }

  lemma SendTotal(size: nat, packets: seq<seq<u8>>, p: seq<u8>)
    requires size > 0
    ensures Total(size, packets + [p]) >= Total(size, packets)
  {
    assert (packets + [p])[..|packets|] == packets;
  }

  // ---------- Transmit ----------

  function Interval(lo: nat, n: nat): (r: set<nat>)
    ensures forall m :: m in r <==> lo <= m < lo + n
  {
    if n == 0 then {} else Interval(lo, n - 1) + {lo + n - 1}
  }

  lemma {:induction false} IntervalSize(lo: nat, n: nat)
    ensures |Interval(lo, n)| == n
  {
    if n > 0 {
      IntervalSize(lo, n - 1);
    }
  }

  lemma SubsetSize(a: set<nat>, b: set<nat>)
    requires a <= b
    ensures |a| <= |b|
  {
    assert b == a + (b - a);
  }

  /** A window whose counter is below 4096 has a number that is not waiting. */
  lemma SomeoneAnswered(unacked: set<nat>, k: nat) returns (m: nat)
    requires |InWindow(unacked, k % WINDOWS)| < WINDOW_SIZE
    ensures Window(m) == k && m !in unacked
  {
    if forall m :: m in Interval(k * WINDOW_SIZE, WINDOW_SIZE) ==> m in unacked {
      IntervalSize(k * WINDOW_SIZE, WINDOW_SIZE);
      forall m | m in Interval(k * WINDOW_SIZE, WINDOW_SIZE)
        ensures Window(m) == k
      {
      }
      SubsetSize(Interval(k * WINDOW_SIZE, WINDOW_SIZE), InWindow(unacked, k % WINDOWS));
      assert false;
    }
    m :| m in Interval(k * WINDOW_SIZE, WINDOW_SIZE) && m !in unacked;
  }

  /** The guard at the first number of window k. */
  lemma GuardPassed(unacked: set<nat>, k: nat, v: nat)
    requires !Blocks(Counters(unacked, WINDOWS), UsedWindows(Counters(unacked, WINDOWS)), Seq(k * WINDOW_SIZE))
    ensures |InWindow(unacked, (k + WINDOWS - 1) % WINDOWS)| < WINDOW_SIZE
    ensures v < WINDOWS && (v + WINDOWS - k % WINDOWS) % WINDOWS < FREE_WINDOWS ==> InWindow(unacked, v) == {}
  {
    var sn := Seq(k * WINDOW_SIZE);
    FirstOfWindow(k);
    BlocksIff(Counters(unacked, WINDOWS), UsedWindows(Counters(unacked, WINDOWS)), sn);
  }

  lemma FirstOfWindow(k: nat)
    ensures Seq(k * WINDOW_SIZE) / WINDOW_SIZE == k % WINDOWS && Seq(k * WINDOW_SIZE) % WINDOW_SIZE == 0
    ensures (k % WINDOWS + WINDOWS - 1) % WINDOWS == (k + WINDOWS - 1) % WINDOWS
  {
    LapOf(k * WINDOW_SIZE);
  }

  lemma WindowStep(s: nat)
    ensures Window(s + 1) == Window(s) || (Window(s + 1) == Window(s) + 1 && s + 1 == Window(s + 1) * WINDOW_SIZE)
  {
  }

  /** Nine windows back is eight windows on, around the end of the word. */
  lemma NineBack(k: nat, m: nat)
    requires k >= 9 && m == k - 9
    ensures (m % WINDOWS + WINDOWS - k % WINDOWS) % WINDOWS == 7
  {
  }

  /** Entering window k is safe: what is unacknowledged is at most eight windows back, and the
      receiver is at most seven. */
  lemma EnterWindow(x: System, d: nat, js: seq<nat>, k: nat)
    requires Inv(x, d, js) && Window(x.s) + 1 == k && (x.s + 1) % WINDOW_SIZE == 0
    requires !Blocks(Counters(x.unacked, WINDOWS), UsedWindows(Counters(x.unacked, WINDOWS)), Seq(k * WINDOW_SIZE))
    ensures forall n :: n in x.unacked ==> k <= Window(n) + FREE_WINDOWS
    ensures k <= Window(Last(x.size, x.packets, d)) + FREE_WINDOWS - 1
  {
    hide ChannelInv, Total, Last, Arrived, Blocks, Counters, UsedWindows, Seq;
    forall n | n in x.unacked
      ensures k <= Window(n) + FREE_WINDOWS
    {
      if k >= 9 && Window(n) == k - 9 {
        NineBack(k, Window(n));
        assert n in InWindow(x.unacked, Window(n) % WINDOWS);
        GuardPassed(x.unacked, k, Window(n) % WINDOWS);
      }
    }
    if k >= 2 {
      GuardPassed(x.unacked, k, 0);
      SameSlot(k);
      var m := SomeoneAnswered(x.unacked, k - 1);
      WindowBounds(m, x.s);
      assert m in x.acks;
    }
  }

  lemma SameSlot(k: nat)
    requires k >= 1
    ensures (k + WINDOWS - 1) % WINDOWS == (k - 1) % WINDOWS
  {
  }

  lemma WindowBounds(m: nat, s: nat)
    requires Window(m) >= 1 && Window(m) == Window(s) && (s + 1) % WINDOW_SIZE == 0
    ensures 1 <= m <= s
  {
  }

  lemma TransmitKeeps(x: System, x': System, d: nat, js: seq<nat>)
    requires Inv(x, d, js) && Takes(x, Transmit, x')
    ensures Inv(x', d, js)
  {
    hide Total, First, Arrived, Blocks, Counters, UsedWindows, Seq, EntryOk, Window, Ready, Last;
    WindowStep(x.s);
    LastSame(x, x', d);
    if Window(x'.s) != Window(x.s) {
      MultipleEnds(x.s);
      EnterWindow(x, d, js, Window(x'.s));
    }
    forall i | 0 <= i < |js|
      ensures Expected(x'.rx.queue[i], x.size, x.packets, d, js[i], x'.s)
    {
      assert Expected(x.rx.queue[i], x.size, x.packets, d, js[i], x.s);
    }
    forall n | n in x.acks
      ensures Arrived(x', d, js, n)
    {
      ArrivedStays(x, x', d, js, n);
    }
  }

  lemma LastSame(x: System, x': System, d: nat)
    requires x.size > 0 && d <= |x.packets| && x'.size == x.size && x'.packets == x.packets
    ensures Last(x'.size, x'.packets, d) == Last(x.size, x.packets, d)
  {
  }

  lemma MultipleEnds(s: nat)
    requires Window(s + 1) != Window(s)
    ensures (s + 1) % WINDOW_SIZE == 0
  {
  }

  lemma ArrivedStays(x: System, x': System, d: nat, js: seq<nat>, n: nat)
    requires x.size > 0 && |js| == |x.rx.queue| && Arrived(x, d, js, n)
    requires x'.size == x.size && x'.packets == x.packets && x'.rx == x.rx
    ensures Arrived(x', d, js, n)
  {
    hide First, Total, Count, Received;
  }

  // ---------- Deliver ----------

  /** A number not yet dispatched is left unacknowledged exactly when it lies seven windows
      ahead. */
  lemma SilentIffSevenAhead(x: System, d: nat, js: seq<nat>, n: nat)
    requires Inv(x, d, js) && Last(x.size, x.packets, d) < n <= x.s
    ensures Suppresses(Seq(n), x.rx.incoming) <==>
      Window(n) == Window(Last(x.size, x.packets, d)) + FREE_WINDOWS - 1
  {
    hide Total, Expected, Received, Seq, AcksOk, UnackedOk, Ready, Suppresses;
    var last := Last(x.size, x.packets, d);
    AheadIsNear(x, d);
    AheadExact(n, last);
    WindowMonotone(n, x.s);
    SuppressesIff(Seq(n), Seq(last), Window(n) - Window(last));
  }

  lemma SuppressesIff(sn: u16, incoming: u16, ahead: int)
    requires WindowsAhead(sn, incoming) == ahead <= FREE_WINDOWS - 1
    ensures Suppresses(sn, incoming) <==> ahead == FREE_WINDOWS - 1
  {
  }

  /** Command i of packet j, not dispatched yet: it is discarded exactly when its packet starts
      seven windows ahead, and then not acknowledged. A command that starts a packet is
      acknowledged exactly when it is not discarded. A later fragment is held, but not
      acknowledged, exactly when it lies seven windows ahead and the start of its packet does
      not. */
  lemma DiscardedIsSilent(x: System, d: nat, js: seq<nat>, j: nat, i: nat)
    requires Inv(x, d, js) && d <= j < |x.packets| && i < Count(x.size, x.packets[j])
    requires First(x.size, x.packets, j) + i <= x.s
    ensures var first, last := First(x.size, x.packets, j), Last(x.size, x.packets, d);
      var far, discards, silent := Window(last) + FREE_WINDOWS - 1,
                                   Discards(Seq(first), x.rx.incoming), Suppresses(Seq(first + i), x.rx.incoming);
      && (discards <==> Window(first) == far)
      && (silent <==> Window(first + i) == far)
      && (discards ==> silent)
      && (i == 0 ==> (discards <==> silent))
      && (silent && !discards <==> Window(first) < far && Window(first + i) == far)
  {
    hide Total, Count, Expected, Received, Seq, AcksOk, UnackedOk, Ready, Suppresses;
    var first, last := First(x.size, x.packets, j), Last(x.size, x.packets, d);
    FirstAfter(x.size, x.packets, d, j);
    AheadIsNear(x, d);
    AheadExact(first, last);
    SilentIffSevenAhead(x, d, js, first + i);
    WindowMonotone(first, first + i);
    WindowMonotone(first + i, x.s);
    WindowMonotone(last, first);
  }

  lemma WindowMonotone(a: nat, b: nat)
    requires a <= b
    ensures Window(a) <= Window(b)
  {
  }

  /** A command that is acknowledged is at most six windows ahead of the receiver. */
  lemma AcknowledgedIsNear(s: nat, last: nat, n: nat)
    requires n <= s && Window(s) <= Window(last) + FREE_WINDOWS - 1 && !Suppresses(Seq(n), Seq(last))
    ensures Window(n) <= Window(last) + FREE_WINDOWS - 2
  {
    WindowMonotone(n, s);
    if n > last {
      AheadExact(n, last);
    } else {
      WindowMonotone(n, last);
    }
  }

  /** The receiver is not so far past packet j that its commands pass for new ones. */
  ghost predicate InReach(x: System, j: nat)
  {
    && x.size > 0 && j < |x.packets| && |x.rx.dispatched| <= |x.packets|
    && (j < |x.rx.dispatched| ==>
          Window(Last(x.size, x.packets, |x.rx.dispatched|)) <= Window(First(x.size, x.packets, j)) + REACH)
  }

  /** Of packets of at most 4097 commands everything that may be on the network is in reach. */
  lemma SmallInReach(x: System, j: nat, i: nat)
    requires Good(x) && Small(x) && j < |x.packets| && i < Count(x.size, x.packets[j])
    requires Travels(x, First(x.size, x.packets, j), First(x.size, x.packets, j) + i)
    ensures InReach(x, j)
  {
    hide Total, First, Last, Count, ChannelInv, Seq, Window, Ready, AcksOk;
    var d, js :| Inv(x, d, js);
    Dispatched(x.rx, x.size, x.packets, d, js, x.s);
    assert x.packets[j] in x.packets;
    YoungIsNear(x, First(x.size, x.packets, j), i);
    WindowMonotone(Last(x.size, x.packets, d), x.s);
  }

  lemma YoungIsNear(x: System, first: nat, i: nat)
    requires UnackedOk(x) && i <= WINDOW_SIZE && Travels(x, first, first + i)
    ensures Window(x.s) <= Window(first) + REACH
  {
    assert Window(first + i) <= Window(first) + 1;
  }

  lemma DeliverKeeps(x: System, x': System, d: nat, js: seq<nat>, j: nat, i: nat, maximum: nat, full: bool)
    returns (d': nat, js': seq<nat>)
    requires Inv(x, d, js) && Takes(x, Deliver(j, i, maximum, full), x') && InReach(x, j)
    ensures Inv(x', d', js')
  {
    hide Total, First, Last, Count, ChannelInv, Received, Seq, Window, Ready, Near, Handle, Sent, Keeps, Suppresses,
      Discards, AcksOk, UnackedOk;
    LengthsAgree(x.rx, x.size, x.packets, d, js, x.s);
    Dispatched(x.rx, x.size, x.packets, d, js, x.s);
    AheadIsNear(x, d);
    d', js' := Arrives(x.rx, x.size, x.packets, d, js, x.s, j, i, maximum, full);
    Dispatched(x'.rx, x.size, x.packets, d', js', x.s);
    LengthsAgree(x'.rx, x.size, x.packets, d', js', x.s);
    LastMonotone(x.size, x.packets, d, d');
    var n := First(x.size, x.packets, j) + i;
    if x'.acks != x.acks {
      if !Received(x'.rx, d', js', j, i) {
        DiscardedIsSilent(x, d, js, j, i);
      }
      assert Received(x'.rx, d', js', j, i);
      ArrivedNow(x', d', js', j, i);
      AcknowledgedIsNear(x.s, Last(x.size, x.packets, d'), n);
    }
    AcksStay(x, x', d, js, d', js', n);
    UnackedStays(x, x');
  }

  /** A command that is delivered while there is room, of a packet within the receiver's limits, is
      acknowledged, the first time and again, unless its window is one that keeps acknowledgements
      back. */
  lemma RoomIsAcknowledged(x: System, x': System, j: nat, i: nat, maximum: nat)
    requires Good(x) && x.size > 0 && Takes(x, Deliver(j, i, maximum, false), x') && InReach(x, j)
    requires |x.packets[j]| <= maximum && Count(x.size, x.packets[j]) <= MAXIMUM_FRAGMENT_COUNT
    ensures var n := First(x.size, x.packets, j) + i;
      n in x'.acks <==> n in x.acks || !Suppresses(Seq(n), x'.rx.incoming)
  {
    hide Total, First, Last, Count, ChannelInv, Received, Seq, Window, Ready, Near, Handle, Sent, Keeps, Suppresses,
      Discards, AcksOk, UnackedOk;
    var d, js :| Inv(x, d, js);
    LengthsAgree(x.rx, x.size, x.packets, d, js, x.s);
    Dispatched(x.rx, x.size, x.packets, d, js, x.s);
    AheadIsNear(x, d);
    RefusedIff(x.rx, x.size, x.packets, d, js, x.s, j, i, maximum, false);
  }

  lemma Dispatched(c: Channel, size: nat, packets: seq<seq<u8>>, d: nat, js: seq<nat>, s: nat)
    requires size > 0 && ChannelInv(c, size, packets, d, js, s)
    ensures d <= |packets| && c.dispatched == packets[..d] && c.incoming == Seq(Last(size, packets, d))
      && Last(size, packets, d) <= s
  {
  }

  lemma LastMonotone(size: nat, packets: seq<seq<u8>>, d: nat, d': nat)
    requires size > 0 && d <= d' <= |packets|
    ensures Last(size, packets, d) <= Last(size, packets, d')
      && Window(Last(size, packets, d)) <= Window(Last(size, packets, d'))
  {
    hide Total;
    if d < d' {
      FirstMonotone(size, packets, d, d');
    }
    WindowMonotone(Last(size, packets, d), Last(size, packets, d'));
  }

  lemma ArrivedNow(x: System, d: nat, js: seq<nat>, j: nat, i: nat)
    requires x.size > 0 && |js| == |x.rx.queue| && j < |x.packets| && i < Count(x.size, x.packets[j])
      && Received(x.rx, d, js, j, i)
    ensures Arrived(x, d, js, First(x.size, x.packets, j) + i) && First(x.size, x.packets, j) + i >= 1
  {
    hide Total, Count, Received;
  }

  lemma ArrivedKeeps(x: System, x': System, d: nat, js: seq<nat>, d': nat, js': seq<nat>, n: nat)
    requires x.size > 0 && |js| == |x.rx.queue| && |js'| == |x'.rx.queue| && Arrived(x, d, js, n)
    requires x'.size == x.size && x'.packets == x.packets && Keeps(x.rx, d, js, x'.rx, d', js')
    ensures Arrived(x', d', js', n)
  {
    hide First, Total, Count, Received;
  }

  lemma AcksStay(x: System, x': System, d: nat, js: seq<nat>, d': nat, js': seq<nat>, n: nat)
    requires x.size > 0 && |js| == |x.rx.queue| && |js'| == |x'.rx.queue| && d <= |x.packets| && d' <= |x.packets|
    requires AcksOk(x, d, js) && Keeps(x.rx, d, js, x'.rx, d', js')
    requires x'.size == x.size && x'.packets == x.packets && x'.s == x.s && x'.acks <= x.acks + {n}
    requires Window(Last(x.size, x.packets, d)) <= Window(Last(x.size, x.packets, d'))
    requires x'.acks == x.acks
      || (1 <= n <= x.s && Arrived(x', d', js', n) && Window(n) <= Window(Last(x.size, x.packets, d'))
      + FREE_WINDOWS - 2)
    ensures AcksOk(x', d', js')
  {
    hide Arrived, Last, Window, Keeps;
    forall m | m in x'.acks
      ensures 1 <= m <= x.s && Arrived(x', d', js', m)
        && Window(m) <= Window(Last(x.size, x.packets, d')) + FREE_WINDOWS - 2
    {
      if m in x.acks {
        ArrivedKeeps(x, x', d, js, d', js', m);
      }
    }
  }

  lemma UnackedStays(x: System, x': System)
    requires UnackedOk(x) && x'.s == x.s && x'.unacked == x.unacked && x.acks <= x'.acks
    ensures UnackedOk(x')
  {
    hide Window;
  }

  // ---------- Acknowledge ----------

  /** An acknowledgement, known only by 16 bits, is taken for the command it names. */
  lemma AcknowledgesOne(x: System, n: nat)
    requires UnackedOk(x) && n <= x.s < n + SEQUENCE
    ensures (set m | m in x.unacked && Seq(m) != Seq(n)) == x.unacked - {n}
  {
    forall m | m in x.unacked && Seq(m) == Seq(n)
      ensures m == n
    {
      NotOld(m, x.s);
      SeqInjective(m, n);
    }
  }

  lemma NotOld(m: nat, s: nat)
    requires m <= s && Window(s) <= Window(m) + FREE_WINDOWS
    ensures s < m + SEQUENCE
  {
  }

  lemma AcknowledgeKeeps(x: System, x': System, d: nat, js: seq<nat>, n: nat)
    requires Inv(x, d, js) && Takes(x, Acknowledge(n), x')
    ensures Inv(x', d, js) && x'.unacked == x.unacked - {n}
  {
    hide Total, First, ChannelInv, Received, Seq, Window, Ready, Last;
    LengthsAgree(x.rx, x.size, x.packets, d, js, x.s);
    AcknowledgesOne(x, n);
    Dispatched(x.rx, x.size, x.packets, d, js, x.s);
    forall m | m in x.acks
      ensures Arrived(x', d, js, m)
    {
      ArrivedStays(x, x', d, js, m);
    }
  }

  // ---------- Whole runs ----------

  lemma StartInv(x: System)
    requires Start(x)
    ensures Inv(x, 0, [])
  {
  }

  lemma TakesKeeps(x: System, step: Step, x': System)
    requires Good(x) && x.size > 0 && Takes(x, step, x') && (step.Deliver? ==> InReach(x, step.j))
    ensures Good(x')
  {
    hide Inv, Takes;
    var d, js :| Inv(x, d, js);
    match step
    case Send(packet) =>
      SendKeeps(x, packet, d, js);
      SendIs(x, packet, x');
      assert Inv(x, d, js) && Inv(x.(packets := x.packets + [packet]), d, js);
    case Transmit =>
      TransmitKeeps(x, x', d, js);
    case Deliver(j, i, maximum, full) =>
      var d', js' := DeliverKeeps(x, x', d, js, j, i, maximum, full);
    case Acknowledge(n) =>
      AcknowledgeKeeps(x, x', d, js, n);
  }

  lemma SendIs(x: System, packet: seq<u8>, x': System)
    requires x.size > 0 && Takes(x, Send(packet), x')
    ensures x' == x || x' == x.(packets := x.packets + [packet])
  {
  }

  /** The packets queued only become more. */
  lemma OnlyMore(x: System, step: Step, x': System)
    requires x.size > 0 && Takes(x, step, x')
    ensures x'.size == x.size && x.packets <= x'.packets
  {
    hide Count, First, Handle, Sent, Blocks, Counters, UsedWindows, Travels;
  }

  lemma SmallBefore(x: System, x': System)
    requires Next(x, x') && Small(x')
    ensures Small(x)
  {
    hide Takes, Count;
    var step :| Takes(x, step, x');
    OnlyMore(x, step, x');
    forall p | p in x.packets
      ensures Count(x.size, p) <= WINDOW_SIZE + 1
    {
      assert p in x'.packets;
    }
  }

  lemma DeliverTravels(x: System, step: Step, x': System)
    requires x.size > 0 && step.Deliver? && Takes(x, step, x')
    ensures step.j < |x.packets| && step.i < Count(x.size, x.packets[step.j])
    ensures Travels(x, First(x.size, x.packets, step.j), First(x.size, x.packets, step.j) + step.i)
  {
  }

  lemma {:induction false} RunIsGood(states: seq<System>, k: nat)
    requires Run(states) && k < |states| && Small(states[k])
    ensures Good(states[k])
    decreases k
  {
    hide Good, Inv, Takes, Small, Travels, InReach;
    if k == 0 {
      StartIsGood(states[0]);
    } else {
      assert Next(states[k - 1], states[k]);
      SmallBefore(states[k - 1], states[k]);
      RunIsGood(states, k - 1);
      var step :| Takes(states[k - 1], step, states[k]);
      if step.Deliver? {
        DeliverTravels(states[k - 1], step, states[k]);
        SmallInReach(states[k - 1], step.j, step.i);
      }
      TakesKeeps(states[k - 1], step, states[k]);
    }
  }

  lemma StartIsGood(x: System)
    requires Start(x)
    ensures Good(x)
  {
    hide Inv;
    StartInv(x);
  }

  /** In every run with packets of at most 4097 commands the packets dispatched on a channel are
      a prefix of the packets sent on it: each once, whole and in order. */
  lemma DispatchedIsPrefix(states: seq<System>, k: nat)
    requires Run(states) && k < |states| && Small(states[k])
    ensures states[k].rx.dispatched <= states[k].packets
  {
    RunIsGood(states, k);
    var d, js :| Inv(states[k], d, js);
  }

  /** No command that did not arrive is acknowledged: at every moment of every run an
      acknowledgement on the network names a command the receiver dispatched or holds. */
  lemma AcknowledgedHasArrived(states: seq<System>, k: nat, n: nat) returns (j: nat, i: nat)
    requires Run(states) && k < |states| && Small(states[k]) && n in states[k].acks
    ensures var x := states[k];
      && x.size > 0 && j < |x.packets| && i < Count(x.size, x.packets[j]) && n == First(x.size, x.packets, j) + i
      && (|| j < |x.rx.dispatched|
          || exists e ::
             e in x.rx.queue && e.sn == Seq(First(x.size, x.packets, j))
             && (e.count == 0 || (i < |e.bits| && e.bits[i])))
  {
    hide First, Total, Count, Seq;
    RunIsGood(states, k);
    var x := states[k];
    var d, js :| Inv(x, d, js);
    assert Arrived(x, d, js, n);
    j, i :| j < |x.packets| && i < Count(x.size, x.packets[j]) && n == First(x.size, x.packets, j) + i
      && Received(x.rx, d, js, j, i);
    if j >= d {
      var m :| 0 <= m < |js| && js[m] == j
        && (x.rx.queue[m].count == 0 || (i < |x.rx.queue[m].bits| && x.rx.queue[m].bits[i]));
      assert Expected(x.rx.queue[m], x.size, x.packets, d, js[m], x.s);
      assert x.rx.queue[m] in x.rx.queue;
    }
  }

  /** Of every packet being reassembled the remaining count is the number of clear bits. */
  lemma RemainingIsClearBits(states: seq<System>, k: nat, m: nat)
    requires Run(states) && k < |states| && Small(states[k])
    requires m < |states[k].rx.queue| && states[k].rx.queue[m].count > 0
    ensures var e := states[k].rx.queue[m];
      e.remaining == Clear(e.bits) && |e.bits| == e.count
  {
    hide First, Total, Seq, Ready, AcksOk, UnackedOk, Ahead;
    RunIsGood(states, k);
    var x := states[k];
    var d, js :| Inv(x, d, js);
    assert Expected(x.rx.queue[m], x.size, x.packets, d, js[m], x.s);
  }

  /** Every command sent so far is within seven windows of the receiver. */
  lemma WithinSevenWindows(states: seq<System>, k: nat, last: nat)
    requires Run(states) && k < |states| && Small(states[k])
    requires |states[k].rx.dispatched| <= |states[k].packets|
      && last == Last(states[k].size, states[k].packets, |states[k].rx.dispatched|)
    ensures Window(states[k].s) <= Window(last) + FREE_WINDOWS - 1
  {
    RunIsGood(states, k);
    var d, js :| Inv(states[k], d, js);
  }

  /** When nothing is unacknowledged and everything was sent, every packet was dispatched. */
  lemma AllAcknowledgedMeansAllDispatched(states: seq<System>, k: nat)
    requires Run(states) && k < |states| && Small(states[k])
    requires states[k].unacked == {} && states[k].s == Total(states[k].size, states[k].packets)
    ensures states[k].rx.dispatched == states[k].packets
  {
    hide First, Last, Count, Seq, Window, Received, AcksOk, Ready;
    RunIsGood(states, k);
    var x := states[k];
    var d: nat, js: seq<nat> :| Inv(x, d, js);
    Dispatched(x.rx, x.size, x.packets, d, js, x.s);
    if d < |x.packets| {
      NextIsReady(x, d, js);
    }
    assert x.packets[..|x.packets|] == x.packets;
  }

  /** If every command of the next packet arrived, it is ready for dispatch. */
  lemma NextIsReady(x: System, d: nat, js: seq<nat>)
    requires Core(x, d, js) && d < |x.packets| && x.unacked == {} && x.s == Total(x.size, x.packets)
    ensures Ready(x.rx)
  {
    hide Total, First, Last, Seq, Window, Received, EntryOk, Ahead;
    CountCovers(x.size, x.packets[d]);
    AllReceived(x, d, js, 0);
    ReceivedEntry(x.rx, d, js, 0);
    AheadIsNear(x, d);
    HeadIsNext(x.rx, x.size, x.packets, d, js, x.s);
    HeadIs(x.rx, x.size, x.packets, d, js, x.s);
    var e := x.rx.queue[0];
    CompleteEntry(e, x.size, x.packets, d);
    if e.count > 0 {
      forall i: nat | i < |e.bits|
        ensures e.bits[i]
      {
        AllReceived(x, d, js, i);
        ReceivedBit(x.rx, d, js, i);
      }
      CountsBits(e, x.size, x.packets, d);
    } else {
      CountsNothing(e, x.size, x.packets, d);
    }
  }

  lemma HeadIs(c: Channel, size: nat, packets: seq<seq<u8>>, d: nat, js: seq<nat>, s: nat)
    requires size > 0 && ChannelInv(c, size, packets, d, js, s) && d in js
    ensures c.queue != [] && js[0] == d && Expected(c.queue[0], size, packets, d, d, s)
  {
    hide EntryOk, First, Total, Seq;
    var k :| 0 <= k < |js| && js[k] == d;
    assert Expected(c.queue[0], size, packets, d, js[0], s);
  }

  lemma ReceivedEntry(c: Channel, d: nat, js: seq<nat>, i: nat)
    requires |js| == |c.queue| && Received(c, d, js, d, i)
    ensures d in js
  {
  }

  lemma ReceivedBit(c: Channel, d: nat, js: seq<nat>, i: nat)
    requires |js| == |c.queue| && Ascending(js) && js != [] && js[0] == d && Received(c, d, js, d, i)
    ensures c.queue[0].count == 0 || (i < |c.queue[0].bits| && c.queue[0].bits[i])
  {
  }

  lemma CountsBits(e: Incoming, size: nat, packets: seq<seq<u8>>, j: nat)
    requires size > 0 && EntryOk(e, size, packets, j) && e.count > 0 && forall i :: 0 <= i < |e.bits| ==> e.bits[i]
    ensures e.remaining == 0
  {
    NoneClear(e.bits);
  }

  lemma CountsNothing(e: Incoming, size: nat, packets: seq<seq<u8>>, j: nat)
    requires size > 0 && EntryOk(e, size, packets, j) && e.count == 0
    ensures e.remaining == 0
  {
    CountCovers(size, packets[j]);
  }

  /** With nothing unacknowledged every command of packet d has arrived. */
  lemma AllReceived(x: System, d: nat, js: seq<nat>, i: nat)
    requires Core(x, d, js) && d < |x.packets| && x.unacked == {} && x.s == Total(x.size, x.packets)
    requires i < Count(x.size, x.packets[d])
    ensures |js| == |x.rx.queue| && Received(x.rx, d, js, d, i)
  {
    hide Total, Count, Received, Expected, Seq, Window, Last;
    var n := First(x.size, x.packets, d) + i;
    WholeTotal(x.size, x.packets);
    FirstMonotone(x.size, x.packets, d, |x.packets|);
    assert n in x.unacked || n in x.acks;
    assert Arrived(x, d, js, n);
    var j: nat, m: nat :| j < |x.packets| && m < Count(x.size, x.packets[j]) && n == First(x.size, x.packets, j) + m
      && Received(x.rx, d, js, j, m);
    if j < d {
      FirstMonotone(x.size, x.packets, j, d);
    } else if d < j {
      FirstMonotone(x.size, x.packets, d, j);
    }
  }

  lemma WholeTotal(size: nat, packets: seq<seq<u8>>)
    requires size > 0
    ensures First(size, packets, |packets|) == Total(size, packets) + 1
  {
    assert packets[..|packets|] == packets;
  }
}
