/** The sending side of an ENet peer: which reliable commands are in flight, per peer and per
    channel window (toxtun/protocol.c and toxtun/peer.c). */
module EnetPeer {
  import opened Words
  import opened EnetWindows

  /** A reliable command; length is its share of the packet, if it carries one. */
  datatype Outgoing = Outgoing(channel: u8, sn: u16, attempts: nat, hasPacket: bool, length: u16, size: nat,
                               sentTime: u32, timeout: nat, limit: nat)

  // ---------- What the counters count ----------

  /** Commands sent at least once, on a channel, in a window. */
  function InFlight(cs: seq<Outgoing>, channel: nat, w: nat): (n: nat)
  {
    if cs == [] then 0
    else
      var c := cs[|cs| - 1];
      InFlight(cs[..|cs| - 1], channel, w)
      + if c.attempts > 0 && c.channel == channel && c.sn / WINDOW_SIZE == w then 1 else 0
  }

  /** The bytes of the packets carried. */
  function Bytes(cs: seq<Outgoing>): (n: nat)
  {
    if cs == [] then 0 else Bytes(cs[..|cs| - 1]) + if cs[|cs| - 1].hasPacket then cs[|cs| - 1].length else 0
  }

  predicate Names(c: Outgoing, sn: u16, channel: u8)
  {
    c.sn == sn && c.channel == channel
  }

  /** The first command with the number and channel of c is c, and is gone; the rest is in place. */
  ghost predicate Without(before: seq<Outgoing>, after: seq<Outgoing>, c: Outgoing)
  {
    exists k :: 0 <= k < |before| && before[k] == c && after == before[..k] + before[k + 1..]
      && forall i :: 0 <= i < k ==> !Names(before[i], c.sn, c.channel)
  }

  predicate AllSent(cs: seq<Outgoing>)
  {
    forall c :: c in cs ==> c.attempts > 0
  }

  /** Commands to be sent again come before those never sent. */
  predicate RetriedFirst(cs: seq<Outgoing>)
  {
    forall i, j :: 0 <= i < j < |cs| && cs[j].attempts > 0 ==> cs[i].attempts > 0
  }

  lemma {:induction false} InFlightParts(a: seq<Outgoing>, b: seq<Outgoing>, channel: nat, w: nat)
    ensures InFlight(a + b, channel, w) == InFlight(a, channel, w) + InFlight(b, channel, w)
    decreases |b|
  {
    if b == [] {
      assert a + b == a;
    } else {
      assert (a + b)[..|a + b| - 1] == a + b[..|b| - 1];
      InFlightParts(a, b[..|b| - 1], channel, w);
    }
  }

  lemma {:induction false} BytesParts(a: seq<Outgoing>, b: seq<Outgoing>)
    ensures Bytes(a + b) == Bytes(a) + Bytes(b)
    decreases |b|
  {
    if b == [] {
      assert a + b == a;
    } else {
      assert (a + b)[..|a + b| - 1] == a + b[..|b| - 1];
      BytesParts(a, b[..|b| - 1]);
    }
  }

  function One(c: Outgoing, channel: nat, w: nat): (n: nat)
  {
    if c.attempts > 0 && c.channel == channel && c.sn / WINDOW_SIZE == w then 1 else 0
  }

  lemma InFlightOne(c: Outgoing, channel: nat, w: nat)
    ensures InFlight([c], channel, w) == One(c, channel, w)
    ensures Bytes([c]) == if c.hasPacket then c.length else 0
  {
    assert [c][..0] == [];
  }

  /** Taking command k out of a list. */
  lemma TakenOut(cs: seq<Outgoing>, k: nat, channel: nat, w: nat)
    requires k < |cs|
    ensures InFlight(cs, channel, w) == InFlight(cs[..k] + cs[k + 1..], channel, w) + One(cs[k], channel, w)
    ensures Bytes(cs) == Bytes(cs[..k] + cs[k + 1..]) + if cs[k].hasPacket then cs[k].length else 0
  {
    assert cs == cs[..k] + ([cs[k]] + cs[k + 1..]);
    InFlightParts(cs[..k], [cs[k]] + cs[k + 1..], channel, w);
    InFlightParts([cs[k]], cs[k + 1..], channel, w);
    InFlightParts(cs[..k], cs[k + 1..], channel, w);
    BytesParts(cs[..k], [cs[k]] + cs[k + 1..]);
    BytesParts([cs[k]], cs[k + 1..]);
    BytesParts(cs[..k], cs[k + 1..]);
    InFlightOne(cs[k], channel, w);
  }

  lemma PutLast(cs: seq<Outgoing>, c: Outgoing, channel: nat, w: nat)
    ensures InFlight(cs + [c], channel, w) == InFlight(cs, channel, w) + One(c, channel, w)
    ensures Bytes(cs + [c]) == Bytes(cs) + if c.hasPacket then c.length else 0
  {
    assert (cs + [c])[..|cs|] == cs;
  }

  /** The counters of one channel agree with the lists. */
  ghost predicate Counted(windows: seq<nat>, used: set<nat>, sent: seq<Outgoing>, outgoing: seq<Outgoing>, channel: nat)
  {
    && |windows| == WINDOWS && UsedOk(windows, used)
    && forall w :: 0 <= w < WINDOWS ==> windows[w] == InFlight(sent, channel, w) + InFlight(outgoing, channel, w)
  }

  ghost predicate AllCounted(windows: seq<seq<nat>>, used: seq<set<nat>>, sent: seq<Outgoing>, outgoing: seq<Outgoing>)
  {
    && |windows| == |used|
    && forall ch :: 0 <= ch < |windows| ==> Counted(windows[ch], used[ch], sent, outgoing, ch)
  }

  // ---------- What a pass over the queue takes and leaves ----------

  /** Of the first commands of cs, those not taken. */
  function Left(cs: seq<Outgoing>, took: seq<bool>): (r: seq<Outgoing>)
    requires |took| <= |cs|
    decreases |took|
  {
    if took == [] then []
    else
      var k := |took| - 1;
      Left(cs, took[..k]) + if took[k] then [] else [cs[k]]
  }

  function Taken(cs: seq<Outgoing>, took: seq<bool>): (r: seq<Outgoing>)
    requires |took| <= |cs|
    decreases |took|
  {
    if took == [] then []
    else
      var k := |took| - 1;
      Taken(cs, took[..k]) + if took[k] then [cs[k]] else []
  }

  /** The same commands, sent once more. */
  ghost predicate SentAgain(now: seq<Outgoing>, before: seq<Outgoing>)
  {
    && |now| == |before|
    && forall i :: 0 <= i < |now| ==>
         now[i].sn == before[i].sn && now[i].channel == before[i].channel && now[i].hasPacket == before[i].hasPacket
         && now[i].length == before[i].length && now[i].attempts == before[i].attempts + 1
  }

  /** Each carries the time of this sending; the first sending sets its timer. */
  ghost predicate Stamped(now: seq<Outgoing>, before: seq<Outgoing>, time: u32, rtt: nat, timeoutLimit: nat)
  {
    && |now| == |before|
    && forall i :: 0 <= i < |now| ==>
         && now[i].sentTime == time && now[i].size == before[i].size
         && now[i].timeout == (if before[i].timeout == 0 then rtt else before[i].timeout)
         && now[i].limit == (if before[i].timeout == 0 then timeoutLimit * rtt else before[i].limit)
  }

  predicate IsData(c: Outgoing, channels: nat)
  {
    c.hasPacket && c.channel < channels
  }

  /** Of the commands that carry packets on channels, a pass takes the first ones: none is sent
      before an earlier one. */
  ghost predicate InOrder(cs: seq<Outgoing>, took: seq<bool>, channels: nat)
    requires |took| <= |cs|
  {
    forall h, g :: 0 <= h < g < |took| && took[g] && IsData(cs[h], channels) && IsData(cs[g], channels) ==> took[h]
  }

  predicate Sized(windows: seq<seq<nat>>)
  {
    forall ch :: 0 <= ch < |windows| ==> |windows[ch]| == WINDOWS
  }

  /** The counters after those of the first commands of cs that were taken, and had never been
      sent, were counted. */
  function WindowsAfter(windows: seq<seq<nat>>, cs: seq<Outgoing>, took: seq<bool>): (r: seq<seq<nat>>)
    requires |took| <= |cs| && Sized(windows)
    ensures |r| == |windows| && Sized(r)
    decreases |took|
  {
    if took == [] then windows
    else
      var k := |took| - 1;
      var before := WindowsAfter(windows, cs, took[..k]);
      if took[k] && cs[k].attempts == 0 then CountUp(before, cs[k].channel, cs[k].sn) else before
  }

  function UsedAfter(used: seq<set<nat>>, cs: seq<Outgoing>, took: seq<bool>): (r: seq<set<nat>>)
    requires |took| <= |cs|
    ensures |r| == |used|
    decreases |took|
  {
    if took == [] then used
    else
      var k := |took| - 1;
      var before := UsedAfter(used, cs, took[..k]);
      if took[k] && cs[k].attempts == 0 then BitsUp(before, cs[k].channel, cs[k].sn) else before
  }

  /** A command sent for the first time passed the guard, as the counters stood after the
      commands taken before it. */
  ghost predicate GuardKept(cs: seq<Outgoing>, took: seq<bool>, windows: seq<seq<nat>>, used: seq<set<nat>>)
    requires |took| <= |cs| && ChannelsOk(windows, used)
  {
    forall g :: 0 <= g < |took| ==> GuardPassedAt(cs, took, windows, used, g)
  }

  ghost predicate GuardPassedAt(cs: seq<Outgoing>, took: seq<bool>, windows: seq<seq<nat>>, used: seq<set<nat>>, g: nat)
    requires g < |took| <= |cs| && ChannelsOk(windows, used)
  {
    var c := cs[g];
    took[g] && c.attempts == 0 && c.channel < |windows| ==>
      !Blocks(WindowsAfter(windows, cs, took[..g])[c.channel], UsedAfter(used, cs, took[..g])[c.channel], c.sn)
  }

  /** What one more command does to the counters of a pass. */
  lemma AfterNext(windows: seq<seq<nat>>, used: seq<set<nat>>, cs: seq<Outgoing>, took: seq<bool>, b: bool)
    requires |took| < |cs| && ChannelsOk(windows, used)
    ensures var c, w, u := cs[|took|], WindowsAfter(windows, cs, took), UsedAfter(used, cs, took);
      && WindowsAfter(windows, cs, took + [b]) == (if b && c.attempts == 0 then CountUp(w, c.channel, c.sn) else w)
      && UsedAfter(used, cs, took + [b]) == (if b && c.attempts == 0 then BitsUp(u, c.channel, c.sn) else u)
  {
    hide CountUp, BitsUp;
    assert (took + [b])[..|took|] == took;
  }

  lemma {:induction false} AfterNone(windows: seq<seq<nat>>, used: seq<set<nat>>, cs: seq<Outgoing>, took: seq<bool>,
                                     n: nat)
    requires |took| + n <= |cs| && ChannelsOk(windows, used)
    ensures WindowsAfter(windows, cs, took + NoneTaken(n)) == WindowsAfter(windows, cs, took)
    ensures UsedAfter(used, cs, took + NoneTaken(n)) == UsedAfter(used, cs, took)
    decreases n
  {
    hide WindowsAfter, UsedAfter, ChannelsOk;
    if n == 0 {
      assert took + NoneTaken(0) == took;
    } else {
      AfterNone(windows, used, cs, took, n - 1);
      AfterNext(windows, used, cs, took + NoneTaken(n - 1), false);
      assert took + NoneTaken(n) == took + NoneTaken(n - 1) + [false];
    }
  }

  lemma LeftNext(cs: seq<Outgoing>, took: seq<bool>, b: bool)
    requires |took| < |cs|
    ensures Left(cs, took + [b]) == Left(cs, took) + if b then [] else [cs[|took|]]
    ensures Taken(cs, took + [b]) == Taken(cs, took) + if b then [cs[|took|]] else []
  {
    assert (took + [b])[..|took|] == took;
  }

  function NoneTaken(n: nat): (t: seq<bool>)
    ensures |t| == n && forall i :: 0 <= i < n ==> !t[i]
  {
    if n == 0 then [] else NoneTaken(n - 1) + [false]
  }

  lemma {:induction false} LeftRest(cs: seq<Outgoing>, took: seq<bool>, n: nat)
    requires |took| + n <= |cs|
    ensures Left(cs, took + NoneTaken(n)) == Left(cs, took) + cs[|took|..|took| + n]
    ensures Taken(cs, took + NoneTaken(n)) == Taken(cs, took)
    decreases n
  {
    hide Left, Taken;
    var k := |took|;
    if n == 0 {
      assert took + NoneTaken(0) == took;
    } else {
      LeftRest(cs, took, n - 1);
      LeftNext(cs, took + NoneTaken(n - 1), false);
      assert took + NoneTaken(n) == took + NoneTaken(n - 1) + [false];
      assert cs[k..k + n] == cs[k..k + n - 1] + [cs[k + n - 1]];
    }
  }

  // ---------- Why a pass leaves a command behind ----------

  /** What a pass starts from: the counters, the data in flight and how much may be, the size of
      the datagram so far and how large it may get, and how many commands and buffers are left. */
  datatype Begin = Begin(windows: seq<seq<nat>>, used: seq<set<nat>>, inTransit: nat, limit: nat, mtu: nat,
                         packetSize: nat, commands: nat, buffers: nat)

  /** The bytes of commands with their data. */
  function Written(cs: seq<Outgoing>): (n: nat)
  {
    if cs == [] then 0
    else
      var c := cs[|cs| - 1];
      Written(cs[..|cs| - 1]) + c.size + if c.hasPacket then c.length else 0
  }

  /** A buffer for each command and one for its data. */
  function BuffersOf(cs: seq<Outgoing>): (n: nat)
    ensures n >= |cs|
  {
    if cs == [] then 0 else BuffersOf(cs[..|cs| - 1]) + if cs[|cs| - 1].hasPacket then 2 else 1
  }

  /** Command h, never sent, may not open its window, as the counters stand after what was taken of
      the commands before it. */
  ghost predicate GuardStops(b: Begin, cs: seq<Outgoing>, took: seq<bool>, h: nat)
    requires h < |cs| && h <= |took| && ChannelsOk(b.windows, b.used)
  {
    var c := cs[h];
    && c.channel < |b.windows| && c.attempts == 0
    && Blocks(WindowsAfter(b.windows, cs, took[..h])[c.channel], UsedAfter(b.used, cs, took[..h])[c.channel], c.sn)
  }

  /** From such a command on every command of a channel stays. */
  ghost predicate HeldByGuard(b: Begin, cs: seq<Outgoing>, took: seq<bool>, g: nat)
    requires g < |cs| && g <= |took| && ChannelsOk(b.windows, b.used)
  {
    cs[g].channel < |b.windows| && exists h :: 0 <= h <= g && GuardStops(b, cs, took, h)
  }

  /** The data of command h would pass the limit, and the guard does not keep it back already. */
  ghost predicate LimitStops(b: Begin, cs: seq<Outgoing>, took: seq<bool>, h: nat)
    requires h < |cs| && h <= |took| && ChannelsOk(b.windows, b.used)
  {
    && cs[h].hasPacket && !HeldByGuard(b, cs, took, h)
    && b.inTransit + Bytes(Taken(cs, took[..h])) + cs[h].length > b.limit
  }

  /** From such a command on every command with data stays. */
  ghost predicate HeldByLimit(b: Begin, cs: seq<Outgoing>, took: seq<bool>, g: nat)
    requires g < |cs| && g <= |took| && ChannelsOk(b.windows, b.used)
  {
    cs[g].hasPacket && exists h :: 0 <= h <= g && LimitStops(b, cs, took, h)
  }

  /** The commands or the buffers are used up, or command g does not fit the datagram, its size with
      its data compared as 16-bit numbers. */
  ghost predicate NoRoom(b: Begin, cs: seq<Outgoing>, took: seq<bool>, g: nat)
    requires g < |cs| && g <= |took|
  {
    var c, taken := cs[g], Taken(cs, took[..g]);
    var room := b.mtu - (b.packetSize + Written(taken));
    || b.commands <= |taken| || b.buffers <= BuffersOf(taken) + 1 || room < c.size
    || (c.hasPacket && room % 0x1_0000 < (c.size + c.length) % 0x1_0000)
  }

  /** A pass that stopped looking at command number stopped, or at the end: of the commands before it
      exactly those stay that the guard or the limit holds, and it stopped because one that neither
      held had no room. */
  ghost predicate Decides(b: Begin, cs: seq<Outgoing>, took: seq<bool>, stopped: nat)
    requires |took| == |cs| && ChannelsOk(b.windows, b.used)
  {
    && stopped <= |cs|
    && (forall g :: 0 <= g < |cs| ==>
          (took[g] <==> g < stopped && !HeldByGuard(b, cs, took, g) && !HeldByLimit(b, cs, took, g)))
    && (forall g :: 0 <= g < stopped && took[g] ==> !NoRoom(b, cs, took, g))
    && (stopped < |cs| ==>
          !HeldByGuard(b, cs, took, stopped) && !HeldByLimit(b, cs, took, stopped) && NoRoom(b, cs, took, stopped))
  }

  /** The same half way, at command number |took|, with the two flags of the loop. */
  ghost predicate Deciding(b: Begin, cs: seq<Outgoing>, took: seq<bool>, wrap: bool, exceeded: bool)
    requires |took| <= |cs| && ChannelsOk(b.windows, b.used)
  {
    && (forall g :: 0 <= g < |took| ==>
          (took[g] <==> !HeldByGuard(b, cs, took, g) && !HeldByLimit(b, cs, took, g)))
    && (forall g :: 0 <= g < |took| && took[g] ==> !NoRoom(b, cs, took, g))
    && (wrap <==> exists h :: 0 <= h < |took| && GuardStops(b, cs, took, h))
    && (exceeded <==> exists h :: 0 <= h < |took| && LimitStops(b, cs, took, h))
  }

  /** Why command g stays or goes depends on the commands before it alone. */
  lemma SameDecision(b: Begin, cs: seq<Outgoing>, took: seq<bool>, more: seq<bool>, g: nat)
    requires g < |cs| && g <= |took| && took <= more && ChannelsOk(b.windows, b.used)
    ensures GuardStops(b, cs, more, g) == GuardStops(b, cs, took, g)
    ensures HeldByGuard(b, cs, more, g) == HeldByGuard(b, cs, took, g)
    ensures LimitStops(b, cs, more, g) == LimitStops(b, cs, took, g)
    ensures HeldByLimit(b, cs, more, g) == HeldByLimit(b, cs, took, g)
    ensures NoRoom(b, cs, more, g) == NoRoom(b, cs, took, g)
  {
    hide Blocks, WindowsAfter, UsedAfter, ChannelsOk, Bytes, Taken, Written, BuffersOf;
    SameGuards(b, cs, took, more, g);
    assert more[..g] == took[..g];
    forall h: nat | h <= g
      ensures LimitStops(b, cs, more, h) == LimitStops(b, cs, took, h)
    {
      SameGuards(b, cs, took, more, h);
      assert more[..h] == took[..h];
    }
  }

  lemma SameGuards(b: Begin, cs: seq<Outgoing>, took: seq<bool>, more: seq<bool>, g: nat)
    requires g < |cs| && g <= |took| && took <= more && ChannelsOk(b.windows, b.used)
    ensures GuardStops(b, cs, more, g) == GuardStops(b, cs, took, g)
    ensures HeldByGuard(b, cs, more, g) == HeldByGuard(b, cs, took, g)
  {
    hide Blocks, WindowsAfter, UsedAfter, ChannelsOk;
    forall h: nat | h <= g
      ensures GuardStops(b, cs, more, h) == GuardStops(b, cs, took, h)
    {
      assert more[..h] == took[..h];
    }
  }

  lemma DecidingBegins(b: Begin, cs: seq<Outgoing>)
    requires ChannelsOk(b.windows, b.used)
    ensures Deciding(b, cs, [], false, false)
  {
  }

  /** What the flags say about the command the loop looks at. */
  lemma FlagsSay(b: Begin, cs: seq<Outgoing>, took: seq<bool>, wrap: bool, exceeded: bool)
    requires |took| < |cs| && ChannelsOk(b.windows, b.used) && Deciding(b, cs, took, wrap, exceeded)
    ensures var n, c := |took|, cs[|took|];
      && (HeldByGuard(b, cs, took, n) <==> c.channel < |b.windows| && (wrap || GuardStops(b, cs, took, n)))
      && (HeldByLimit(b, cs, took, n) <==> c.hasPacket && (exceeded || LimitStops(b, cs, took, n)))
  {
    hide GuardStops, LimitStops, NoRoom;
  }

  lemma DecidingNext(b: Begin, cs: seq<Outgoing>, took: seq<bool>, wrap: bool, exceeded: bool, x: bool)
    requires |took| < |cs| && ChannelsOk(b.windows, b.used) && Deciding(b, cs, took, wrap, exceeded)
    requires x <==> !HeldByGuard(b, cs, took, |took|) && !HeldByLimit(b, cs, took, |took|)
    requires x ==> !NoRoom(b, cs, took, |took|)
    ensures Deciding(b, cs, took + [x], wrap || GuardStops(b, cs, took, |took|),
                     exceeded || LimitStops(b, cs, took, |took|))
  {
    hide GuardStops, HeldByGuard, LimitStops, HeldByLimit, NoRoom;
    var more := took + [x];
    forall g: nat | g <= |took|
      ensures GuardStops(b, cs, more, g) == GuardStops(b, cs, took, g)
      ensures HeldByGuard(b, cs, more, g) == HeldByGuard(b, cs, took, g)
      ensures LimitStops(b, cs, more, g) == LimitStops(b, cs, took, g)
      ensures HeldByLimit(b, cs, more, g) == HeldByLimit(b, cs, took, g)
      ensures NoRoom(b, cs, more, g) == NoRoom(b, cs, took, g)
    {
      SameDecision(b, cs, took, more, g);
    }
    assert forall g :: 0 <= g < |took| ==> more[g] == took[g];
  }

  /** Nothing behind the command the loop stops at is taken. */
  lemma DecidingEnds(b: Begin, cs: seq<Outgoing>, took: seq<bool>, wrap: bool, exceeded: bool)
    requires |took| <= |cs| && ChannelsOk(b.windows, b.used) && Deciding(b, cs, took, wrap, exceeded)
    requires |took| < |cs| ==>
      !HeldByGuard(b, cs, took, |took|) && !HeldByLimit(b, cs, took, |took|) && NoRoom(b, cs, took, |took|)
    ensures Decides(b, cs, took + NoneTaken(|cs| - |took|), |took|)
  {
    hide GuardStops, HeldByGuard, LimitStops, HeldByLimit, NoRoom;
    var more := took + NoneTaken(|cs| - |took|);
    forall g: nat | g <= |took| && g < |cs|
      ensures HeldByGuard(b, cs, more, g) == HeldByGuard(b, cs, took, g)
      ensures HeldByLimit(b, cs, more, g) == HeldByLimit(b, cs, took, g)
      ensures NoRoom(b, cs, more, g) == NoRoom(b, cs, took, g)
    {
      SameDecision(b, cs, took, more, g);
    }
    assert forall g :: 0 <= g < |took| ==> more[g] == took[g];
    assert forall g :: |took| <= g < |cs| ==> !more[g];
  }

  /** Nothing stands in the way of a queue: it fits the limit and the datagram, and no command would
      open a window. */
  ghost predicate Unhindered(b: Begin, cs: seq<Outgoing>)
  {
    && b.inTransit + Bytes(cs) <= b.limit
    && b.packetSize + Written(cs) <= b.mtu <= 4096 && |cs| <= b.commands && BuffersOf(cs) < b.buffers
    && forall c :: c in cs && c.attempts == 0 && c.channel < |b.windows| ==> c.sn % WINDOW_SIZE != 0
  }

  /** Then one pass sends the whole queue. */
  lemma EverythingIsSent(b: Begin, cs: seq<Outgoing>, took: seq<bool>, stopped: nat)
    requires |took| == |cs| && ChannelsOk(b.windows, b.used) && Decides(b, cs, took, stopped) && Unhindered(b, cs)
    ensures stopped == |cs| && (forall g :: 0 <= g < |cs| ==> took[g]) && Taken(cs, took) == cs && Left(cs, took) == []
  {
    hide Taken, Left, HeldByGuard, HeldByLimit, NoRoom, ChannelsOk, Unhindered;
    forall g: nat | g < |cs|
      ensures !HeldByGuard(b, cs, took, g) && !HeldByLimit(b, cs, took, g) && !NoRoom(b, cs, took, g)
    {
      NothingHolds(b, cs, took, g);
    }
    AllOfThem(cs, took);
    assert cs[..|cs|] == cs;
  }

  lemma NothingHolds(b: Begin, cs: seq<Outgoing>, took: seq<bool>, g: nat)
    requires g < |cs| && g <= |took| && ChannelsOk(b.windows, b.used) && Unhindered(b, cs)
    ensures !HeldByGuard(b, cs, took, g) && !HeldByLimit(b, cs, took, g) && !NoRoom(b, cs, took, g)
  {
    hide GuardStops, LimitStops, ChannelsOk, Unhindered, NoRoom;
    forall h: nat | h <= g
      ensures !GuardStops(b, cs, took, h) && !LimitStops(b, cs, took, h)
    {
      NothingStops(b, cs, took, h);
    }
    NothingStops(b, cs, took, g);
  }

  lemma NothingStops(b: Begin, cs: seq<Outgoing>, took: seq<bool>, h: nat)
    requires h < |cs| && h <= |took| && ChannelsOk(b.windows, b.used) && Unhindered(b, cs)
    ensures !GuardStops(b, cs, took, h) && !LimitStops(b, cs, took, h) && !NoRoom(b, cs, took, h)
  {
    hide Taken, Bytes, Written, BuffersOf, WindowsAfter, UsedAfter, HeldByGuard, ChannelsOk;
    assert cs[h] in cs;
    SumsBelow(cs, took, h);
  }

  lemma SumsBelow(cs: seq<Outgoing>, took: seq<bool>, h: nat)
    requires h < |cs| && h <= |took|
    ensures var c, taken := cs[h], Taken(cs, took[..h]);
      && Bytes(taken) + (if c.hasPacket then c.length else 0) <= Bytes(cs)
      && Written(taken) + c.size + (if c.hasPacket then c.length else 0) <= Written(cs)
      && |taken| < |cs| && BuffersOf(taken) + (if c.hasPacket then 2 else 1) <= BuffersOf(cs)
  {
    hide Taken, Bytes, Written, BuffersOf;
    TakenBelow(cs, took[..h]);
    SumsNext(cs[..h], cs[h]);
    assert cs[..h] + [cs[h]] == cs[..h + 1];
    PrefixBelow(cs, h + 1);
  }

  lemma {:induction false} TakenBelow(cs: seq<Outgoing>, took: seq<bool>)
    requires |took| <= |cs|
    ensures var front, taken := cs[..|took|], Taken(cs, took);
      && Bytes(taken) <= Bytes(front) && Written(taken) <= Written(front) && |taken| <= |took|
      && BuffersOf(taken) <= BuffersOf(front)
    decreases |took|
  {
    hide Taken, Bytes, Written, BuffersOf;
    if took == [] {
      NoneBelow(cs, took);
    } else {
      var n := |took| - 1;
      TakenBelow(cs, took[..n]);
      LeftNext(cs, took[..n], took[n]);
      assert took[..n] + [took[n]] == took && cs[..n] + [cs[n]] == cs[..n + 1];
      SumsNext(cs[..n], cs[n]);
      SumsNext(Taken(cs, took[..n]), cs[n]);
      assert Taken(cs, took[..n]) + [] == Taken(cs, took[..n]);
    }
  }

  lemma NoneBelow(cs: seq<Outgoing>, took: seq<bool>)
    requires took == []
    ensures Taken(cs, took) == [] && Bytes([]) == 0 && Written([]) == 0 && BuffersOf([]) == 0
  {
  }

  lemma {:induction false} PrefixBelow(cs: seq<Outgoing>, n: nat)
    requires n <= |cs|
    ensures Bytes(cs[..n]) <= Bytes(cs) && Written(cs[..n]) <= Written(cs) && BuffersOf(cs[..n]) <= BuffersOf(cs)
    decreases |cs| - n
  {
    hide Bytes, Written, BuffersOf;
    if n == |cs| {
      assert cs[..n] == cs;
    } else {
      SumsNext(cs[..n], cs[n]);
      assert cs[..n] + [cs[n]] == cs[..n + 1];
      PrefixBelow(cs, n + 1);
    }
  }

  lemma {:induction false} AllOfThem(cs: seq<Outgoing>, took: seq<bool>)
    requires |took| <= |cs| && forall g :: 0 <= g < |took| ==> took[g]
    ensures Taken(cs, took) == cs[..|took|] && Left(cs, took) == []
    decreases |took|
  {
    if took != [] {
      var n := |took| - 1;
      AllOfThem(cs, took[..n]);
      assert cs[..n] + [cs[n]] == cs[..n + 1];
    }
  }

  /** What the loop has used up for the commands it took. */
  ghost predicate Spent(b: Begin, cs: seq<Outgoing>, took: seq<bool>, inTransit: nat, size: nat, commandsLeft: nat,
                        buffersLeft: nat, canPing: bool)
    requires |took| <= |cs|
  {
    var taken := Taken(cs, took);
    && inTransit == b.inTransit + Bytes(taken) && (Bytes(taken) > 0 ==> inTransit <= b.limit)
    && size == b.packetSize + Written(taken) && size <= b.mtu
    && commandsLeft + |taken| == b.commands && buffersLeft + BuffersOf(taken) == b.buffers
    && (canPing <==> taken == [])
  }

  lemma SpentBegins(b: Begin, cs: seq<Outgoing>)
    requires b.packetSize <= b.mtu
    ensures Spent(b, cs, [], b.inTransit, b.packetSize, b.commands, b.buffers, true)
    ensures forall now, rtt, timeoutLimit :: Stamped([], Taken(cs, []), now, rtt, timeoutLimit)
  {
  }

  lemma SpentNext(b: Begin, cs: seq<Outgoing>, took: seq<bool>, inTransit: nat, size: nat, commandsLeft: nat,
                  buffersLeft: nat, canPing: bool)
    requires |took| < |cs| && Spent(b, cs, took, inTransit, size, commandsLeft, buffersLeft, canPing)
    ensures Spent(b, cs, took + [false], inTransit, size, commandsLeft, buffersLeft, canPing)
    ensures var c := cs[|took|];
      commandsLeft > 0 && buffersLeft > 1 && size + c.size + (if c.hasPacket then c.length else 0) <= b.mtu
      && (c.hasPacket ==> inTransit + c.length <= b.limit) ==>
        Spent(b, cs, took + [true], inTransit + (if c.hasPacket then c.length else 0),
              size + c.size + (if c.hasPacket then c.length else 0), commandsLeft - 1,
              buffersLeft - (if c.hasPacket then 2 else 1), false)
  {
    hide Taken, Bytes, Written, BuffersOf;
    LeftNext(cs, took, false);
    LeftNext(cs, took, true);
    assert Taken(cs, took) + [] == Taken(cs, took);
    SumsNext(Taken(cs, took), cs[|took|]);
  }

  lemma SumsNext(cs: seq<Outgoing>, c: Outgoing)
    ensures Bytes(cs + [c]) == Bytes(cs) + if c.hasPacket then c.length else 0
    ensures Written(cs + [c]) == Written(cs) + c.size + if c.hasPacket then c.length else 0
    ensures BuffersOf(cs + [c]) == BuffersOf(cs) + if c.hasPacket then 2 else 1
  {
    assert (cs + [c])[..|cs|] == cs;
  }

  // ---------- Times ----------

  const TIME_OVERFLOW := 86400000

  function TimeLess(a: u32, b: u32): (r: bool)
  {
    (a - b) % 0x1_0000_0000 >= TIME_OVERFLOW
  }

  function TimeDifference(a: u32, b: u32): (d: u32)
  {
    if (a - b) % 0x1_0000_0000 >= TIME_OVERFLOW then (b - a) % 0x1_0000_0000 else (a - b) % 0x1_0000_0000
  }

  predicate TimedOut(c: Outgoing, now: u32)
  {
    TimeDifference(now, c.sentTime) >= c.timeout
  }

  /** When the timer of a command runs out. */
  function Due(c: Outgoing): (time: u32)
  {
    (c.sentTime + c.timeout) % 0x1_0000_0000
  }

  /** Sent less than a day ago, with a timer of less than a day. */
  predicate Recent(c: Outgoing, now: u32)
  {
    (now - c.sentTime) % 0x1_0000_0000 < TIME_OVERFLOW && c.timeout < TIME_OVERFLOW
  }

  /** The test that decides on a check agrees with the test the check makes. */
  lemma DueIffTimedOut(c: Outgoing, now: u32)
    requires Recent(c, now)
    ensures !TimeLess(now, Due(c)) <==> TimedOut(c, now)
  {
    var t := now - (now - c.sentTime) % 0x1_0000_0000;
    Whole(c.sentTime, now);
    TimeDifferenceExact(now, t);
    TimeDifferenceExact(now, t + c.timeout);
    WordSum(t, c.timeout);
  }

  lemma Whole(sentTime: u32, now: u32)
    ensures (now - (now - sentTime) % 0x1_0000_0000) % 0x1_0000_0000 == sentTime && now % 0x1_0000_0000 == now
  {
  }

  lemma WordSum(a: int, b: nat)
    ensures (a % 0x1_0000_0000 + b) % 0x1_0000_0000 == (a + b) % 0x1_0000_0000
  {
    WrapDifference(a, 0 - b);
    WrapDifference(a % 0x1_0000_0000, 0 - b);
  }

  /** Only the first command's timer counts: the second ran out 100 ms ago and nothing is checked for
      half a second more. */
  lemma LaterMustWait()
    ensures var first := Outgoing(0, 1, 2, true, 10, 6, 0, 1000, 3200);
      var second := Outgoing(0, 2, 1, true, 10, 6, 100, 300, 960);
      TimedOut(second, 500) && TimeLess(500, Due(first)) && TimeLess(999, Due(first)) && !TimeLess(1000, Due(first))
  {
  }

  /** The commands of a list whose timers ran out, with doubled timers, and the others. */
  function Expired(cs: seq<Outgoing>, now: u32): (r: seq<Outgoing>)
  {
    if cs == [] then []
    else
      var c := cs[|cs| - 1];
      Expired(cs[..|cs| - 1], now) + if TimedOut(c, now) then [c.(timeout := c.timeout * 2)] else []
  }

  function Waiting(cs: seq<Outgoing>, now: u32): (r: seq<Outgoing>)
  {
    if cs == [] then []
    else
      var c := cs[|cs| - 1];
      Waiting(cs[..|cs| - 1], now) + if TimedOut(c, now) then [] else [c]
  }

  lemma ExpiredNext(cs: seq<Outgoing>, k: nat, now: u32)
    requires k < |cs|
    ensures Expired(cs[..k + 1], now)
         == Expired(cs[..k], now) + if TimedOut(cs[k], now) then [cs[k].(timeout := cs[k].timeout * 2)] else []
    ensures Waiting(cs[..k + 1], now) == Waiting(cs[..k], now) + if TimedOut(cs[k], now) then [] else [cs[k]]
  {
    assert cs[..k + 1][..k] == cs[..k];
  }

  /** The positions of the commands whose timers ran out, that is for which the time since they were
      sent has reached their timeout, or of the others. */
  ghost predicate RanOut(at: seq<nat>, cs: seq<Outgoing>, now: u32, yes: bool)
  {
    && Ascends(at, |cs|)
    && forall i :: 0 <= i < |cs| ==> (i in at <==> (TimeDifference(now, cs[i].sentTime) >= cs[i].timeout) == yes)
  }

  lemma RanOutNext(at: seq<nat>, cs: seq<Outgoing>, now: u32, yes: bool) returns (at': seq<nat>)
    requires cs != [] && RanOut(at, cs[..|cs| - 1], now, yes)
    ensures RanOut(at', cs, now, yes)
    ensures var c := cs[|cs| - 1];
      at' == if (TimeDifference(now, c.sentTime) >= c.timeout) == yes then at + [|cs| - 1] else at
  {
    hide TimeDifference, Ascends;
    var n := |cs| - 1;
    AscendsMore(at, n);
    if (TimeDifference(now, cs[n].sentTime) >= cs[n].timeout) == yes {
      at' := AscendsNext(at, n);
    } else {
      at' := at;
    }
    assert forall i :: 0 <= i < n ==> cs[..n][i] == cs[i];
  }

  /** What goes back to the queue, with doubled timers, in order. */
  lemma {:induction false} ExpiredAre(cs: seq<Outgoing>, now: u32) returns (due: seq<nat>)
    ensures RanOut(due, cs, now, true) && |Expired(cs, now)| == |due|
    ensures forall k :: 0 <= k < |due| ==> due[k] < |cs|
    ensures forall k :: 0 <= k < |due| ==> Expired(cs, now)[k] == cs[due[k]].(timeout := cs[due[k]].timeout * 2)
    decreases |cs|
  {
    hide TimedOut, TimeDifference, RanOut, Ascends, Expired, Waiting;
    NoneExpired(now);
    NoneRanOut(now, true);
    due := [];
    if cs != [] {
      var n := |cs| - 1;
      var before := ExpiredAre(cs[..n], now);
      due := RanOutNext(before, cs, now, true);
      RanOutAscends(before, cs[..n], now, true);
      RanOutAscends(due, cs, now, true);
      assert cs[..n + 1] == cs;
      ExpiredNext(cs, n, now);
      TimedOutIs(cs[n], now);
      assert Expired(cs[..n], now) + [] == Expired(cs[..n], now);
      DoubledMore(cs, before, due, Expired(cs[..n], now), Expired(cs, now));
    }
  }

  /** What stays, as it was, in order. */
  lemma {:induction false} WaitingAre(cs: seq<Outgoing>, now: u32) returns (waits: seq<nat>)
    ensures RanOut(waits, cs, now, false) && |Waiting(cs, now)| == |waits|
    ensures forall k :: 0 <= k < |waits| ==> waits[k] < |cs|
    ensures forall k :: 0 <= k < |waits| ==> Waiting(cs, now)[k] == cs[waits[k]]
    decreases |cs|
  {
    hide TimedOut, TimeDifference, RanOut, Ascends, Expired, Waiting;
    NoneExpired(now);
    NoneRanOut(now, false);
    waits := [];
    if cs != [] {
      var n := |cs| - 1;
      var before := WaitingAre(cs[..n], now);
      waits := RanOutNext(before, cs, now, false);
      RanOutAscends(before, cs[..n], now, false);
      RanOutAscends(waits, cs, now, false);
      assert cs[..n + 1] == cs;
      ExpiredNext(cs, n, now);
      TimedOutIs(cs[n], now);
      assert Waiting(cs[..n], now) + [] == Waiting(cs[..n], now);
      PickedMore(cs, before, waits, Waiting(cs[..n], now), Waiting(cs, now));
    }
  }

  lemma DoubledMore(cs: seq<Outgoing>, before: seq<nat>, at: seq<nat>, r: seq<Outgoing>, r': seq<Outgoing>)
    requires cs != [] && |r| == |before| && forall k :: 0 <= k < |before| ==> before[k] < |cs| - 1
    requires forall k :: 0 <= k < |r| ==> r[k] == cs[..|cs| - 1][before[k]].(timeout := cs[before[k]].timeout * 2)
    requires var c := cs[|cs| - 1];
      (at == before && r' == r) || (at == before + [|cs| - 1] && r' == r + [c.(timeout := c.timeout * 2)])
    ensures |r'| == |at| && forall k :: 0 <= k < |at| ==> at[k] < |cs|
    ensures forall k :: 0 <= k < |at| ==> r'[k] == cs[at[k]].(timeout := cs[at[k]].timeout * 2)
  {
  }

  lemma PickedMore(cs: seq<Outgoing>, before: seq<nat>, at: seq<nat>, r: seq<Outgoing>, r': seq<Outgoing>)
    requires cs != [] && |r| == |before| && forall k :: 0 <= k < |before| ==> before[k] < |cs| - 1
    requires forall k :: 0 <= k < |r| ==> r[k] == cs[..|cs| - 1][before[k]]
    requires (at == before && r' == r) || (at == before + [|cs| - 1] && r' == r + [cs[|cs| - 1]])
    ensures |r'| == |at| && forall k :: 0 <= k < |at| ==> at[k] < |cs|
    ensures forall k :: 0 <= k < |at| ==> r'[k] == cs[at[k]]
  {
  }

  lemma NoneRanOut(now: u32, yes: bool)
    ensures RanOut([], [], now, yes) && Ascends([], 0)
  {
  }

  lemma RanOutAscends(at: seq<nat>, cs: seq<Outgoing>, now: u32, yes: bool)
    requires RanOut(at, cs, now, yes)
    ensures Ascends(at, |cs|) && forall k :: 0 <= k < |at| ==> at[k] < |cs|
  {
  }

  lemma TimedOutIs(c: Outgoing, now: u32)
    ensures TimedOut(c, now) <==> TimeDifference(now, c.sentTime) >= c.timeout
  {
  }

  /** Positions in a list of n, in order. */
  predicate Ascends(at: seq<nat>, n: nat)
  {
    && (forall k :: 0 <= k < |at| ==> at[k] < n)
    && (forall k, l :: 0 <= k < l < |at| ==> at[k] < at[l])
  }

  lemma AscendsMore(at: seq<nat>, n: nat)
    requires Ascends(at, n)
    ensures Ascends(at, n + 1) && n !in at
  {
  }

  lemma AscendsNext(at: seq<nat>, n: nat) returns (at': seq<nat>)
    requires Ascends(at, n)
    ensures at' == at + [n] && Ascends(at', n + 1) && n !in at
    ensures forall i :: i in at' <==> i in at || i == n
  {
    at' := at + [n];
  }

  /** Times less than a day apart are compared exactly, whichever is the later. */
  lemma TimeDifferenceExact(a: int, b: int)
    requires -TIME_OVERFLOW < a - b < TIME_OVERFLOW
    ensures TimeDifference(a % 0x1_0000_0000, b % 0x1_0000_0000) == if a >= b then a - b else b - a
    ensures TimeLess(a % 0x1_0000_0000, b % 0x1_0000_0000) <==> a < b
  {
    WrapDifference(a, b);
    WrapDifference(b, a);
    SmallDifference(a - b);
    SmallDifference(b - a);
  }

  lemma SmallDifference(d: int)
    requires -TIME_OVERFLOW < d < TIME_OVERFLOW
    ensures d % 0x1_0000_0000 == if d >= 0 then d else d + 0x1_0000_0000
  {
  }

  lemma WrapDifference(a: int, b: int)
    ensures (a % 0x1_0000_0000 - b % 0x1_0000_0000) % 0x1_0000_0000 == (a - b) % 0x1_0000_0000
  {
    var m := 0x1_0000_0000;
    var k := a / m - b / m;
    assert a - b == (a % m - b % m) + m * k;
  }

  /** The time of the earliest sending that ran out since the peer was last heard. */
  function Earliest(from: u32, cs: seq<Outgoing>, now: u32): (e: u32)
  {
    if cs == [] then from
    else
      var e, c := Earliest(from, cs[..|cs| - 1], now), cs[|cs| - 1];
      if TimeDifference(now, c.sentTime) >= c.timeout && (e == 0 || TimeLess(c.sentTime, e)) then c.sentTime else e
  }

  /** The peer is given up at command n: its timer ran out, and since the earliest such sending the
      longest silence has passed, or the shortest and its timer has grown to its limit. */
  ghost predicate GivesUpAt(cs: seq<Outgoing>, n: nat, from: u32, now: u32, minimum: u32, maximum: u32)
    requires n < |cs|
  {
    var c, e := cs[n], Earliest(from, cs[..n + 1], now);
    && TimeDifference(now, c.sentTime) >= c.timeout && e != 0
    && (|| TimeDifference(now, e) >= maximum
        || (c.timeout >= c.limit && TimeDifference(now, e) >= minimum))
  }

  lemma EarliestNext(from: u32, cs: seq<Outgoing>, k: nat, now: u32)
    requires k < |cs|
    ensures var e, c := Earliest(from, cs[..k], now), cs[k];
      Earliest(from, cs[..k + 1], now)
        == if TimedOut(c, now) && (e == 0 || TimeLess(c.sentTime, e)) then c.sentTime else e
  {
    assert cs[..k + 1][..k] == cs[..k];
  }

  lemma GivesUpIs(cs: seq<Outgoing>, n: nat, from: u32, now: u32, minimum: u32, maximum: u32)
    requires n < |cs|
    ensures var c, e := cs[n], Earliest(from, cs[..n + 1], now);
      GivesUpAt(cs, n, from, now, minimum, maximum) <==>
        TimedOut(c, now) && e != 0
        && (TimeDifference(now, e) >= maximum || (c.timeout >= c.limit && TimeDifference(now, e) >= minimum))
  {
    hide TimeDifference, Earliest;
  }

  /** Where the loop of check_timeouts stands after the first n commands: those that wait come before
      the rest in one list, those that ran out before the rest of the other. */
  ghost predicate Checked(was: seq<Outgoing>, queue: seq<Outgoing>, from: u32, now: u32, minimum: u32, maximum: u32,
                          n: nat, sent: seq<Outgoing>, outgoing: seq<Outgoing>, earliest: u32, k: nat, p: nat)
  {
    && n <= |was|
    && sent == Waiting(was[..n], now) + was[n..] && k == |Waiting(was[..n], now)|
    && outgoing == Expired(was[..n], now) + queue && p == |Expired(was[..n], now)|
    && (forall i :: 0 <= i < p ==> Expired(was[..n], now)[i].attempts > 0)
    && earliest == Earliest(from, was[..n], now)
    && forall m :: 0 <= m < n ==> !GivesUpAt(was, m, from, now, minimum, maximum)
  }

  lemma CheckBegins(was: seq<Outgoing>, queue: seq<Outgoing>, from: u32, now: u32, minimum: u32, maximum: u32)
    ensures Checked(was, queue, from, now, minimum, maximum, 0, was, queue, from, 0, 0)
  {
    hide GivesUpAt;
    assert was[..0] == [] && [] + queue == queue && [] + was[0..] == was;
  }

  /** One turn of the loop: the command is kept, or given up, or moved. */
  lemma CheckAt(was: seq<Outgoing>, queue: seq<Outgoing>, from: u32, now: u32, minimum: u32, maximum: u32, n: nat,
                sent: seq<Outgoing>, outgoing: seq<Outgoing>, earliest: u32, k: nat, p: nat)
    requires Checked(was, queue, from, now, minimum, maximum, n, sent, outgoing, earliest, k, p) && k < |sent|
    requires sent[k].attempts > 0
    ensures n < |was| && p <= |outgoing| && (forall i :: 0 <= i < p ==> outgoing[i].attempts > 0)
    ensures !TimedOut(sent[k], now) ==>
      Checked(was, queue, from, now, minimum, maximum, n + 1, sent, outgoing, earliest, k + 1, p)
    ensures TimedOut(sent[k], now) ==>
      var c := sent[k];
      var e := if earliest == 0 || TimeLess(c.sentTime, earliest) then c.sentTime else earliest;
      if e != 0
         && (TimeDifference(now, e) >= maximum || (c.timeout >= c.limit && TimeDifference(now, e) >= minimum))
      then
        && GivesUpAt(was, n, from, now, minimum, maximum)
        && (forall m :: 0 <= m < n ==> !GivesUpAt(was, m, from, now, minimum, maximum))
        && sent == Waiting(was[..n], now) + was[n..] && outgoing == Expired(was[..n], now) + queue
        && e == Earliest(from, was[..n + 1], now)
      else
        Checked(was, queue, from, now, minimum, maximum, n + 1, sent[..k] + sent[k + 1..],
                outgoing[..p] + [c.(timeout := c.timeout * 2)] + outgoing[p..], e, k, p + 1)
  {
    hide TimedOut, Waiting, Expired, TimeLess, TimeDifference, Earliest, GivesUpAt;
    SplitHere(sent, Waiting(was[..n], now), was, n);
    ExpiredNext(was, n, now);
    EarliestNext(from, was, n, now);
    GivesUpIs(was, n, from, now, minimum, maximum);
    var w, x := Waiting(was[..n], now), Expired(was[..n], now);
    assert w + [was[n]] + was[n + 1..] == sent && w + [] == w && x + [] == x;
    assert outgoing[..p] == x && outgoing[p..] == queue;
  }

  lemma CheckEnds(was: seq<Outgoing>, queue: seq<Outgoing>, from: u32, now: u32, minimum: u32, maximum: u32, n: nat,
                  sent: seq<Outgoing>, outgoing: seq<Outgoing>, earliest: u32, k: nat, p: nat)
    requires Checked(was, queue, from, now, minimum, maximum, n, sent, outgoing, earliest, k, p) && k >= |sent|
    ensures n == |was| && sent == Waiting(was, now) && outgoing == Expired(was, now) + queue
    ensures sent == Waiting(was[..n], now) + was[n..] && outgoing == Expired(was[..n], now) + queue
    ensures earliest == Earliest(from, was, now)
    ensures forall m :: 0 <= m < n ==> !GivesUpAt(was, m, from, now, minimum, maximum)
  {
    hide Waiting, Expired, Earliest, GivesUpAt;
    assert n == |was|;
    assert was[..n] == was && was[n..] == [];
  }

  // ---------- The peer ----------

  class Peer {
    const channelCount: nat
    const timeoutLimit: nat
    const timeoutMinimum: u32
    const timeoutMaximum: u32

    var sent: seq<Outgoing>
    var outgoing: seq<Outgoing>
    var windows: seq<seq<nat>>
    var used: seq<set<nat>>
    var inTransit: nat
    var earliestTimeout: u32
    var nextTimeout: u32

    /** reliableDataInTransit is the bytes of the commands sent and not acknowledged;
        reliableWindows counts, per channel and window, the commands sent at least once and not
        acknowledged, with the used bit set exactly where the count is not zero; commands to be
        sent again come first. */
    ghost predicate Valid()
      reads this`sent, this`outgoing, this`windows, this`used, this`inTransit
    {
      && |windows| == channelCount <= 255
      && inTransit == Bytes(sent)
      && AllCounted(windows, used, sent, outgoing)
      && AllSent(sent) && RetriedFirst(outgoing)
    }

    /** The next check is due when the timer of the first command in flight runs out. */
    ghost predicate TimerSet()
      reads this`sent, this`nextTimeout
    {
      sent != [] ==> nextTimeout == Due(sent[0])
    }

    constructor (channelCount: nat, timeoutLimit: nat, timeoutMinimum: u32, timeoutMaximum: u32)
      requires channelCount <= 255
      ensures Valid() && TimerSet() && sent == [] && outgoing == [] && this.channelCount == channelCount
      ensures this.timeoutLimit == timeoutLimit && this.timeoutMinimum == timeoutMinimum
      ensures this.timeoutMaximum == timeoutMaximum
    {
      this.channelCount := channelCount;
      this.timeoutLimit, this.timeoutMinimum, this.timeoutMaximum := timeoutLimit, timeoutMinimum, timeoutMaximum;
      sent, outgoing, inTransit, earliestTimeout, nextTimeout := [], [], 0, 0, 0;
      windows, used := Empty(channelCount), Unused(channelCount);
    }

    /** enet_peer_setup_outgoing_command of a numbered reliable command. */
    method Queue(c: Outgoing)
      requires Valid() && c.attempts == 0
      modifies this`outgoing
      ensures Valid() && outgoing == old(outgoing) + [c]
    {
      hide InFlight, UsedOk;
      CountedQueued(windows, used, sent, outgoing, c);
      outgoing := outgoing + [c];
    }

    /** enet_protocol_remove_sent_reliable_command: finds the command an acknowledgement names,
        unless it was never sent, and no other command is touched. */
    method RemoveSent(sn: u16, channel: u8) returns (found: bool, ghost c: Outgoing)
      requires Valid()
      modifies this`sent, this`outgoing, this`windows, this`used, this`inTransit, this`nextTimeout
      ensures nextTimeout == if found && sent != [] then Due(sent[0]) else old(nextTimeout)
      ensures Valid()
      ensures found <==> exists x :: x in old(sent) + old(outgoing) && x.attempts > 0 && Names(x, sn, channel)
      ensures !found ==> sent == old(sent) && outgoing == old(outgoing)
      ensures found ==>
        && Names(c, sn, channel) && c.attempts > 0
        && (|| (Without(old(sent), sent, c) && outgoing == old(outgoing))
            || (Without(old(outgoing), outgoing, c) && sent == old(sent)
                && forall x :: x in sent ==> !Names(x, sn, channel)))
    {
      hide InFlight, Bytes, Counted, AllCounted, UsedOk, AllSent, RetriedFirst, Names, Without, CountDown, BitsDown;
      c := Outgoing(0, 0, 0, false, 0, 0, 0, 0, 0);
      var k: nat := 0;
      while k < |sent| && !Names(sent[k], sn, channel)
        invariant k <= |sent|
        invariant forall i :: 0 <= i < k ==> !Names(sent[i], sn, channel)
      {
        k := k + 1;
      }
      if k < |sent| {
        c := sent[k];
        NamesAre(c, sn, channel);
        assert sent[k] in sent + outgoing;
        WithoutNow(sent, k);
        TakeSent(k);
        if sent != [] {
          nextTimeout := Due(sent[0]);
        }
        return true, c;
      }
      k := 0;
      while k < |outgoing| && outgoing[k].attempts > 0 && !Names(outgoing[k], sn, channel)
        invariant k <= |outgoing|
        invariant forall i :: 0 <= i < k ==> outgoing[i].attempts > 0 && !Names(outgoing[i], sn, channel)
      {
        k := k + 1;
      }
      if k == |outgoing| || outgoing[k].attempts < 1 {
        NeverSent(sent, outgoing, k, sn, channel);
        return false, c;
      }
      c := outgoing[k];
      NamesAre(c, sn, channel);
      assert outgoing[k] in sent + outgoing;
      WithoutNow(outgoing, k);
      TakeRetried(k);
      if sent != [] {
        nextTimeout := Due(sent[0]);
      }
      return true, c;
    }

    /** Command k of the sent list is gone, with its bytes and its count. */
    method TakeSent(k: nat)
      requires Valid() && k < |sent|
      modifies this`sent, this`windows, this`used, this`inTransit
      ensures Valid() && sent == old(sent)[..k] + old(sent)[k + 1..] && old(sent)[k].attempts > 0
    {
      hide InFlight, Bytes, Counted, AllCounted, UsedOk, AllSent, RetriedFirst, CountDown, BitsDown;
      SentWasSent(sent, k);
      Uncounted(windows, used, sent, outgoing, k, true);
      SentWithout(sent, k);
      inTransit := inTransit - if sent[k].hasPacket then sent[k].length else 0;
      Uncount(sent[k].sn, sent[k].channel);
      sent := sent[..k] + sent[k + 1..];
    }

    /** Command k of the queue is gone; its bytes were taken off when its timer ran out. */
    method TakeRetried(k: nat)
      requires Valid() && k < |outgoing| && outgoing[k].attempts > 0
      modifies this`outgoing, this`windows, this`used
      ensures Valid() && outgoing == old(outgoing)[..k] + old(outgoing)[k + 1..]
    {
      hide InFlight, Bytes, Counted, AllCounted, UsedOk, AllSent, RetriedFirst, CountDown, BitsDown;
      Uncounted(windows, used, sent, outgoing, k, false);
      RetriedWithout(outgoing, k);
      Uncount(outgoing[k].sn, outgoing[k].channel);
      outgoing := outgoing[..k] + outgoing[k + 1..];
    }

    /** The window counter of an acknowledged number. */
    method Uncount(sn: u16, channel: u8)
      requires |windows| == |used| == channelCount && forall ch :: 0 <= ch < |windows| ==> |windows[ch]| == WINDOWS
      requires channel < channelCount ==> windows[channel][sn / WINDOW_SIZE] > 0
      modifies this`windows, this`used
      ensures windows == CountDown(old(windows), channel, sn)
      ensures used == BitsDown(old(windows), old(used), channel, sn)
    {
      if channel < channelCount {
        var w := sn / WINDOW_SIZE;
        if windows[channel][w] > 0 {
          windows := windows[channel := windows[channel][w := windows[channel][w] - 1]];
          if windows[channel][w] == 0 {
            used := used[channel := used[channel] - {w}];
          }
        }
      }
    }

    /** enet_protocol_check_timeouts: commands whose timers ran out go to the front of the queue,
        in order; nothing is lost, and retried commands stay first. Gives up exactly when there is a
        command at which the peer has been silent too long, at the first one: those before it have
        moved by then. */
    method CheckTimeouts(now: u32) returns (gaveUp: bool, ghost n: nat)
      requires Valid()
      modifies this`sent, this`outgoing, this`inTransit, this`earliestTimeout, this`nextTimeout
      ensures old(TimerSet()) ==> TimerSet()
      ensures Valid() && n <= |old(sent)|
      ensures gaveUp <==> n < |old(sent)|
      ensures n < |old(sent)| ==> GivesUpAt(old(sent), n, old(earliestTimeout), now, timeoutMinimum, timeoutMaximum)
      ensures forall m :: 0 <= m < n ==>
        !GivesUpAt(old(sent), m, old(earliestTimeout), now, timeoutMinimum, timeoutMaximum)
      ensures sent == Waiting(old(sent)[..n], now) + old(sent)[n..]
      ensures outgoing == Expired(old(sent)[..n], now) + old(outgoing)
      ensures earliestTimeout
           == Earliest(old(earliestTimeout), if gaveUp then old(sent)[..n + 1] else old(sent), now)
      ensures !gaveUp ==> sent == Waiting(old(sent), now) && outgoing == Expired(old(sent), now) + old(outgoing)
    {
      hide Valid, TimedOut, Waiting, Expired, TimeLess, TimeDifference, Earliest, GivesUpAt, TimerSet, Checked;
      ghost var was, queue, from := sent, outgoing, earliestTimeout;
      n := 0;
      var k: nat, inserted: nat := 0, 0;
      CheckBegins(was, queue, from, now, timeoutMinimum, timeoutMaximum);
      while k < |sent|
        invariant old(TimerSet()) ==> TimerSet()
        invariant Valid() && k <= |sent|
        invariant Checked(was, queue, from, now, timeoutMinimum, timeoutMaximum, n, sent, outgoing, earliestTimeout, k,
          inserted)
        decreases |sent| - k
      {
        var c := sent[k];
        WasSent(k);
        CheckAt(was, queue, from, now, timeoutMinimum, timeoutMaximum, n, sent, outgoing, earliestTimeout, k, inserted);
        if !TimedOut(c, now) {
          k := k + 1;
        } else {
          if earliestTimeout == 0 || TimeLess(c.sentTime, earliestTimeout) {
            earliestTimeout := c.sentTime;
          }
          if earliestTimeout != 0
             && (|| TimeDifference(now, earliestTimeout) >= timeoutMaximum
                 || (c.timeout >= c.limit && TimeDifference(now, earliestTimeout) >= timeoutMinimum)) {
            return true, n;
          }
          MoveBack(k, inserted);
          inserted := inserted + 1;
        }
        n := n + 1;
      }
      CheckEnds(was, queue, from, now, timeoutMinimum, timeoutMaximum, n, sent, outgoing, earliestTimeout, k, inserted);
      return false, n;
    }

    lemma WasSent(k: nat)
      requires Valid() && k < |sent|
      ensures sent[k].attempts > 0
    {
      SentWasSent(sent, k);
    }

    /** The timers are looked at only when that of the first command has run out; then that command goes
        back to the queue, unless the peer is given up. */
    method CheckWhenDue(now: u32) returns (gaveUp: bool)
      requires Valid() && TimerSet() && (sent != [] ==> Recent(sent[0], now))
      modifies this`sent, this`outgoing, this`inTransit, this`earliestTimeout, this`nextTimeout
      ensures Valid() && TimerSet()
      ensures gaveUp <==>
        && old(sent) != [] && TimedOut(old(sent)[0], now)
        && exists n :: 0 <= n < |old(sent)|
             && GivesUpAt(old(sent), n, old(earliestTimeout), now, timeoutMinimum, timeoutMaximum)
      ensures !gaveUp ==>
        if old(sent) != [] && TimedOut(old(sent)[0], now)
        then sent == Waiting(old(sent), now) && outgoing == Expired(old(sent), now) + old(outgoing)
        else sent == old(sent) && outgoing == old(outgoing) && earliestTimeout == old(earliestTimeout)
    {
      hide Valid, GivesUpAt, TimeDifference, TimedOut, Due, Recent, TimeLess, Waiting, Expired;
      if sent != [] {
        DueIffTimedOut(sent[0], now);
      }
      gaveUp := false;
      if sent != [] && !TimeLess(now, nextTimeout) {
        ghost var n;
        gaveUp, n := CheckTimeouts(now);
      }
    }

    /** Command k of the sent list goes back to the queue, behind the first p of it; the timer of the
        one that is first now is set if it was the first. */
    method MoveBack(k: nat, p: nat)
      requires Valid() && k < |sent| && p <= |outgoing|
      requires forall i :: 0 <= i < p ==> outgoing[i].attempts > 0
      modifies this`sent, this`outgoing, this`inTransit, this`nextTimeout
      ensures nextTimeout == if k == 0 && sent != [] then Due(sent[0]) else old(nextTimeout)
      ensures old(TimerSet()) ==> TimerSet()
      ensures Valid() && sent == old(sent)[..k] + old(sent)[k + 1..]
      ensures outgoing == old(outgoing)[..p] + [old(sent)[k].(timeout := old(sent)[k].timeout * 2)] + old(outgoing)[p..]
      ensures old(sent)[k].attempts > 0
    {
      hide InFlight, Bytes, UsedOk, AllCounted, AllSent, RetriedFirst;
      SentWasSent(sent, k);
      BackAccounted(windows, used, sent, outgoing, k, p);
      inTransit := inTransit - if sent[k].hasPacket then sent[k].length else 0;
      var c := sent[k].(timeout := sent[k].timeout * 2);
      sent, outgoing := sent[..k] + sent[k + 1..], outgoing[..p] + [c] + outgoing[p..];
      if k == 0 && sent != [] {
        nextTimeout := Due(sent[0]);
      }
    }

    /** enet_protocol_send_reliable_outgoing_commands: one pass over the queue, filling one
        datagram. took tells which commands were sent, and stopped at which one the pass ended for
        want of room. A command stays for one of three reasons and no other: a first command of a
        window at or before it did not pass the guard, data at or before it would have passed the
        limit, or the pass had ended. A ping may be sent when the pass wanted to send nothing. */
    method SendReliable(now: u32, limit: nat, mtu: nat, packetSize: nat, commands: nat, buffers: nat, rtt: nat)
      returns (size: nat, canPing: bool, continueSending: bool, ghost took: seq<bool>, ghost again: seq<Outgoing>,
               ghost stopped: nat)
      requires Valid() && packetSize <= mtu <= 4096
      requires forall c :: c in outgoing ==> c.size + c.length <= 0xFFFF
      modifies this`sent, this`outgoing, this`windows, this`used, this`inTransit, this`nextTimeout
      ensures old(TimerSet()) ==> TimerSet()
      ensures Valid() && |took| == |old(outgoing)| && ChannelsOk(old(windows), old(used))
      ensures outgoing == Left(old(outgoing), took)
      ensures sent == old(sent) + again && SentAgain(again, Taken(old(outgoing), took))
      ensures Stamped(again, Taken(old(outgoing), took), now, rtt, timeoutLimit)
      ensures Decides(Begin(old(windows), old(used), old(inTransit), limit, mtu, packetSize, commands, buffers),
        old(outgoing), took, stopped)
      ensures continueSending <==> stopped < |old(outgoing)|
      ensures canPing <==> !continueSending && again == []
      ensures InOrder(old(outgoing), took, channelCount)
      ensures GuardKept(old(outgoing), took, old(windows), old(used))
      ensures windows == WindowsAfter(old(windows), old(outgoing), took)
      ensures used == UsedAfter(old(used), old(outgoing), took)
      ensures inTransit == old(inTransit) + Bytes(again) && (again != [] && Bytes(again) > 0 ==> inTransit <= limit)
      ensures size == packetSize + Written(again) && size <= mtu
    {
      hide Valid, Bytes, InFlight, AllCounted, UsedOk, Left, Taken, SentAgain, InOrder, GuardKept, Blocks, WindowsAfter,
        UsedAfter,
           ChannelsOk, Pass, AllDataTaken, Deciding, Decides, Spent, Stamped, Written;
      ghost var was, sent0, windows0, used0 := outgoing, sent, windows, used;
      ghost var b := Begin(windows, used, inTransit, limit, mtu, packetSize, commands, buffers);
      ghost var spare := true;
      var windowExceeded, windowWrap := false, false;
      var k: nat, commandsLeft: nat, buffersLeft: nat := 0, commands, buffers;
      size, canPing, continueSending, took, again, stopped := packetSize, true, false, [], [], 0;
      Channels();
      PassBegins(was, sent0, windows0, used0);
      DecidingBegins(b, was);
      SpentBegins(b, was);
      while k < |outgoing|
        invariant Valid() && k <= |outgoing| && |took| <= |was|
        invariant Pass(was, sent0, windows0, used0, took, again, outgoing, k, sent, windows, used)
        invariant Deciding(b, was, took, windowWrap, windowExceeded)
        invariant Spent(b, was, took, inTransit, size, commandsLeft, buffersLeft, spare) && canPing == spare
        invariant windowWrap || windowExceeded || AllDataTaken(was, took, channelCount)
        invariant Stamped(again, Taken(was, took), now, rtt, timeoutLimit) && !continueSending
        invariant old(TimerSet()) ==> TimerSet()
        decreases |outgoing| - k
      {
        Channels();
        LeftSame(was, took);
        PassAt(was, sent0, windows0, used0, took, again, outgoing, k, sent, windows, used);
        Judge(b, was, sent0, took, again, outgoing, k, sent, windows, used, windowWrap, windowExceeded, inTransit, size,
          commandsLeft, buffersLeft, spare);
        var c := outgoing[k];
        if c.channel < channelCount {
          ChannelAt(windows, used, c.channel);
          if !windowWrap && c.attempts < 1 && Blocks(windows[c.channel], used[c.channel], c.sn) {
            windowWrap := true;
          }
          if windowWrap {
            took := took + [false];
            k := k + 1;
            continue;
          }
        }
        if c.hasPacket {
          if !windowExceeded && inTransit + c.length > limit {
            windowExceeded := true;
          }
          if windowExceeded {
            took := took + [false];
            k := k + 1;
            continue;
          }
        }
        canPing := false;
        if commandsLeft == 0 || buffersLeft <= 1 || mtu - size < c.size
           || (c.hasPacket && (mtu - size) % 0x1_0000 < (c.size + c.length) % 0x1_0000) {
          continueSending := true;
          break;
        }
        spare := false;
        ghost var outgoing1, sent1, windows1, used1 := outgoing, sent, windows, used;
        SendOne(k, now, rtt);
        PassTakes(was, sent0, windows0, used0, took, again, outgoing1, k, sent1, windows1, used1, windows, used, now,
          rtt, timeoutLimit);
        StampedOne(again, was, took, now, rtt, timeoutLimit);
        again := again + [Marked(c, now, rtt, timeoutLimit)];
        took := took + [true];
        size := size + c.size + if c.hasPacket then c.length else 0;
        commandsLeft := commandsLeft - 1;
        buffersLeft := buffersLeft - if c.hasPacket then 2 else 1;
      }
      PassEnds(was, sent0, windows0, used0, took, again, outgoing, k, sent, windows, used);
      if !continueSending {
        PassWasWhole(was, sent0, windows0, used0, took, again, outgoing, k, sent, windows, used);
        DecidingEnds(b, was, took, windowWrap, windowExceeded);
      }
      SpentSays(b, was, took, inTransit, size, commandsLeft, buffersLeft, spare, |was| - |took|);
      stopped := |took|;
      LeftSame(was, took);
      took := took + NoneTaken(|was| - |took|);
      AgainSums(again, Taken(was, took), now, rtt, timeoutLimit);
    }

    lemma Channels()
      requires Valid()
      ensures ChannelsOk(windows, used) && |windows| == channelCount
    {
    }

    /** Command k goes out: it is counted if this is its first time, and its bytes are in
        flight. */
    method SendOne(k: nat, now: u32, rtt: nat)
      requires Valid() && k < |outgoing|
      modifies this`sent, this`outgoing, this`windows, this`used, this`inTransit, this`nextTimeout
      ensures Valid() && sent == old(sent) + [Marked(old(outgoing)[k], now, rtt, timeoutLimit)]
      ensures nextTimeout == if old(sent) == [] then Due(sent[0]) else old(nextTimeout)
      ensures outgoing == old(outgoing)[..k] + old(outgoing)[k + 1..]
      ensures inTransit == old(inTransit) + if old(outgoing)[k].hasPacket then old(outgoing)[k].length else 0
      ensures ChannelsOk(windows, used) && ChannelsOk(old(windows), old(used)) && |windows| == |old(windows)|
      ensures var c := old(outgoing)[k];
        && windows == (if c.attempts == 0 then CountUp(old(windows), c.channel, c.sn) else old(windows))
        && used == (if c.attempts == 0 then BitsUp(old(used), c.channel, c.sn) else old(used))
    {
      hide InFlight, Bytes, AllCounted, AllSent, RetriedFirst, UsedOk, CountUp, BitsUp, ChannelsOk;
      var c := outgoing[k];
      Channels();
      SendAccounted(windows, used, sent, outgoing, k, Marked(c, now, rtt, timeoutLimit));
      SentMore(sent, Marked(c, now, rtt, timeoutLimit));
      RetriedWithout(outgoing, k);
      if c.attempts < 1 {
        windows, used := CountUp(windows, c.channel, c.sn), BitsUp(used, c.channel, c.sn);
      }
      if sent == [] {
        nextTimeout := Due(Marked(c, now, rtt, timeoutLimit));
      }
      sent := sent + [Marked(c, now, rtt, timeoutLimit)];
      outgoing := outgoing[..k] + outgoing[k + 1..];
      inTransit := inTransit + if c.hasPacket then c.length else 0;
    }
  }

  /** What sending does to a command. */
  function Marked(c: Outgoing, now: u32, rtt: nat, timeoutLimit: nat): (c': Outgoing)
  {
    var timed := if c.timeout == 0 then c.(timeout := rtt, limit := timeoutLimit * rtt) else c;
    timed.(attempts := c.attempts + 1, sentTime := now)
  }

  function CountUp(windows: seq<seq<nat>>, channel: nat, sn: u16): (r: seq<seq<nat>>)
    requires channel < |windows| ==> |windows[channel]| == WINDOWS
    ensures |r| == |windows|
  {
    var w := sn / WINDOW_SIZE;
    if channel < |windows| then windows[channel := windows[channel][w := windows[channel][w] + 1]] else windows
  }

  function BitsUp(used: seq<set<nat>>, channel: nat, sn: u16): (r: seq<set<nat>>)
    ensures |r| == |used|
  {
    if channel < |used| then used[channel := used[channel] + {sn / WINDOW_SIZE}] else used
  }

  ghost predicate ChannelsOk(windows: seq<seq<nat>>, used: seq<set<nat>>)
  {
    |used| == |windows| && forall ch :: 0 <= ch < |windows| ==> |windows[ch]| == WINDOWS
  }

  ghost predicate AllDataTaken(cs: seq<Outgoing>, took: seq<bool>, channels: nat)
    requires |took| <= |cs|
  {
    forall h :: 0 <= h < |took| && IsData(cs[h], channels) ==> took[h]
  }

  function Zeroes(n: nat): (z: seq<nat>)
    ensures |z| == n && forall i :: 0 <= i < n ==> z[i] == 0
  {
    if n == 0 then [] else Zeroes(n - 1) + [0]
  }

  function Empty(n: nat): (z: seq<seq<nat>>)
    ensures |z| == n && forall i :: 0 <= i < n ==> z[i] == Zeroes(WINDOWS)
  {
    if n == 0 then [] else Empty(n - 1) + [Zeroes(WINDOWS)]
  }

  function Unused(n: nat): (z: seq<set<nat>>)
    ensures |z| == n && forall i :: 0 <= i < n ==> z[i] == {}
  {
    if n == 0 then [] else Unused(n - 1) + [{}]
  }

  function CountDown(windows: seq<seq<nat>>, channel: nat, sn: u16): (r: seq<seq<nat>>)
    requires channel < |windows| ==> |windows[channel]| == WINDOWS
    ensures |r| == |windows|
  {
    var w := sn / WINDOW_SIZE;
    if channel < |windows| && windows[channel][w] > 0 then
      windows[channel := windows[channel][w := windows[channel][w] - 1]]
    else windows
  }

  function BitsDown(windows: seq<seq<nat>>, used: seq<set<nat>>, channel: nat, sn: u16): (r: seq<set<nat>>)
    requires |used| == |windows| && (channel < |windows| ==> |windows[channel]| == WINDOWS)
  {
    var w := sn / WINDOW_SIZE;
    if channel < |windows| && windows[channel][w] == 1 then used[channel := used[channel] - {w}] else used
  }

  // ---------- Facts about the counters ----------

  lemma CountedQueued(windows: seq<seq<nat>>, used: seq<set<nat>>, sent: seq<Outgoing>, outgoing: seq<Outgoing>,
                      c: Outgoing)
    requires AllCounted(windows, used, sent, outgoing) && c.attempts == 0 && RetriedFirst(outgoing)
    ensures AllCounted(windows, used, sent, outgoing + [c]) && RetriedFirst(outgoing + [c])
  {
    hide InFlight, UsedOk;
    forall ch | 0 <= ch < |windows|
      ensures Counted(windows[ch], used[ch], sent, outgoing + [c], ch)
    {
      assert Counted(windows[ch], used[ch], sent, outgoing, ch);
      forall w | 0 <= w < WINDOWS
        ensures windows[ch][w] == InFlight(sent, ch, w) + InFlight(outgoing + [c], ch, w)
      {
        PutLast(outgoing, c, ch, w);
      }
    }
  }

  /** The lists lost one command that was counted. */
  ghost predicate Lost(sent: seq<Outgoing>, outgoing: seq<Outgoing>, sent': seq<Outgoing>, outgoing': seq<Outgoing>,
                       c: Outgoing)
  {
    forall ch: nat, w: nat ::
      InFlight(sent, ch, w) + InFlight(outgoing, ch, w) == InFlight(sent', ch, w) + InFlight(outgoing', ch, w)
        + One(c, ch, w)
  }

  lemma CountedDown(windows: seq<nat>, used: set<nat>, sent: seq<Outgoing>, outgoing: seq<Outgoing>,
                    sent': seq<Outgoing>, outgoing': seq<Outgoing>, c: Outgoing, ch: nat)
    requires Counted(windows, used, sent, outgoing, ch) && Lost(sent, outgoing, sent', outgoing', c) && c.attempts > 0
    ensures var w := c.sn / WINDOW_SIZE;
      if ch == c.channel then
        windows[w] > 0 && Counted(windows[w := windows[w] - 1], if windows[w] == 1 then used - {w} else used, sent',
          outgoing', ch)
      else Counted(windows, used, sent', outgoing', ch)
  {
    hide InFlight, UsedOk;
    var k := c.sn / WINDOW_SIZE;
    forall w: nat | w < WINDOWS
      ensures windows[w] == InFlight(sent', ch, w) + InFlight(outgoing', ch, w) + One(c, ch, w)
    {
      assert InFlight(sent, ch, w) + InFlight(outgoing, ch, w)
        == InFlight(sent', ch, w) + InFlight(outgoing', ch, w) + One(c, ch, w);
    }
    if ch == c.channel {
      assert One(c, ch, k) == 1;
      UsedDown(windows, used, k);
    }
  }

  lemma AllCountedDown(windows: seq<seq<nat>>, used: seq<set<nat>>, sent: seq<Outgoing>, outgoing: seq<Outgoing>,
                       sent': seq<Outgoing>, outgoing': seq<Outgoing>, c: Outgoing)
    requires AllCounted(windows, used, sent, outgoing) && Lost(sent, outgoing, sent', outgoing', c) && c.attempts > 0
    ensures |used| == |windows| && forall ch :: 0 <= ch < |windows| ==> |windows[ch]| == WINDOWS
    ensures c.channel < |windows| ==> windows[c.channel][c.sn / WINDOW_SIZE] > 0
    ensures AllCounted(CountDown(windows, c.channel, c.sn), BitsDown(windows, used, c.channel, c.sn), sent', outgoing')
  {
    hide InFlight, UsedOk, Lost, Counted;
    forall ch | 0 <= ch < |windows|
      ensures |windows[ch]| == WINDOWS
    {
      CountedLength(windows[ch], used[ch], sent, outgoing, ch);
    }
    forall ch | 0 <= ch < |windows|
      ensures ch == c.channel ==> windows[ch][c.sn / WINDOW_SIZE] > 0
      ensures Counted(CountDown(windows, c.channel, c.sn)[ch], BitsDown(windows, used, c.channel, c.sn)[ch], sent',
        outgoing', ch)
    {
      CountedDown(windows[ch], used[ch], sent, outgoing, sent', outgoing', c, ch);
    }
  }

  lemma CountedLength(windows: seq<nat>, used: set<nat>, sent: seq<Outgoing>, outgoing: seq<Outgoing>, ch: nat)
    requires Counted(windows, used, sent, outgoing, ch)
    ensures |windows| == WINDOWS
  {
  }

  /** Removing command k, counted once, is what Uncount accounts for. */
  lemma Uncounted(windows: seq<seq<nat>>, used: seq<set<nat>>, sent: seq<Outgoing>, outgoing: seq<Outgoing>, k: nat,
                  fromSent: bool)
    requires AllCounted(windows, used, sent, outgoing)
    requires if fromSent then k < |sent| && sent[k].attempts > 0 else k < |outgoing| && outgoing[k].attempts > 0
    ensures |used| == |windows| && forall ch :: 0 <= ch < |windows| ==> |windows[ch]| == WINDOWS
    ensures var c := if fromSent then sent[k] else outgoing[k];
      && (c.channel < |windows| ==> windows[c.channel][c.sn / WINDOW_SIZE] > 0)
      && AllCounted(CountDown(windows, c.channel, c.sn), BitsDown(windows, used, c.channel, c.sn),
                    if fromSent then sent[..k] + sent[k + 1..] else sent,
                    if fromSent then outgoing else outgoing[..k] + outgoing[k + 1..])
      && (fromSent ==> Bytes(sent) == Bytes(sent[..k] + sent[k + 1..]) + if c.hasPacket then c.length else 0)
  {
    hide InFlight, Bytes, AllCounted, One;
    var c := if fromSent then sent[k] else outgoing[k];
    var sent', outgoing' := if fromSent then sent[..k] + sent[k + 1..] else sent, if fromSent then outgoing
      else outgoing[..k] + outgoing[k + 1..];
    forall ch: nat, w: nat
      ensures InFlight(sent, ch, w) + InFlight(outgoing, ch, w)
        == InFlight(sent', ch, w) + InFlight(outgoing', ch, w) + One(c, ch, w)
    {
      if fromSent {
        TakenOut(sent, k, ch, w);
      } else {
        TakenOut(outgoing, k, ch, w);
      }
    }
    if fromSent {
      TakenOut(sent, k, 0, 0);
    }
    AllCountedDown(windows, used, sent, outgoing, sent', outgoing', c);
  }

  lemma UsedDown(windows: seq<nat>, used: set<nat>, w: nat)
    requires |windows| == WINDOWS && UsedOk(windows, used) && w < WINDOWS && windows[w] > 0
    ensures UsedOk(windows[w := windows[w] - 1], if windows[w] == 1 then used - {w} else used)
  {
  }

  lemma ChannelAt(windows: seq<seq<nat>>, used: seq<set<nat>>, ch: nat)
    requires ChannelsOk(windows, used) && ch < |windows|
    ensures ch < |used| && |windows[ch]| == WINDOWS
  {
  }

  /** Half way through a pass that started from the queue was: the first |took| commands were
      looked at, those taken are at the end of the sent list, those left are the first k. */
  ghost predicate Pass(was: seq<Outgoing>, sent0: seq<Outgoing>, windows0: seq<seq<nat>>, used0: seq<set<nat>>,
                       took: seq<bool>, again: seq<Outgoing>, outgoing: seq<Outgoing>, k: nat, sent: seq<Outgoing>,
                       windows: seq<seq<nat>>, used: seq<set<nat>>)
  {
    && |took| <= |was| && ChannelsOk(windows0, used0) && ChannelsOk(windows, used)
    && outgoing == Left(was, took) + was[|took|..] && k == |Left(was, took)|
    && sent == sent0 + again && SentAgain(again, Taken(was, took))
    && InOrder(was, took, |windows0|) && GuardKept(was, took, windows0, used0)
    && windows == WindowsAfter(windows0, was, took) && used == UsedAfter(used0, was, took)
  }

  lemma PassBegins(was: seq<Outgoing>, sent0: seq<Outgoing>, windows: seq<seq<nat>>, used: seq<set<nat>>)
    requires ChannelsOk(windows, used)
    ensures Pass(was, sent0, windows, used, [], [], was, 0, sent0, windows, used) && AllDataTaken(was, [], |windows|)
  {
    assert sent0 + [] == sent0 && [] + was == was && was[0..] == was;
  }

  lemma PassAt(was: seq<Outgoing>, sent0: seq<Outgoing>, windows0: seq<seq<nat>>, used0: seq<set<nat>>,
               took: seq<bool>, again: seq<Outgoing>, outgoing: seq<Outgoing>, k: nat, sent: seq<Outgoing>,
               windows: seq<seq<nat>>, used: seq<set<nat>>)
    requires Pass(was, sent0, windows0, used0, took, again, outgoing, k, sent, windows, used) && k < |outgoing|
    ensures |took| < |was| && outgoing[k] == was[|took|] && outgoing[k] in was
    ensures Pass(was, sent0, windows0, used0, took + [false], again, outgoing, k + 1, sent, windows, used)
  {
    hide Left, Taken, SentAgain, InOrder, GuardKept, WindowsAfter, UsedAfter, ChannelsOk;
    var left, taken := Left(was, took), Taken(was, took);
    SplitHere(outgoing, left, was, |took|);
    LeftNext(was, took, false);
    Skipping(was, took, |windows0|, windows0, used0);
    AfterNext(windows0, used0, was, took, false);
    assert taken + [] == taken;
  }

  lemma PassTakes(was: seq<Outgoing>, sent0: seq<Outgoing>, windows0: seq<seq<nat>>, used0: seq<set<nat>>,
                  took: seq<bool>, again: seq<Outgoing>, outgoing: seq<Outgoing>, k: nat, sent: seq<Outgoing>,
                  windows: seq<seq<nat>>, used: seq<set<nat>>, windows': seq<seq<nat>>, used': seq<set<nat>>,
                  now: u32, rtt: nat, timeoutLimit: nat)
    requires Pass(was, sent0, windows0, used0, took, again, outgoing, k, sent, windows, used) && k < |outgoing|
      && |took| < |was|
    requires ChannelsOk(windows, used) && ChannelsOk(windows', used')
    requires windows' == if outgoing[k].attempts == 0 then CountUp(windows, outgoing[k].channel, outgoing[k].sn)
      else windows
    requires used' == if outgoing[k].attempts == 0 then BitsUp(used, outgoing[k].channel, outgoing[k].sn) else used
    requires |windows| == |windows0|
    requires var c := outgoing[k];
      && (IsData(c, |windows|) ==> AllDataTaken(was, took, |windows|))
      && (c.attempts == 0 && c.channel < |windows| ==> !Blocks(windows[c.channel], used[c.channel], c.sn))
    ensures var c' := Marked(outgoing[k], now, rtt, timeoutLimit);
      Pass(was, sent0, windows0, used0, took + [true], again + [c'], outgoing[..k] + outgoing[k + 1..], k, sent + [c'],
        windows', used')
    ensures AllDataTaken(was, took, |windows|) ==> AllDataTaken(was, took + [true], |windows|)
  {
    hide Left, Taken, SentAgain, InOrder, GuardKept, WindowsAfter, UsedAfter, ChannelsOk, AllDataTaken, Blocks, IsData;
    var left, c' := Left(was, took), Marked(outgoing[k], now, rtt, timeoutLimit);
    SplitHere(outgoing, left, was, |took|);
    LeftNext(was, took, true);
    assert left + [] == left && sent0 + again + [c'] == sent0 + (again + [c']);
    TakingOne(was, took, |windows0|, windows0, used0);
    AfterNext(windows0, used0, was, took, true);
    SentAgainOne(again, Taken(was, took), outgoing[k], now, rtt, timeoutLimit);
  }

  lemma PassEnds(was: seq<Outgoing>, sent0: seq<Outgoing>, windows0: seq<seq<nat>>, used0: seq<set<nat>>,
                 took: seq<bool>, again: seq<Outgoing>, outgoing: seq<Outgoing>, k: nat, sent: seq<Outgoing>,
                 windows: seq<seq<nat>>, used: seq<set<nat>>)
    requires Pass(was, sent0, windows0, used0, took, again, outgoing, k, sent, windows, used)
    ensures ChannelsOk(windows0, used0) && |took| <= |was|
    ensures var all := took + NoneTaken(|was| - |took|);
      && |all| == |was| && outgoing == Left(was, all) && sent == sent0 + again && SentAgain(again, Taken(was, all))
      && InOrder(was, all, |windows0|) && GuardKept(was, all, windows0, used0)
      && windows == WindowsAfter(windows0, was, all) && used == UsedAfter(used0, was, all)
  {
    hide Left, Taken, SentAgain, InOrder, GuardKept, WindowsAfter, UsedAfter, ChannelsOk;
    LeftRest(was, took, |was| - |took|);
    NoneMore(was, took, |was| - |took|, |windows0|, windows0, used0);
    AfterNone(windows0, used0, was, took, |was| - |took|);
    assert was[|took|..|was|] == was[|took|..];
  }

  /** What the loop finds out about the command it looks at is why it stays or goes. */
  lemma Judge(b: Begin, was: seq<Outgoing>, sent0: seq<Outgoing>, took: seq<bool>, again: seq<Outgoing>,
              outgoing: seq<Outgoing>, k: nat, sent: seq<Outgoing>, windows: seq<seq<nat>>, used: seq<set<nat>>,
              wrap: bool, exceeded: bool, inTransit: nat, size: nat, commandsLeft: nat, buffersLeft: nat, canPing: bool)
    requires Pass(was, sent0, b.windows, b.used, took, again, outgoing, k, sent, windows, used) && |took| < |was|
    requires ChannelsOk(b.windows, b.used) && ChannelsOk(windows, used) && |windows| == |b.windows|
    requires Deciding(b, was, took, wrap, exceeded) && b.mtu <= 4096
    requires Spent(b, was, took, inTransit, size, commandsLeft, buffersLeft, canPing)
    requires was[|took|].size + was[|took|].length <= 0xFFFF
    ensures var c := was[|took|];
      var guard := c.channel < |windows| && c.attempts == 0 && Blocks(windows[c.channel], used[c.channel], c.sn);
      var held := c.channel < |windows| && (wrap || guard);
      var over := c.hasPacket && !held && inTransit + c.length > b.limit;
      var kept := c.hasPacket && (exceeded || over);
      var bytes := if c.hasPacket then c.length else 0;
      var full := commandsLeft == 0 || buffersLeft <= 1 || b.mtu - size < c.size
        || (c.hasPacket && (b.mtu - size) % 0x1_0000 < (c.size + c.length) % 0x1_0000);
      && (held || kept ==>
            && Deciding(b, was, took + [false], wrap || guard, exceeded || over)
            && Spent(b, was, took + [false], inTransit, size, commandsLeft, buffersLeft, canPing))
      && (!held && !kept && !full ==>
            && buffersLeft >= 2 && commandsLeft >= 1
            && Deciding(b, was, took + [true], wrap || guard, exceeded || over)
            && Spent(b, was, took + [true], inTransit + bytes, size + c.size + bytes, commandsLeft - 1,
                     buffersLeft - (if c.hasPacket then 2 else 1), false))
      && (!held && !kept && full ==> Decides(b, was, took + NoneTaken(|was| - |took|), |took|))
  {
    hide Pass, Deciding, Decides, Spent, ChannelsOk, Blocks, GuardStops, HeldByGuard, LimitStops, HeldByLimit, NoRoom;
    var n, c := |took|, was[|took|];
    FlagsSay(b, was, took, wrap, exceeded);
    GuardSays(b, was, sent0, took, again, outgoing, k, sent, windows, used);
    RoomSays(b, was, took, inTransit, size, commandsLeft, buffersLeft, canPing);
    SpentNext(b, was, took, inTransit, size, commandsLeft, buffersLeft, canPing);
    if HeldByGuard(b, was, took, n) || HeldByLimit(b, was, took, n) {
      DecidingNext(b, was, took, wrap, exceeded, false);
    } else if NoRoom(b, was, took, n) {
      DecidingEnds(b, was, took, wrap, exceeded);
    } else {
      DecidingNext(b, was, took, wrap, exceeded, true);
    }
  }

  lemma GuardSays(b: Begin, was: seq<Outgoing>, sent0: seq<Outgoing>, took: seq<bool>, again: seq<Outgoing>,
                  outgoing: seq<Outgoing>, k: nat, sent: seq<Outgoing>, windows: seq<seq<nat>>, used: seq<set<nat>>)
    requires Pass(was, sent0, b.windows, b.used, took, again, outgoing, k, sent, windows, used) && |took| < |was|
    requires ChannelsOk(b.windows, b.used) && ChannelsOk(windows, used) && |windows| == |b.windows|
    ensures var c := was[|took|];
      GuardStops(b, was, took, |took|) <==>
        c.channel < |windows| && c.attempts == 0 && Blocks(windows[c.channel], used[c.channel], c.sn)
  {
    hide Left, Taken, SentAgain, InOrder, GuardKept, WindowsAfter, UsedAfter, ChannelsOk, Blocks;
    assert took[..|took|] == took;
  }

  lemma RoomSays(b: Begin, was: seq<Outgoing>, took: seq<bool>, inTransit: nat, size: nat, commandsLeft: nat,
                 buffersLeft: nat, canPing: bool)
    requires |took| < |was| && ChannelsOk(b.windows, b.used) && b.mtu <= 4096
    requires Spent(b, was, took, inTransit, size, commandsLeft, buffersLeft, canPing)
    requires was[|took|].size + was[|took|].length <= 0xFFFF
    ensures var n, c := |took|, was[|took|];
      && (LimitStops(b, was, took, n) <==>
            c.hasPacket && !HeldByGuard(b, was, took, n) && inTransit + c.length > b.limit)
      && (NoRoom(b, was, took, n) <==>
            commandsLeft == 0 || buffersLeft <= 1 || b.mtu - size < c.size
            || (c.hasPacket && (b.mtu - size) % 0x1_0000 < (c.size + c.length) % 0x1_0000))
      && size <= b.mtu
      && (!NoRoom(b, was, took, n) ==> size + c.size + (if c.hasPacket then c.length else 0) <= b.mtu)
      && (c.hasPacket && buffersLeft > 1 ==> buffersLeft >= 2)
  {
    hide Taken, Bytes, Written, BuffersOf, HeldByGuard, ChannelsOk;
    assert took[..|took|] == took;
  }

  lemma PassWasWhole(was: seq<Outgoing>, sent0: seq<Outgoing>, windows0: seq<seq<nat>>, used0: seq<set<nat>>,
                     took: seq<bool>, again: seq<Outgoing>, outgoing: seq<Outgoing>, k: nat, sent: seq<Outgoing>,
                     windows: seq<seq<nat>>, used: seq<set<nat>>)
    requires Pass(was, sent0, windows0, used0, took, again, outgoing, k, sent, windows, used) && k == |outgoing|
    ensures |took| == |was|
  {
    hide Left, Taken, SentAgain, InOrder, GuardKept, WindowsAfter, UsedAfter, ChannelsOk;
  }

  /** Leaving a command changes nothing about what was taken. */
  lemma LeftSame(cs: seq<Outgoing>, took: seq<bool>)
    requires |took| <= |cs|
    ensures |took| < |cs| ==> Taken(cs, took + [false]) == Taken(cs, took)
    ensures Taken(cs, took + NoneTaken(|cs| - |took|)) == Taken(cs, took)
  {
    hide Taken;
    LeftRest(cs, took, |cs| - |took|);
    if |took| < |cs| {
      LeftNext(cs, took, false);
    }
  }

  lemma StampedOne(again: seq<Outgoing>, cs: seq<Outgoing>, took: seq<bool>, now: u32, rtt: nat, timeoutLimit: nat)
    requires |took| < |cs| && Stamped(again, Taken(cs, took), now, rtt, timeoutLimit)
    ensures Stamped(again + [Marked(cs[|took|], now, rtt, timeoutLimit)], Taken(cs, took + [true]), now, rtt,
                    timeoutLimit)
  {
    hide Taken;
    LeftNext(cs, took, true);
  }

  lemma AgainSums(again: seq<Outgoing>, before: seq<Outgoing>, time: u32, rtt: nat, timeoutLimit: nat)
    requires SentAgain(again, before) && Stamped(again, before, time, rtt, timeoutLimit)
    ensures Bytes(again) == Bytes(before) && Written(again) == Written(before) && |again| == |before|
    decreases |again|
  {
    if again != [] {
      var n := |again| - 1;
      AgainSums(again[..n], before[..n], time, rtt, timeoutLimit);
    }
  }

  lemma SpentSays(b: Begin, cs: seq<Outgoing>, took: seq<bool>, inTransit: nat, size: nat, commandsLeft: nat,
                  buffersLeft: nat, canPing: bool, n: nat)
    requires |took| + n <= |cs| && Spent(b, cs, took, inTransit, size, commandsLeft, buffersLeft, canPing)
    ensures var taken := Taken(cs, took + NoneTaken(n));
      && inTransit == b.inTransit + Bytes(taken) && (Bytes(taken) > 0 ==> inTransit <= b.limit)
      && size == b.packetSize + Written(taken) && size <= b.mtu && (canPing <==> taken == [])
  {
    hide Taken, Bytes, Written, BuffersOf;
    LeftRest(cs, took, n);
  }

  lemma Skipping(cs: seq<Outgoing>, took: seq<bool>, channels: nat, windows: seq<seq<nat>>, used: seq<set<nat>>)
    requires |took| < |cs| && ChannelsOk(windows, used)
    requires InOrder(cs, took, channels) && GuardKept(cs, took, windows, used)
    ensures InOrder(cs, took + [false], channels) && GuardKept(cs, took + [false], windows, used)
  {
    hide Blocks, IsData, WindowsAfter, UsedAfter, ChannelsOk;
    EarlierGuards(cs, took, windows, used, false);
    var t := took + [false];
    assert forall h :: 0 <= h < |took| ==> t[h] == took[h];
  }

  /** What was taken before keeps its guards. */
  lemma EarlierGuards(cs: seq<Outgoing>, took: seq<bool>, windows: seq<seq<nat>>, used: seq<set<nat>>, b: bool)
    requires |took| < |cs| && ChannelsOk(windows, used) && GuardKept(cs, took, windows, used)
    ensures forall g :: 0 <= g < |took| ==> GuardPassedAt(cs, took + [b], windows, used, g)
  {
    hide Blocks, WindowsAfter, UsedAfter, ChannelsOk;
    forall g | 0 <= g < |took|
      ensures GuardPassedAt(cs, took + [b], windows, used, g)
    {
      assert GuardPassedAt(cs, took, windows, used, g);
      assert (took + [b])[..g] == took[..g];
    }
  }

  lemma {:induction false} NoneMore(cs: seq<Outgoing>, took: seq<bool>, n: nat, channels: nat, windows: seq<seq<nat>>,
                                    used: seq<set<nat>>)
    requires |took| + n <= |cs| && ChannelsOk(windows, used) && InOrder(cs, took, channels)
      && GuardKept(cs, took, windows, used)
    ensures InOrder(cs, took + NoneTaken(n), channels) && GuardKept(cs, took + NoneTaken(n), windows, used)
    decreases n
  {
    hide ChannelsOk, InOrder, GuardKept;
    if n == 0 {
      assert took + NoneTaken(0) == took;
    } else {
      NoneMore(cs, took, n - 1, channels, windows, used);
      Skipping(cs, took + NoneTaken(n - 1), channels, windows, used);
      assert took + NoneTaken(n) == took + NoneTaken(n - 1) + [false];
    }
  }

  /** A command that is sent was not overtaken and passed the guard. */
  lemma TakingOne(cs: seq<Outgoing>, took: seq<bool>, channels: nat, windows: seq<seq<nat>>, used: seq<set<nat>>)
    requires |took| < |cs| && ChannelsOk(windows, used) && |windows| == channels
    requires InOrder(cs, took, channels) && GuardKept(cs, took, windows, used)
    requires var c := cs[|took|];
      && (IsData(c, channels) ==> AllDataTaken(cs, took, channels))
      && (c.attempts == 0 && c.channel < channels ==>
            !Blocks(WindowsAfter(windows, cs, took)[c.channel], UsedAfter(used, cs, took)[c.channel], c.sn))
    ensures InOrder(cs, took + [true], channels) && GuardKept(cs, took + [true], windows, used)
    ensures AllDataTaken(cs, took, channels) ==> AllDataTaken(cs, took + [true], channels)
  {
    hide Blocks, IsData, WindowsAfter, UsedAfter, ChannelsOk;
    var c, t := cs[|took|], took + [true];
    EarlierGuards(cs, took, windows, used, true);
    assert t[..|took|] == took;
    assert GuardPassedAt(cs, t, windows, used, |took|);
    assert forall h :: 0 <= h < |took| ==> t[h] == took[h];
  }

  lemma SentAgainOne(again: seq<Outgoing>, before: seq<Outgoing>, c: Outgoing, now: u32, rtt: nat, timeoutLimit: nat)
    requires SentAgain(again, before)
    ensures SentAgain(again + [Marked(c, now, rtt, timeoutLimit)], before + [c])
  {
  }

  lemma SentMore(sent: seq<Outgoing>, c: Outgoing)
    requires AllSent(sent) && c.attempts > 0
    ensures AllSent(sent + [c])
  {
  }

  lemma UsedUp(windows: seq<nat>, used: set<nat>, w: nat)
    requires |windows| == WINDOWS && UsedOk(windows, used) && w < WINDOWS
    ensures UsedOk(windows[w := windows[w] + 1], used + {w})
  {
  }

  /** Command k moves to the sent list as c. */
  ghost predicate Moved(sent: seq<Outgoing>, outgoing: seq<Outgoing>, sent': seq<Outgoing>, outgoing': seq<Outgoing>,
                        was: Outgoing, c: Outgoing)
  {
    forall ch: nat, w: nat ::
      InFlight(sent', ch, w) + InFlight(outgoing', ch, w) + One(was, ch, w)
        == InFlight(sent, ch, w) + InFlight(outgoing, ch, w) + One(c, ch, w)
  }

  lemma CountedUp(windows: seq<nat>, used: set<nat>, sent: seq<Outgoing>, outgoing: seq<Outgoing>,
                  sent': seq<Outgoing>, outgoing': seq<Outgoing>, was: Outgoing, c: Outgoing, ch: nat)
    requires Counted(windows, used, sent, outgoing, ch) && Moved(sent, outgoing, sent', outgoing', was, c)
    requires c.attempts > 0 && c.sn == was.sn && c.channel == was.channel
    ensures var w := c.sn / WINDOW_SIZE;
      && |windows| == WINDOWS
      && (if was.attempts == 0 && ch == c.channel then Counted(windows[w := windows[w] + 1], used + {w}, sent',
         outgoing', ch)
          else Counted(windows, used, sent', outgoing', ch))
  {
    hide InFlight, UsedOk;
    var k := c.sn / WINDOW_SIZE;
    forall w: nat | w < WINDOWS
      ensures windows[w] + One(c, ch, w) == InFlight(sent', ch, w) + InFlight(outgoing', ch, w) + One(was, ch, w)
    {
      assert InFlight(sent', ch, w) + InFlight(outgoing', ch, w) + One(was, ch, w)
        == InFlight(sent, ch, w) + InFlight(outgoing, ch, w) + One(c, ch, w);
    }
    UsedUp(windows, used, k);
  }

  lemma SendAccounted(windows: seq<seq<nat>>, used: seq<set<nat>>, sent: seq<Outgoing>, outgoing: seq<Outgoing>, k: nat,
                      c: Outgoing)
    requires AllCounted(windows, used, sent, outgoing) && ChannelsOk(windows, used) && k < |outgoing|
    requires c.attempts > 0 && c.sn == outgoing[k].sn && c.channel == outgoing[k].channel
    requires c.hasPacket == outgoing[k].hasPacket && c.length == outgoing[k].length
    ensures c.channel < |windows| ==> |windows[c.channel]| == WINDOWS
    ensures var sent', outgoing' := sent + [c], outgoing[..k] + outgoing[k + 1..];
      && (if outgoing[k].attempts == 0
          then
            && AllCounted(CountUp(windows, c.channel, c.sn), BitsUp(used, c.channel, c.sn), sent', outgoing')
            && ChannelsOk(CountUp(windows, c.channel, c.sn), BitsUp(used, c.channel, c.sn))
          else AllCounted(windows, used, sent', outgoing'))
      && Bytes(sent') == Bytes(sent) + if c.hasPacket then c.length else 0
  {
    hide InFlight, Bytes, One, Counted;
    var was, sent', outgoing' := outgoing[k], sent + [c], outgoing[..k] + outgoing[k + 1..];
    forall ch: nat, w: nat
      ensures InFlight(sent', ch, w) + InFlight(outgoing', ch, w) + One(was, ch, w)
        == InFlight(sent, ch, w) + InFlight(outgoing, ch, w) + One(c, ch, w)
    {
      TakenOut(outgoing, k, ch, w);
      PutLast(sent, c, ch, w);
    }
    PutLast(sent, c, 0, 0);
    forall ch | 0 <= ch < |windows|
      ensures was.attempts != 0 ==> Counted(windows[ch], used[ch], sent', outgoing', ch)
      ensures was.attempts == 0 ==>
        && Counted(CountUp(windows, c.channel, c.sn)[ch], BitsUp(used, c.channel, c.sn)[ch], sent', outgoing', ch)
    {
      CountedUp(windows[ch], used[ch], sent, outgoing, sent', outgoing', was, c, ch);
    }
  }

  lemma NoneExpired(now: u32)
    ensures Waiting([], now) == [] && Expired([], now) == []
  {
  }

  lemma SplitHere(sent: seq<Outgoing>, w: seq<Outgoing>, was: seq<Outgoing>, k: nat)
    requires k < |was| && sent == w + was[k..]
    ensures |w| < |sent| && sent[|w|] == was[k] && sent[..|w|] == w && sent[|w| + 1..] == was[k + 1..]
    ensures sent == w + [was[k]] + was[k + 1..]
  {
  }

  /** Doubling a timer and moving between the lists changes no count. */
  lemma BackAccounted(windows: seq<seq<nat>>, used: seq<set<nat>>, sent: seq<Outgoing>, outgoing: seq<Outgoing>, k: nat,
                      p: nat)
    requires AllCounted(windows, used, sent, outgoing) && AllSent(sent) && RetriedFirst(outgoing)
    requires k < |sent| && p <= |outgoing| && forall i :: 0 <= i < p ==> outgoing[i].attempts > 0
    ensures var c := sent[k].(timeout := sent[k].timeout * 2);
      var sent', outgoing' := sent[..k] + sent[k + 1..], outgoing[..p] + [c] + outgoing[p..];
      && AllCounted(windows, used, sent', outgoing') && AllSent(sent') && RetriedFirst(outgoing')
      && Bytes(sent) == Bytes(sent') + if sent[k].hasPacket then sent[k].length else 0
  {
    hide InFlight, Bytes, UsedOk, RetriedFirst;
    var c := sent[k].(timeout := sent[k].timeout * 2);
    var sent', outgoing' := sent[..k] + sent[k + 1..], outgoing[..p] + [c] + outgoing[p..];
    RetriedInsert(outgoing, p, c);
    forall ch | 0 <= ch < |windows|
      ensures Counted(windows[ch], used[ch], sent', outgoing', ch)
    {
      assert Counted(windows[ch], used[ch], sent, outgoing, ch);
      forall w | 0 <= w < WINDOWS
        ensures windows[ch][w] == InFlight(sent', ch, w) + InFlight(outgoing', ch, w)
      {
        TakenOut(sent, k, ch, w);
        PutAt(outgoing, p, c, ch, w);
      }
    }
    TakenOut(sent, k, 0, 0);
  }

  lemma PutAt(cs: seq<Outgoing>, p: nat, c: Outgoing, channel: nat, w: nat)
    requires p <= |cs|
    ensures InFlight(cs[..p] + [c] + cs[p..], channel, w) == InFlight(cs, channel, w) + One(c, channel, w)
  {
    InFlightParts(cs[..p] + [c], cs[p..], channel, w);
    PutLast(cs[..p], c, channel, w);
    InFlightParts(cs[..p], cs[p..], channel, w);
    assert cs == cs[..p] + cs[p..];
  }

  lemma RetriedInsert(cs: seq<Outgoing>, p: nat, c: Outgoing)
    requires RetriedFirst(cs) && p <= |cs| && c.attempts > 0 && forall i :: 0 <= i < p ==> cs[i].attempts > 0
    ensures RetriedFirst(cs[..p] + [c] + cs[p..])
  {
  }

  lemma SentWasSent(sent: seq<Outgoing>, k: nat)
    requires AllSent(sent) && k < |sent|
    ensures sent[k].attempts > 0
  {
  }

  lemma WithoutNow(cs: seq<Outgoing>, k: nat)
    requires k < |cs| && forall i :: 0 <= i < k ==> !Names(cs[i], cs[k].sn, cs[k].channel)
    ensures Without(cs, cs[..k] + cs[k + 1..], cs[k])
  {
  }

  lemma NamesAre(c: Outgoing, sn: u16, channel: u8)
    requires Names(c, sn, channel)
    ensures c.sn == sn && c.channel == channel
  {
  }

  lemma SentWithout(sent: seq<Outgoing>, k: nat)
    requires AllSent(sent) && k < |sent|
    ensures AllSent(sent[..k] + sent[k + 1..])
  {
  }

  lemma RetriedWithout(cs: seq<Outgoing>, k: nat)
    requires RetriedFirst(cs) && k < |cs|
    ensures RetriedFirst(cs[..k] + cs[k + 1..])
  {
  }

  /** Stopping at the first command never sent misses none that was. */
  lemma NeverSent(sent: seq<Outgoing>, outgoing: seq<Outgoing>, k: nat, sn: u16, channel: u8)
    requires RetriedFirst(outgoing) && k <= |outgoing| && (k < |outgoing| ==> outgoing[k].attempts == 0)
    requires forall i :: 0 <= i < |sent| ==> !Names(sent[i], sn, channel)
    requires forall i :: 0 <= i < k ==> !Names(outgoing[i], sn, channel)
    ensures forall x :: x in sent + outgoing ==> x.attempts == 0 || !Names(x, sn, channel)
  {
    forall x | x in sent + outgoing
      ensures x.attempts == 0 || !Names(x, sn, channel)
    {
      if x !in sent {
        var i :| 0 <= i < |outgoing| && outgoing[i] == x;
      }
    }
  }
}
