/** How enet_host_bandwidth_throttle (toxtun/host.c) shares the host's incoming bandwidth among
    its connected peers. A peer whose epoch is the current time before the rounds start is
    passed over by them, though it was counted: it is told its own limit. */
module EnetBandwidth {
  import opened Words

  function Min(a: nat, b: nat): (m: nat)
  {
    if a <= b then a else b
  }

  // ---------- Who shares ----------

  /** The peers the rounds look at: connected, and not marked before they start. */
  ghost function Sharing(connected: seq<bool>, epochs: seq<u32>, now: u32): (sharing: seq<bool>)
    requires |connected| == |epochs|
    ensures |sharing| == |connected|
    ensures forall i :: 0 <= i < |connected| ==> sharing[i] == (connected[i] && epochs[i] != now)
    decreases |connected|
  {
    if connected == [] then []
    else
      var k := |connected| - 1;
      Sharing(connected[..k], epochs[..k], now) + [connected[k] && epochs[k] != now]
  }

  /** How many of the first n. */
  ghost function Count(peers: seq<bool>, n: nat): (c: nat)
    requires n <= |peers|
  {
    if n == 0 then 0 else Count(peers, n - 1) + if peers[n - 1] then 1 else 0
  }

  /** The connected peers that were marked before the rounds start. */
  ghost function Stale(connected: seq<bool>, epochs: seq<u32>, now: u32): (c: nat)
    requires |connected| == |epochs|
  {
    var sharing := Sharing(connected, epochs, now);
    SharingFewer(sharing, connected, |connected|);
    Count(connected, |connected|) - Count(sharing, |connected|)
  }

  lemma {:induction false} SharingFewer(sharing: seq<bool>, connected: seq<bool>, n: nat)
    requires n <= |sharing| == |connected| && forall i :: 0 <= i < n && sharing[i] ==> connected[i]
    ensures Count(sharing, n) <= Count(connected, n)
    decreases n
  {
    if n > 0 {
      SharingFewer(sharing, connected, n - 1);
    }
  }

  /** Before the first round nobody who shares is marked. */
  lemma {:induction false} RemainingAtFirst(sharing: seq<bool>, epochs: seq<u32>, now: u32, n: nat)
    requires n <= |sharing| == |epochs| && forall i :: 0 <= i < n && sharing[i] ==> epochs[i] != now
    ensures Remaining(sharing, epochs, now, n) == Count(sharing, n)
    decreases n
  {
    if n > 0 {
      RemainingAtFirst(sharing, epochs, now, n - 1);
    }
  }

  // ---------- The rounds so far ----------

  /** The sharing peers among the first n that are not marked. */
  ghost function Remaining(sharing: seq<bool>, epochs: seq<u32>, now: u32, n: nat): (c: nat)
    requires n <= |sharing| == |epochs|
  {
    if n == 0 then 0
    else Remaining(sharing, epochs, now, n - 1) + if sharing[n - 1] && epochs[n - 1] != now then 1 else 0
  }

  /** What the marked ones among the first n asked for. */
  ghost function Granted(sharing: seq<bool>, epochs: seq<u32>, wants: seq<u32>, now: u32, n: nat): (b: nat)
    requires n <= |sharing| == |epochs| == |wants|
  {
    if n == 0 then 0
    else
      Granted(sharing, epochs, wants, now, n - 1)
      + if sharing[n - 1] && epochs[n - 1] == now then wants[n - 1] else 0
  }

  /** The sum of what the first n peers are told at a level. */
  ghost function Told(sharing: seq<bool>, wants: seq<u32>, level: nat, n: nat): (b: nat)
    requires n <= |sharing| == |wants|
  {
    if n == 0 then 0
    else Told(sharing, wants, level, n - 1) + if sharing[n - 1] then Min(wants[n - 1], level) else 0
  }

  lemma {:induction false} RemainingMarked(sharing: seq<bool>, epochs: seq<u32>, now: u32, n: nat, i: nat)
    requires n <= |sharing| == |epochs| && i < |epochs| && sharing[i] && epochs[i] != now
    ensures Remaining(sharing, epochs[i := now], now, n)
         == Remaining(sharing, epochs, now, n) - if i < n then 1 else 0
    decreases n
  {
    if n > 0 {
      RemainingMarked(sharing, epochs, now, n - 1, i);
    }
  }

  lemma {:induction false} GrantedMarked(sharing: seq<bool>, epochs: seq<u32>, wants: seq<u32>, now: u32, n: nat,
                                         i: nat)
    requires n <= |sharing| == |epochs| == |wants| && i < |epochs| && sharing[i] && epochs[i] != now
    ensures Granted(sharing, epochs[i := now], wants, now, n)
         == Granted(sharing, epochs, wants, now, n) + if i < n then wants[i] else 0
    decreases n
  {
    if n > 0 {
      GrantedMarked(sharing, epochs, wants, now, n - 1, i);
    }
  }

  lemma {:induction false} SomeoneRemains(sharing: seq<bool>, epochs: seq<u32>, now: u32, n: nat, i: nat)
    requires i < n <= |sharing| == |epochs| && sharing[i] && epochs[i] != now
    ensures Remaining(sharing, epochs, now, n) > 0
    decreases n
  {
    if i < n - 1 {
      SomeoneRemains(sharing, epochs, now, n - 1, i);
    }
  }

  /** Marked peers asked for less than the level, or for nothing; the others for as much. */
  ghost predicate Settled(sharing: seq<bool>, epochs: seq<u32>, wants: seq<u32>, now: u32, level: nat)
    requires |sharing| == |epochs| == |wants|
  {
    forall i :: 0 <= i < |sharing| && sharing[i] ==>
      if epochs[i] == now then wants[i] == 0 || wants[i] < level else wants[i] > 0 && wants[i] >= level
  }

  /** The peers among the first n that are held to the level. */
  ghost function Limited(sharing: seq<bool>, wants: seq<u32>, level: nat, n: nat): (c: nat)
    requires n <= |sharing| == |wants|
  {
    if n == 0 then 0
    else
      Limited(sharing, wants, level, n - 1)
      + if sharing[n - 1] && wants[n - 1] > 0 && wants[n - 1] >= level then 1 else 0
  }

  lemma {:induction false} LimitedIs(sharing: seq<bool>, epochs: seq<u32>, wants: seq<u32>, now: u32, level: nat,
                                     n: nat)
    requires n <= |sharing| == |epochs| == |wants| && Settled(sharing, epochs, wants, now, level)
    ensures Limited(sharing, wants, level, n) == Remaining(sharing, epochs, now, n)
    decreases n
  {
    if n > 0 {
      LimitedIs(sharing, epochs, wants, now, level, n - 1);
    }
  }

  lemma {:induction false} ToldIs(sharing: seq<bool>, epochs: seq<u32>, wants: seq<u32>, now: u32, level: nat, n: nat)
    requires n <= |sharing| == |epochs| == |wants| && Settled(sharing, epochs, wants, now, level)
    ensures Told(sharing, wants, level, n)
         == Granted(sharing, epochs, wants, now, n) + level * Remaining(sharing, epochs, now, n)
    decreases n
  {
    if n > 0 {
      ToldIs(sharing, epochs, wants, now, level, n - 1);
      Distribute(level, Remaining(sharing, epochs, now, n - 1));
    }
  }

  lemma Distribute(a: nat, b: nat)
    ensures a * (b + 1) == a * b + a
  {
  }

  lemma Share(bandwidth: nat, n: nat)
    requires n > 0
    ensures (bandwidth / n) * n <= bandwidth < (bandwidth / n + 1) * n
  {
  }

  /** Taking out peers that ask for less than the level leaves at least the level for the
      others. */
  lemma LevelRises(bandwidth: nat, level: nat, before: nat, after: nat)
    requires 0 < after <= before && level * after <= bandwidth
    ensures level <= bandwidth / after
  {
    Share(bandwidth, after);
    if bandwidth / after < level {
      MulMono(bandwidth / after + 1, level, after);
    }
  }

  lemma MulMono(a: nat, b: nat, m: nat)
    requires a <= b
    ensures a * m <= b * m
  {
  }

  // ---------- What is fair ----------

  /** Of the final level: everyone who shares is told the smaller of their own limit and the
      level, these limits sum to at most the host's bandwidth, and what is left over is less than
      one unit for each peer held to the level, plus the shares of the stale ones. */
  ghost predicate Fair(sharing: seq<bool>, wants: seq<u32>, told: seq<nat>, bandwidth: u32, level: nat, stale: nat)
    requires |sharing| == |wants| == |told|
  {
    && (forall i :: 0 <= i < |sharing| && sharing[i] ==> told[i] == Min(wants[i], level))
    && Told(sharing, wants, level, |sharing|) <= bandwidth
    && (Limited(sharing, wants, level, |sharing|) > 0 ==>
          bandwidth < Told(sharing, wants, level, |sharing|) + Limited(sharing, wants, level, |sharing|)
                      + (level + 1) * stale)
  }

  /** Those who would gain from a higher level. */
  ghost function Above(sharing: seq<bool>, wants: seq<u32>, level: nat, n: nat): (c: nat)
    requires n <= |sharing| == |wants|
  {
    if n == 0 then 0
    else Above(sharing, wants, level, n - 1) + if sharing[n - 1] && wants[n - 1] > level then 1 else 0
  }

  /** A level at which the rounds can stop: it fits, but one more unit for each peer that asks
      for at least the level does not. */
  ghost predicate Stops(sharing: seq<bool>, wants: seq<u32>, bandwidth: nat, level: nat)
    requires |sharing| == |wants|
  {
    var n := |sharing|;
    Told(sharing, wants, level, n) <= bandwidth < Told(sharing, wants, level, n) + Limited(sharing, wants, level, n)
  }

  ghost predicate Lowest(sharing: seq<bool>, wants: seq<u32>, bandwidth: nat, level: nat)
    requires |sharing| == |wants|
  {
    forall l: nat :: Stops(sharing, wants, bandwidth, l) ==> level <= l
  }

  /** Some peer's own limit is such a level, yet one more unit for those who ask for more than
      it, of whom there are some, would fit. */
  ghost predicate Tied(sharing: seq<bool>, wants: seq<u32>, bandwidth: nat)
    requires |sharing| == |wants|
  {
    exists k :: 0 <= k < |sharing| && sharing[k] && wants[k] > 0 && TiedAt(sharing, wants, bandwidth, wants[k])
  }

  ghost predicate TiedAt(sharing: seq<bool>, wants: seq<u32>, bandwidth: nat, level: nat)
    requires |sharing| == |wants|
  {
    && Stops(sharing, wants, bandwidth, level)
    && 0 < Above(sharing, wants, level, |sharing|) <= bandwidth - Told(sharing, wants, level, |sharing|)
  }

  lemma {:induction false} OneMore(sharing: seq<bool>, wants: seq<u32>, level: nat, n: nat)
    requires n <= |sharing| == |wants|
    ensures Told(sharing, wants, level + 1, n) == Told(sharing, wants, level, n) + Above(sharing, wants, level, n)
    ensures Above(sharing, wants, level, n) <= Limited(sharing, wants, level, n)
    decreases n
  {
    if n > 0 {
      OneMore(sharing, wants, level, n - 1);
    }
  }

  lemma {:induction false} AboveLimited(sharing: seq<bool>, wants: seq<u32>, level: nat, n: nat)
    requires n <= |sharing| == |wants|
    requires forall i :: 0 <= i < n && sharing[i] && wants[i] > 0 ==> wants[i] != level
    ensures Above(sharing, wants, level, n) == Limited(sharing, wants, level, n)
    decreases n
  {
    if n > 0 {
      AboveLimited(sharing, wants, level, n - 1);
    }
  }

  lemma {:induction false} LimitedAbove(sharing: seq<bool>, wants: seq<u32>, level: nat, n: nat, k: nat)
    requires k < n <= |sharing| == |wants| && sharing[k] && wants[k] > 0
    ensures wants[k] >= level ==> Limited(sharing, wants, level, n) > 0
    ensures wants[k] > level ==> Above(sharing, wants, level, n) > 0
    decreases n
  {
    if k < n - 1 {
      LimitedAbove(sharing, wants, level, n - 1, k);
    }
  }

  lemma {:induction false} ToldGrows(sharing: seq<bool>, wants: seq<u32>, level: nat, higher: nat, n: nat)
    requires n <= |sharing| == |wants| && level <= higher
    ensures Told(sharing, wants, level, n) <= Told(sharing, wants, higher, n)
    decreases n
  {
    if n > 0 {
      ToldGrows(sharing, wants, level, higher, n - 1);
    }
  }

  /** The level the rounds end with, the lowest at which they can stop, is not the highest that
      fits exactly when the limits asked for are tied. */
  lemma LevelIsLowIffTied(sharing: seq<bool>, wants: seq<u32>, told: seq<nat>, bandwidth: u32, level: nat)
    requires |sharing| == |wants| == |told| && Fair(sharing, wants, told, bandwidth, level, 0)
    requires Lowest(sharing, wants, bandwidth, level)
    ensures Above(sharing, wants, level, |sharing|) > 0 && Told(sharing, wants, level + 1, |sharing|) <= bandwidth
            <==> Tied(sharing, wants, bandwidth)
  {
    hide Told, Above, Limited;
    var n := |sharing|;
    OneMore(sharing, wants, level, n);
    if Above(sharing, wants, level, n) > 0 && Told(sharing, wants, level + 1, n) <= bandwidth {
      if forall i :: 0 <= i < n && sharing[i] && wants[i] > 0 ==> wants[i] != level {
        AboveLimited(sharing, wants, level, n);
        assert false;
      }
      var k :| 0 <= k < n && sharing[k] && wants[k] > 0 && wants[k] == level;
      assert TiedAt(sharing, wants, bandwidth, wants[k]);
    }
    if Tied(sharing, wants, bandwidth) {
      var k :| 0 <= k < n && sharing[k] && wants[k] > 0 && TiedAt(sharing, wants, bandwidth, wants[k]);
      if level < wants[k] {
        LimitedAbove(sharing, wants, level, n, k);
        ToldGrows(sharing, wants, level + 1, wants[k], n);
      }
    }
  }

  /** The redistribution: level by level, peers that ask for less than their share are marked
      and their demand taken off, until none is. A limit of zero means none. */
  method Redistribute(connected: seq<bool>, wants: seq<u32>, epochs: array<u32>, now: u32, incomingBandwidth: u32,
                      connectedPeers: u32)
    returns (told: seq<nat>, ghost levels: seq<nat>)
    requires |connected| == |wants| == epochs.Length
    requires connectedPeers == Count(connected, |connected|)
    modifies epochs
    ensures |told| == |connected|
    ensures incomingBandwidth == 0 ==>
      forall i :: 0 <= i < |told| && connected[i] && old(epochs[i]) != now ==> told[i] == 0
    ensures forall i :: 0 <= i < |told| && connected[i] && old(epochs[i]) == now ==> told[i] == wants[i]
    ensures forall a, b :: 0 <= a < b < |levels| ==> levels[a] <= levels[b]
    ensures incomingBandwidth != 0 && connectedPeers > 0 ==>
      && levels != [] && levels[0] == incomingBandwidth / connectedPeers
      && var sharing, stale := Sharing(connected, old(epochs[..]), now), Stale(connected, old(epochs[..]), now);
        var level := levels[|levels| - 1];
        && Fair(sharing, wants, told, incomingBandwidth, level, stale)
        && Lowest(sharing, wants, incomingBandwidth, level)
        && (connectedPeers <= incomingBandwidth ==> ZeroOnlyIfAsked(sharing, wants, told))
        && (stale == 0 ==>
              (Above(sharing, wants, level, |sharing|) > 0
               && Told(sharing, wants, level + 1, |sharing|) <= incomingBandwidth
               <==> Tied(sharing, wants, incomingBandwidth)))
  {
    hide Budget, Tight, Settled, Stops, Tied, Fair, Stale, Told, Above, Lowest, ZeroOnlyIfAsked;
    ghost var sharing, stale := Sharing(connected, epochs[..], now), Stale(connected, epochs[..], now);
    var peersRemaining: nat, bandwidth: nat := connectedPeers, incomingBandwidth;
    var needsAdjustment, bandwidthLimit: nat := true, 0;
    levels := [];
    if bandwidth == 0 {
      bandwidthLimit := 0;
    } else {
      BudgetBegins(connected, epochs[..], wants, now, bandwidth);
      LowestAtFirst(sharing, wants, incomingBandwidth);
      while peersRemaining > 0 && needsAdjustment
        invariant Budget(sharing, epochs[..], wants, now, bandwidth, peersRemaining, bandwidthLimit, incomingBandwidth,
          stale)
        invariant forall i :: 0 <= i < |connected| && !sharing[i] ==> epochs[i] == old(epochs[i])
        invariant levels == [] ==> needsAdjustment && peersRemaining == connectedPeers && bandwidth == incomingBandwidth
        invariant levels != [] ==>
          && connectedPeers > 0 && bandwidthLimit == levels[|levels| - 1]
          && levels[0] == incomingBandwidth / connectedPeers
        invariant forall a, b :: 0 <= a < b < |levels| ==> levels[a] <= levels[b]
        invariant !needsAdjustment ==>
          Settled(sharing, epochs[..], wants, now, bandwidthLimit) && Tight(bandwidth, bandwidthLimit, peersRemaining)
        invariant Lowest(sharing, wants, incomingBandwidth, bandwidthLimit)
        decreases peersRemaining, needsAdjustment
      {
        NewLevel(sharing, epochs[..], wants, now, bandwidth, peersRemaining, bandwidthLimit, incomingBandwidth, stale);
        LowestLater(sharing, epochs[..], wants, now, bandwidth, peersRemaining, bandwidthLimit, incomingBandwidth,
          stale);
        bandwidthLimit := bandwidth / peersRemaining;
        levels := levels + [bandwidthLimit];
        bandwidth, peersRemaining, needsAdjustment :=
          Round(connected, wants, epochs, now, bandwidth, peersRemaining, bandwidthLimit, sharing, incomingBandwidth,
            stale);
      }
      if levels != [] {
        AllSettled(sharing, epochs[..], wants, now, bandwidth, peersRemaining, bandwidthLimit, incomingBandwidth, stale,
                   needsAdjustment);
        LevelIsFair(sharing, epochs[..], wants, now, bandwidth, peersRemaining, bandwidthLimit, incomingBandwidth,
          stale);
        SettledTold(sharing, epochs[..], wants, now, bandwidthLimit);
      }
    }
    told := Tell(connected, wants, epochs, now, bandwidthLimit);
    if levels != [] {
      LeastLevel(sharing, wants, told, incomingBandwidth, connectedPeers, bandwidthLimit);
      FairNow(sharing, wants, told, incomingBandwidth, bandwidthLimit, stale);
      if stale == 0 {
        LevelIsLowIffTied(sharing, wants, told, incomingBandwidth, bandwidthLimit);
      }
    }
  }

  /** Zero stands for no limit: only peers that set no limit of their own are told so. */
  ghost predicate ZeroOnlyIfAsked(sharing: seq<bool>, wants: seq<u32>, told: seq<nat>)
    requires |sharing| == |wants| == |told|
  {
    forall i :: 0 <= i < |sharing| && sharing[i] && told[i] == 0 ==> wants[i] == 0
  }

  lemma LeastLevel(sharing: seq<bool>, wants: seq<u32>, told: seq<nat>, bandwidth: u32, connectedPeers: u32, level: nat)
    requires |sharing| == |wants| == |told| && connectedPeers > 0 && bandwidth / connectedPeers <= level
    requires forall i :: 0 <= i < |sharing| && sharing[i] ==> told[i] == Min(wants[i], level)
    ensures connectedPeers <= bandwidth ==> ZeroOnlyIfAsked(sharing, wants, told)
  {
    Share(bandwidth, connectedPeers);
  }

  /** The last loop: marked peers are told their own limit, the others the level. */
  method Tell(connected: seq<bool>, wants: seq<u32>, epochs: array<u32>, now: u32, level: nat) returns (told: seq<nat>)
    requires |connected| == |wants| == epochs.Length
    ensures |told| == |connected|
    ensures forall i :: 0 <= i < |told| && connected[i] ==> told[i] == if epochs[i] == now then wants[i] else level
  {
    told := [];
    for k := 0 to |connected|
      invariant |told| == k
      invariant forall i :: 0 <= i < k && connected[i] ==> told[i] == if epochs[i] == now then wants[i] else level
    {
      if !connected[k] {
        told := told + [0];
        continue;
      }
      told := told + [if epochs[k] == now then wants[k] else level];
    }
  }

  /** One round: peers that ask for less than the level are marked. */
  method Round(connected: seq<bool>, wants: seq<u32>, epochs: array<u32>, now: u32, bandwidth0: nat, remaining0: nat,
               level: nat, ghost sharing: seq<bool>, ghost total: nat, ghost stale: nat)
    returns (bandwidth: nat, remaining: nat, adjusted: bool)
    requires |connected| == |sharing| == |wants| == epochs.Length
    requires forall i :: 0 <= i < |connected| ==>
      (sharing[i] ==> connected[i]) && (!sharing[i] ==> !connected[i] || epochs[i] == now)
    requires Budget(sharing, epochs[..], wants, now, bandwidth0, remaining0, level, total, stale)
    modifies epochs
    ensures Budget(sharing, epochs[..], wants, now, bandwidth, remaining, level, total, stale)
    ensures Settled(sharing, epochs[..], wants, now, level)
    ensures remaining <= remaining0 && (adjusted <==> remaining < remaining0)
    ensures !adjusted ==> bandwidth == bandwidth0
    ensures forall i :: 0 <= i < |connected| && !sharing[i] ==> epochs[i] == old(epochs[i])
  {
    hide Budget, Settled;
    bandwidth, remaining, adjusted := bandwidth0, remaining0, false;
    for k := 0 to |connected|
      invariant Budget(sharing, epochs[..], wants, now, bandwidth, remaining, level, total, stale)
      invariant remaining <= remaining0 && (adjusted <==> remaining < remaining0)
      invariant !adjusted ==> bandwidth == bandwidth0
      invariant forall i :: 0 <= i < |connected| && !sharing[i] ==> epochs[i] == old(epochs[i])
      invariant forall i :: 0 <= i < k && sharing[i] && epochs[i] != now ==> wants[i] > 0 && wants[i] >= level
    {
      if !connected[k] || epochs[k] == now {
        continue;
      }
      if wants[k] > 0 && wants[k] >= level {
        continue;
      }
      ghost var was := epochs[..];
      BudgetMarked(sharing, was, wants, now, bandwidth, remaining, level, total, stale, k);
      epochs[k] := now;
      assert epochs[..] == was[k := now];
      adjusted := true;
      remaining := remaining - 1;
      bandwidth := bandwidth - wants[k];
    }
    RoundSettles(sharing, epochs[..], wants, now, bandwidth, remaining, level, total, stale);
  }

  /** What is left of the bandwidth covers the level for everyone not yet marked. */
  ghost predicate Budget(sharing: seq<bool>, epochs: seq<u32>, wants: seq<u32>, now: u32,
                         bandwidth: nat, remaining: nat, level: nat, total: nat, stale: nat)
    requires |sharing| == |epochs| == |wants|
  {
    && remaining == Remaining(sharing, epochs, now, |sharing|) + stale
    && bandwidth + Granted(sharing, epochs, wants, now, |sharing|) == total
    && level * remaining <= bandwidth
    && MarkedBelow(sharing, epochs, wants, now, level)
  }

  ghost predicate Tight(bandwidth: nat, level: nat, remaining: nat)
  {
    bandwidth < (level + 1) * remaining
  }

  lemma BudgetBegins(connected: seq<bool>, epochs: seq<u32>, wants: seq<u32>, now: u32, bandwidth: nat)
    requires |connected| == |epochs| == |wants|
    ensures Budget(Sharing(connected, epochs, now), epochs, wants, now, bandwidth, Count(connected, |connected|),
                   0, bandwidth, Stale(connected, epochs, now))
  {
    var sharing := Sharing(connected, epochs, now);
    RemainingAtFirst(sharing, epochs, now, |sharing|);
    MarkedNone(sharing, epochs, wants, now, |sharing|);
    SharingFewer(sharing, connected, |connected|);
  }

  lemma NewLevel(sharing: seq<bool>, epochs: seq<u32>, wants: seq<u32>, now: u32,
                 bandwidth: nat, remaining: nat, level: nat, total: nat, stale: nat)
    requires |sharing| == |epochs| == |wants| && remaining > 0
    requires Budget(sharing, epochs, wants, now, bandwidth, remaining, level, total, stale)
    ensures level <= bandwidth / remaining && Tight(bandwidth, bandwidth / remaining, remaining)
    ensures Budget(sharing, epochs, wants, now, bandwidth, remaining, bandwidth / remaining, total, stale)
  {
    Share(bandwidth, remaining);
    LevelRises(bandwidth, level, remaining, remaining);
  }

  /** No round goes past a level at which the rounds can stop. */
  lemma StopsLater(sharing: seq<bool>, epochs: seq<u32>, wants: seq<u32>, now: u32,
                   bandwidth: nat, remaining: nat, level: nat, total: nat, stale: nat, l: nat)
    requires |sharing| == |epochs| == |wants| && remaining > 0 && level <= l
    requires Budget(sharing, epochs, wants, now, bandwidth, remaining, level, total, stale)
    requires Stops(sharing, wants, total, l)
    ensures bandwidth / remaining <= l
  {
    hide Told, Limited, Granted, Remaining, Settled;
    var left := Remaining(sharing, epochs, now, |sharing|);
    ToldWithin(sharing, epochs, wants, now, level, l, |sharing|);
    if bandwidth / remaining >= l + 1 {
      Share(bandwidth, remaining);
      MulMono(l + 1, bandwidth / remaining, remaining);
      Apart(l + 1, left, stale);
    }
  }

  lemma LowestLater(sharing: seq<bool>, epochs: seq<u32>, wants: seq<u32>, now: u32,
                    bandwidth: nat, remaining: nat, level: nat, total: nat, stale: nat)
    requires |sharing| == |epochs| == |wants| && remaining > 0 && Lowest(sharing, wants, total, level)
    requires Budget(sharing, epochs, wants, now, bandwidth, remaining, level, total, stale)
    ensures Lowest(sharing, wants, total, bandwidth / remaining)
  {
    hide Budget, Stops;
    forall l: nat | Stops(sharing, wants, total, l)
      ensures bandwidth / remaining <= l
    {
      StopsLater(sharing, epochs, wants, now, bandwidth, remaining, level, total, stale, l);
    }
  }

  /** At the start nothing is ruled out. */
  lemma LowestAtFirst(sharing: seq<bool>, wants: seq<u32>, total: nat)
    requires |sharing| == |wants|
    ensures Lowest(sharing, wants, total, 0)
  {
  }

  lemma Apart(a: nat, b: nat, c: nat)
    ensures a * b <= a * (b + c)
  {
  }

  lemma {:induction false} ToldWithin(sharing: seq<bool>, epochs: seq<u32>, wants: seq<u32>, now: u32, level: nat,
                                      l: nat,
                                      n: nat)
    requires n <= |sharing| == |epochs| == |wants| && level <= l && MarkedBelow(sharing, epochs, wants, now, level)
    ensures Told(sharing, wants, l, n) + Limited(sharing, wants, l, n)
         <= Granted(sharing, epochs, wants, now, n) + (l + 1) * Remaining(sharing, epochs, now, n)
    decreases n
  {
    if n > 0 {
      ToldWithin(sharing, epochs, wants, now, level, l, n - 1);
      Distribute(l + 1, Remaining(sharing, epochs, now, n - 1));
    }
  }

  lemma BudgetMarked(sharing: seq<bool>, epochs: seq<u32>, wants: seq<u32>, now: u32,
                     bandwidth: nat, remaining: nat, level: nat, total: nat, stale: nat, k: nat)
    requires |sharing| == |epochs| == |wants|
    requires Budget(sharing, epochs, wants, now, bandwidth, remaining, level, total, stale)
    requires k < |sharing| && sharing[k] && epochs[k] != now && (wants[k] == 0 || wants[k] < level)
    ensures remaining > 0 && wants[k] <= bandwidth
    ensures Budget(sharing, epochs[k := now], wants, now, bandwidth - wants[k], remaining - 1, level, total, stale)
  {
    SomeoneRemains(sharing, epochs, now, |sharing|, k);
    RemainingMarked(sharing, epochs, now, |sharing|, k);
    GrantedMarked(sharing, epochs, wants, now, |sharing|, k);
    Distribute(level, remaining - 1);
  }

  lemma RoundSettles(sharing: seq<bool>, epochs: seq<u32>, wants: seq<u32>, now: u32,
                     bandwidth: nat, remaining: nat, level: nat, total: nat, stale: nat)
    requires |sharing| == |epochs| == |wants|
    requires Budget(sharing, epochs, wants, now, bandwidth, remaining, level, total, stale)
    requires forall i :: 0 <= i < |sharing| && sharing[i] && epochs[i] != now ==> wants[i] > 0 && wants[i] >= level
    ensures Settled(sharing, epochs, wants, now, level)
  {
  }

  lemma SettledTold(sharing: seq<bool>, epochs: seq<u32>, wants: seq<u32>, now: u32, level: nat)
    requires |sharing| == |epochs| == |wants| && Settled(sharing, epochs, wants, now, level)
    ensures forall i :: 0 <= i < |sharing| && sharing[i] ==>
      Min(wants[i], level) == if epochs[i] == now then wants[i] else level
  {
  }

  /** Whoever is marked asked for less than the level, or for nothing. */
  ghost predicate MarkedBelow(sharing: seq<bool>, epochs: seq<u32>, wants: seq<u32>, now: u32, level: nat)
    requires |sharing| == |epochs| == |wants|
  {
    forall i :: 0 <= i < |sharing| && sharing[i] && epochs[i] == now ==> wants[i] == 0 || wants[i] < level
  }

  /** When the rounds end the level is settled, whether nobody is left or nobody was marked. */
  lemma AllSettled(sharing: seq<bool>, epochs: seq<u32>, wants: seq<u32>, now: u32,
                   bandwidth: nat, remaining: nat, level: nat, total: nat, stale: nat, adjusted: bool)
    requires |sharing| == |epochs| == |wants|
    requires Budget(sharing, epochs, wants, now, bandwidth, remaining, level, total, stale)
    requires !adjusted ==> Settled(sharing, epochs, wants, now, level) && Tight(bandwidth, level, remaining)
    requires adjusted ==> remaining == 0
    ensures Settled(sharing, epochs, wants, now, level) && (remaining > 0 ==> Tight(bandwidth, level, remaining))
  {
    if adjusted {
      forall i | 0 <= i < |sharing| && sharing[i]
        ensures epochs[i] == now
      {
        if epochs[i] != now {
          SomeoneRemains(sharing, epochs, now, |sharing|, i);
        }
      }
    }
  }

  /** Of a settled level: the sums that Fair speaks of. */
  lemma LevelIsFair(sharing: seq<bool>, epochs: seq<u32>, wants: seq<u32>, now: u32,
                    bandwidth: nat, remaining: nat, level: nat, total: nat, stale: nat)
    requires |sharing| == |epochs| == |wants| && Settled(sharing, epochs, wants, now, level)
    requires Budget(sharing, epochs, wants, now, bandwidth, remaining, level, total, stale)
    requires remaining > 0 ==> Tight(bandwidth, level, remaining)
    ensures Told(sharing, wants, level, |sharing|) <= total
    ensures Limited(sharing, wants, level, |sharing|) > 0 ==>
      total < Told(sharing, wants, level, |sharing|) + Limited(sharing, wants, level, |sharing|) + (level + 1) * stale
  {
    ToldIs(sharing, epochs, wants, now, level, |sharing|);
    LimitedIs(sharing, epochs, wants, now, level, |sharing|);
    Commute(level, Remaining(sharing, epochs, now, |sharing|));
    Spread(level + 1, Remaining(sharing, epochs, now, |sharing|), stale);
    Apart(level, Remaining(sharing, epochs, now, |sharing|), stale);
  }

  lemma Spread(a: nat, b: nat, c: nat)
    ensures a * (b + c) == a * b + a * c
  {
  }

  lemma FairNow(sharing: seq<bool>, wants: seq<u32>, told: seq<nat>, bandwidth: u32, level: nat, stale: nat)
    requires |sharing| == |wants| == |told|
    requires forall i :: 0 <= i < |sharing| && sharing[i] ==> told[i] == Min(wants[i], level)
    requires Told(sharing, wants, level, |sharing|) <= bandwidth
    requires Limited(sharing, wants, level, |sharing|) > 0 ==>
      bandwidth < Told(sharing, wants, level, |sharing|) + Limited(sharing, wants, level, |sharing|)
        + (level + 1) * stale
    ensures Fair(sharing, wants, told, bandwidth, level, stale)
  {
  }

  lemma Commute(level: nat, n: nat)
    ensures (level + 1) * n == level * n + n
  {
  }

  lemma {:induction false} MarkedNone(sharing: seq<bool>, epochs: seq<u32>, wants: seq<u32>, now: u32, n: nat)
    requires n <= |sharing| == |epochs| == |wants|
    requires forall i :: 0 <= i < |sharing| && sharing[i] ==> epochs[i] != now
    ensures Granted(sharing, epochs, wants, now, n) == 0
    decreases n
  {
    if n > 0 {
      MarkedNone(sharing, epochs, wants, now, n - 1);
    }
  }

  /** Peers that ask for 3, 3 and 100 are tied when the host has 10: a level as Redistribute
      finds it can only be 3, though 4 fits. */
  lemma TiedAtThree(sharing: seq<bool>, wants: seq<u32>)
    requires sharing == [true, true, true] && wants == [3, 3, 100]
    ensures Tied(sharing, wants, 10) && Stops(sharing, wants, 10, 3) && Told(sharing, wants, 4, 3) == 10
    ensures forall told: seq<nat>, level: nat ::
      |told| == 3 && Fair(sharing, wants, told, 10, level, 0) && Lowest(sharing, wants, 10, level) ==> level == 3
  {
    ToldOfThree(sharing, wants, 3);
    ToldOfThree(sharing, wants, 4);
    assert TiedAt(sharing, wants, 10, wants[0]);
    forall told: seq<nat>, level: nat
      | |told| == 3 && Fair(sharing, wants, told, 10, level, 0) && Lowest(sharing, wants, 10, level)
      ensures level == 3
    {
      ToldOfThree(sharing, wants, level);
      assert level <= 3;
    }
  }

  lemma ToldOfThree(sharing: seq<bool>, wants: seq<u32>, level: nat)
    requires sharing == [true, true, true] && wants == [3, 3, 100]
    ensures Told(sharing, wants, level, 3) == 2 * Min(3, level) + Min(100, level)
    ensures Above(sharing, wants, level, 3) == if level < 3 then 3 else if level < 100 then 1 else 0
    ensures Limited(sharing, wants, level, 3) == if level <= 3 then 3 else if level <= 100 then 1 else 0
  {
    assert Told(sharing, wants, level, 1) == Min(3, level);
    assert Told(sharing, wants, level, 2) == 2 * Min(3, level);
    assert Above(sharing, wants, level, 1) == if level < 3 then 1 else 0;
    assert Above(sharing, wants, level, 2) == if level < 3 then 2 else 0;
    assert Limited(sharing, wants, level, 1) == if level <= 3 then 1 else 0;
    assert Limited(sharing, wants, level, 2) == if level <= 3 then 2 else 0;
  }
}
