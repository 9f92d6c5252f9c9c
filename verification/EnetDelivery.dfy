/** What the receiving channel holds at any moment, in terms of the packets the sender queued. */
module EnetDelivery {
  import opened Words
  import opened EnetWindows
  import opened EnetReceive
  import opened EnetFragments

  // ---------- The invariant ----------

  /** Entry x holds what arrived of packet j. */
  ghost predicate EntryOk(x: Incoming, size: nat, packets: seq<seq<u8>>, j: nat)
    requires size > 0
  {
    && j < |packets| && x.sn == Seq(First(size, packets, j))
    && if |packets[j]| <= size then x.count == 0 && x.remaining == 0 && x.data == packets[j]
       else
         && x.count == Count(size, packets[j]) && Filled(size, packets[j], x.bits, x.data)
         && x.remaining == Clear(x.bits)
  }

  ghost predicate Ascending(js: seq<nat>)
  {
    forall i, k :: 0 <= i < k < |js| ==> js[i] < js[k]
  }

  /** The packets before d were dispatched, whole and in order; entry i belongs to packet
      js[i], at or after d, which the sender has started to send. */
  ghost predicate ChannelInv(c: Channel, size: nat, packets: seq<seq<u8>>, d: nat, js: seq<nat>, s: nat)
    requires size > 0
  {
    && d <= |packets| && c.dispatched == packets[..d] && c.incoming == Seq(Total(size, packets[..d]))
    && Total(size, packets[..d]) <= s
    && |js| == |c.queue| && Ascending(js)
    && (forall i :: 0 <= i < |js| ==> Expected(c.queue[i], size, packets, d, js[i], s))
  }

  ghost predicate Expected(x: Incoming, size: nat, packets: seq<seq<u8>>, d: nat, j: nat, s: nat)
    requires size > 0
  {
    && d <= j && EntryOk(x, size, packets, j) && First(size, packets, j) <= s
    && forall i :: 0 <= i < |x.bits| && x.bits[i] ==> First(size, packets, j) + i <= s
  }

  /** Command i of packet j has arrived. */
  ghost predicate Received(c: Channel, d: nat, js: seq<nat>, j: nat, i: nat)
    requires |js| == |c.queue|
  {
    j < d || exists k ::
      0 <= k < |js| && js[k] == j && (c.queue[k].count == 0 || (i < |c.queue[k].bits| && c.queue[k].bits[i]))
  }

  /** Nothing that arrived is forgotten. */
  ghost predicate Keeps(c: Channel, d: nat, js: seq<nat>, c': Channel, d': nat, js': seq<nat>)
    requires |js| == |c.queue| && |js'| == |c'.queue|
  {
    forall j: nat, i: nat :: Received(c, d, js, j, i) ==> Received(c', d', js', j, i)
  }

  /** The last number dispatched. */
  function Last(size: nat, packets: seq<seq<u8>>, d: nat): (n: nat)
    requires size > 0 && d <= |packets|
  {
    Total(size, packets[..d])
  }

  // ---------- Numbers in order ----------

  lemma KeyExact(n: nat, last: nat)
    requires last <= n < last + SEQUENCE
    ensures Key(Seq(n), Seq(last)) == n - last + Seq(last)
  {
    LapOf(n);
    LapOf(last);
  }

  lemma SeqInjective(a: nat, b: nat)
    requires Seq(a) == Seq(b) && -SEQUENCE < a - b < SEQUENCE
    ensures a == b
  {
  }

  lemma FirstAfter(size: nat, packets: seq<seq<u8>>, d: nat, j: nat)
    requires size > 0 && d <= j < |packets|
    ensures Last(size, packets, d) < First(size, packets, j)
  {
    if d < j {
      FirstMonotone(size, packets, d, j);
    }
  }

  lemma FirstOrder(size: nat, packets: seq<seq<u8>>, i: nat, j: nat)
    requires size > 0 && i < |packets| && j < |packets|
    ensures First(size, packets, i) < First(size, packets, j) <==> i < j
    ensures First(size, packets, i) == First(size, packets, j) <==> i == j
  {
    if i < j {
      FirstMonotone(size, packets, i, j);
      CountCovers(size, packets[i]);
    } else if j < i {
      FirstMonotone(size, packets, j, i);
      CountCovers(size, packets[j]);
    }
  }

  /** Everything sent is less than a lap ahead. */
  predicate Near(size: nat, packets: seq<seq<u8>>, d: nat, s: nat)
    requires size > 0 && d <= |packets|
  {
    s < Last(size, packets, d) + SEQUENCE
  }

  ghost predicate Placed(js: seq<nat>, j: nat, k: nat)
  {
    && k <= |js|
    && (forall i :: 0 <= i < k ==> js[i] <= j)
    && (forall i :: k <= i < |js| ==> j < js[i])
  }

  /** The backward scan of the queue finds the place of packet j. */
  lemma {:induction false} PlaceExact(queue: seq<Incoming>, size: nat, packets: seq<seq<u8>>, d: nat, js: seq<nat>,
                                      s: nat, j: nat)
    requires size > 0 && d <= j < |packets| && First(size, packets, j) <= s && Near(size, packets, d, s)
    requires |js| == |queue| && Ascending(js)
    requires forall i :: 0 <= i < |js| ==> d <= js[i] < |packets| && First(size, packets, js[i]) <= s
                                            && queue[i].sn == Seq(First(size, packets, js[i]))
    ensures var k := Place(queue, Seq(Last(size, packets, d)), Seq(First(size, packets, j)));
      && Placed(js, j, k)
      && (k > 0 ==> (queue[k - 1].sn == Seq(First(size, packets, j)) <==> js[k - 1] == j))
    decreases |queue|
  {
    hide Total, First, Last, Seq, Key;
    FirstAfter(size, packets, d, j);
    if queue != [] {
      var last := |queue| - 1;
      FirstAfter(size, packets, d, js[last]);
      FirstOrder(size, packets, js[last], j);
      KeyOrder(First(size, packets, js[last]), First(size, packets, j), Last(size, packets, d), s);
      if First(size, packets, js[last]) > First(size, packets, j) {
        PlaceExact(queue[..last], size, packets, d, js[..last], s, j);
      }
    }
  }

  lemma KeyOrder(a: nat, b: nat, last: nat, s: nat)
    requires last <= a <= s && last <= b <= s && s < last + SEQUENCE
    ensures Key(Seq(a), Seq(last)) <= Key(Seq(b), Seq(last)) <==> a <= b
    ensures Seq(a) == Seq(b) <==> a == b
  {
    KeyExact(a, last);
    KeyExact(b, last);
    if Seq(a) == Seq(b) {
      SeqInjective(a, b);
    }
  }

  // ---------- Dispatch ----------

  /** A complete entry holds its packet. */
  lemma CompleteEntry(x: Incoming, size: nat, packets: seq<seq<u8>>, j: nat)
    requires size > 0 && EntryOk(x, size, packets, j)
    ensures x.remaining >= 0
    ensures x.remaining <= 0 ==> x.data == packets[j]
    ensures (if x.count > 0 then Seq(x.sn + x.count - 1) else x.sn) == Seq(Total(size, packets[..j + 1]))
    ensures x.remaining <= 0 && x.count > 0 ==> forall i :: 0 <= i < |x.bits| ==> x.bits[i]
    ensures x.count > 0 ==> |x.bits| == x.count == Count(size, packets[j])
  {
    hide Filled;
    TotalNext(size, packets, j);
    if |packets[j]| > size {
      CountCovers(size, packets[j]);
      FilledLength(size, packets[j], x.bits, x.data);
      SeqPlus(First(size, packets, j), x.count - 1);
      if x.remaining <= 0 {
        FilledWhole(size, packets[j], x.bits, x.data);
        NoneClear(x.bits);
      }
    }
  }

  /** All of a complete entry was sent. */
  lemma CompleteSent(x: Incoming, size: nat, packets: seq<seq<u8>>, d: nat, j: nat, s: nat)
    requires size > 0 && Expected(x, size, packets, d, j, s) && x.remaining <= 0
    ensures j < |packets| && Total(size, packets[..j + 1]) <= s
  {
    hide Filled;
    TotalNext(size, packets, j);
    CompleteEntry(x, size, packets, j);
    CountCovers(size, packets[j]);
    if |packets[j]| > size {
      assert x.bits[x.count - 1];
    }
  }

  lemma FilledLength(size: nat, p: seq<u8>, bits: seq<bool>, data: seq<u8>)
    requires size > 0 && |p| > size && Filled(size, p, bits, data)
    ensures |bits| == Count(size, p) && |data| == |p|
  {
  }

  lemma SeqPlus(n: nat, k: nat)
    ensures Seq(Seq(n) + k) == Seq(n + k)
  {
  }

  /** Dispatching moves the complete run of packets at the front, in order, and nothing is
      forgotten. */
  lemma {:induction false} DispatchInv(c: Channel, size: nat, packets: seq<seq<u8>>, d: nat, js: seq<nat>, s: nat)
    returns (d': nat, js': seq<nat>)
    requires size > 0 && ChannelInv(c, size, packets, d, js, s) && Near(size, packets, d, s)
    ensures d' >= d && ChannelInv(Dispatch(c), size, packets, d', js', s) && Near(size, packets, d', s)
    ensures !Ready(Dispatch(c))
    ensures Keeps(c, d, js, Dispatch(c), d', js')
    decreases |c.queue|
  {
    hide Total, First, Last, Seq, Count, EntryOk, Near, Received;
    if Ready(c) {
      var x := c.queue[0];
      HeadIsNext(c, size, packets, d, js, s);
      CompleteEntry(x, size, packets, d);
      CompleteSent(x, size, packets, d, d, s);
      var c1 := Channel(if x.count > 0 then Seq(x.sn + x.count - 1) else x.sn, c.queue[1..], c.dispatched + [x.data]);
      StepInv(c, size, packets, d, js, s, c1);
      NearStays(size, packets, d, s);
      forall j: nat, i: nat | Received(c, d, js, j, i)
        ensures Received(c1, d + 1, js[1..], j, i)
      {
        StepReceived(c, d, js, j, i, c1);
      }
      d', js' := DispatchInv(c1, size, packets, d + 1, js[1..], s);
    } else {
      d', js' := d, js;
    }
  }

  lemma HeadIsNext(c: Channel, size: nat, packets: seq<seq<u8>>, d: nat, js: seq<nat>, s: nat)
    requires size > 0 && ChannelInv(c, size, packets, d, js, s) && Near(size, packets, d, s) && c.queue != []
    ensures c.queue[0].sn == Seq(c.incoming + 1) <==> js[0] == d
    ensures EntryOk(c.queue[0], size, packets, js[0]) && js[0] < |packets|
      && Expected(c.queue[0], size, packets, d, js[0], s)
  {
    hide Total, Seq, Count, Filled;
    FirstAfter(size, packets, d, js[0]);
    SeqNext(Last(size, packets, d));
    assert EntryOk(c.queue[0], size, packets, js[0]);
    if c.queue[0].sn == Seq(c.incoming + 1) {
      SeqInjective(First(size, packets, js[0]), Last(size, packets, d) + 1);
      FirstOrder(size, packets, js[0], d);
    }
  }

  lemma SeqNext(n: nat)
    ensures Seq(Seq(n) + 1) == Seq(n + 1)
  {
  }

  lemma StepInv(c: Channel, size: nat, packets: seq<seq<u8>>, d: nat, js: seq<nat>, s: nat, c1: Channel)
    requires size > 0 && ChannelInv(c, size, packets, d, js, s) && c.queue != [] && js[0] == d < |packets|
    requires c1.queue == c.queue[1..] && c1.dispatched == c.dispatched + [packets[d]]
    requires c1.incoming == Seq(Total(size, packets[..d + 1])) && Total(size, packets[..d + 1]) <= s
    ensures ChannelInv(c1, size, packets, d + 1, js[1..], s)
  {
    hide Total, First, Seq, EntryOk;
    assert packets[..d + 1] == packets[..d] + [packets[d]];
  }

  lemma NearStays(size: nat, packets: seq<seq<u8>>, d: nat, s: nat)
    requires size > 0 && d < |packets| && Near(size, packets, d, s)
    ensures Near(size, packets, d + 1, s)
  {
    TotalNext(size, packets, d);
  }

  lemma StepReceived(c: Channel, d: nat, js: seq<nat>, j: nat, i: nat, c1: Channel)
    requires |js| == |c.queue| > 0 && js[0] == d && c1.queue == c.queue[1..] && Received(c, d, js, j, i)
    ensures Received(c1, d + 1, js[1..], j, i)
  {
    if j > d {
      var k :| 0 <= k < |js| && js[k] == j && (c.queue[k].count == 0 || (i < |c.queue[k].bits| && c.queue[k].bits[i]));
      assert js[1..][k - 1] == j && c1.queue[k - 1] == c.queue[k];
    }
  }

  // ---------- Arrival ----------

  lemma InsertInv(c: Channel, size: nat, packets: seq<seq<u8>>, d: nat, js: seq<nat>, s: nat, j: nat, k: nat,
                  x: Incoming)
    requires size > 0 && ChannelInv(c, size, packets, d, js, s) && d <= j
    requires Placed(js, j, k) && (k > 0 ==> js[k - 1] != j)
    requires Expected(x, size, packets, d, j, s)
    ensures var c', js' := c.(queue := Insert(c.queue, k, x)), js[..k] + [j] + js[k..];
      && ChannelInv(c', size, packets, d, js', s) && Keeps(c, d, js, c', d, js')
      && js'[k] == j && c'.queue[k] == x
  {
    hide Expected, First, Total, Seq, Ascending, Placed, Insert, Keeps;
    InsertAscending(js, j, k);
    InsertAt(c.queue, js, k, x, j);
    InsertKeeps(c, d, js, k, x, j);
    var queue', js' := Insert(c.queue, k, x), js[..k] + [j] + js[k..];
    forall i | 0 <= i < |js'|
      ensures Expected(queue'[i], size, packets, d, js'[i], s)
    {
      assert i < k ==> queue'[i] == c.queue[i] && js'[i] == js[i];
      assert i > k ==> queue'[i] == c.queue[i - 1] && js'[i] == js[i - 1];
    }
  }

  lemma ExpectedNow(x: Incoming, size: nat, packets: seq<seq<u8>>, d: nat, j: nat, s: nat)
    requires size > 0 && d <= j && EntryOk(x, size, packets, j) && First(size, packets, j) <= s
    requires forall i :: 0 <= i < |x.bits| ==> !x.bits[i]
    ensures Expected(x, size, packets, d, j, s)
  {
  }

  lemma InsertAscending(js: seq<nat>, j: nat, k: nat)
    requires Ascending(js) && Placed(js, j, k) && (k > 0 ==> js[k - 1] != j)
    ensures k <= |js| && Ascending(js[..k] + [j] + js[k..])
  {
  }

  lemma InsertAt(queue: seq<Incoming>, js: seq<nat>, k: nat, x: Incoming, j: nat)
    requires k <= |queue| == |js|
    ensures var queue', js' := Insert(queue, k, x), js[..k] + [j] + js[k..];
      && |queue'| == |js'| == |js| + 1 && queue'[k] == x && js'[k] == j
      && (forall i :: 0 <= i < k ==> queue'[i] == queue[i] && js'[i] == js[i])
      && (forall i :: k < i <= |js| ==> queue'[i] == queue[i - 1] && js'[i] == js[i - 1])
  {
  }

  lemma InsertKeeps(c: Channel, d: nat, js: seq<nat>, k: nat, x: Incoming, j: nat)
    requires k <= |c.queue| == |js|
    ensures |Insert(c.queue, k, x)| == |js| + 1
    ensures Keeps(c, d, js, c.(queue := Insert(c.queue, k, x)), d, js[..k] + [j] + js[k..])
  {
    var c', js' := c.(queue := Insert(c.queue, k, x)), js[..k] + [j] + js[k..];
    forall m: nat, n: nat | Received(c, d, js, m, n)
      ensures Received(c', d, js', m, n)
    {
      if m >= d {
        var i :| 0 <= i < |js| && js[i] == m
          && (c.queue[i].count == 0 || (n < |c.queue[i].bits| && c.queue[i].bits[n]));
        var i' := if i < k then i else i + 1;
        assert js'[i'] == m && c'.queue[i'] == c.queue[i];
      }
    }
  }

  /** A queue entry takes in the fragment of its packet. */
  lemma MarkInv(c: Channel, size: nat, packets: seq<seq<u8>>, d: nat, js: seq<nat>, s: nat, k: nat, i: nat)
    requires size > 0 && ChannelInv(c, size, packets, d, js, s) && k < |js|
    requires js[k] < |packets| && |packets[js[k]]| > size && i < Count(size, packets[js[k]])
    requires First(size, packets, js[k]) + i <= s
    ensures var f, x := Sent(size, packets, js[k], i), c.queue[k];
      && f.Fragment? && f.number == i < |x.bits| && f.offset <= |x.data|
      && var c' := c.(queue := c.queue[k := Marked(x, i, f.offset, f.data)]);
        && ChannelInv(c', size, packets, d, js, s) && Keeps(c, d, js, c', d, js) && Received(c', d, js, js[k], i)
        && (x.bits[i] ==> c' == c)
  {
    hide First, Total, Seq, Count, Low, High, Filled, Clear;
    var j, x := js[k], c.queue[k];
    assert Expected(x, size, packets, d, j, s);
    Bounds(size, packets[j], i);
    FilledLength(size, packets[j], x.bits, x.data);
    var f := Sent(size, packets, j, i);
    var x' := Marked(x, i, f.offset, f.data);
    if !x.bits[i] {
      MarkFills(size, packets[j], x.bits, x.data, i);
      SetOne(x.bits, i);
      BoundsLength(size, packets[j], i);
    }
    assert Expected(x', size, packets, d, j, s);
    var c' := c.(queue := c.queue[k := x']);
    assert x.bits[i] ==> c'.queue == c.queue;
    MarkKeeps(c, d, js, k, i, x');
  }

  lemma BoundsLength(size: nat, p: seq<u8>, i: nat)
    requires size > 0 && |p| > size && i < Count(size, p)
    ensures Low(size, i) + (High(size, |p|, i) - Low(size, i)) <= |p|
  {
    Bounds(size, p, i);
  }

  lemma MarkKeeps(c: Channel, d: nat, js: seq<nat>, k: nat, i: nat, x': Incoming)
    requires |js| == |c.queue| && k < |js| && i < |c.queue[k].bits| && x'.count == c.queue[k].count
    requires x'.bits == c.queue[k].bits[i := true]
    ensures var c' := c.(queue := c.queue[k := x']);
      Keeps(c, d, js, c', d, js) && Received(c', d, js, js[k], i)
  {
    var c' := c.(queue := c.queue[k := x']);
    forall j: nat, n: nat | Received(c, d, js, j, n)
      ensures Received(c', d, js, j, n)
    {
      if j >= d {
        var m :| 0 <= m < |js| && js[m] == j
          && (c.queue[m].count == 0 || (n < |c.queue[m].bits| && c.queue[m].bits[n]));
        assert js[m] == j && (c'.queue[m].count == 0 || (n < |c'.queue[m].bits| && c'.queue[m].bits[n]));
      }
    }
    assert c'.queue[k] == x';
  }

  /** A command is told from a new one while the receiver is at most this many windows past the
      start of its packet. */
  const REACH := WINDOWS - FREE_WINDOWS + 1

  lemma BitsHold(c: Channel, size: nat, packets: seq<seq<u8>>, d: nat, js: seq<nat>, s: nat)
    requires size > 0 && ChannelInv(c, size, packets, d, js, s)
    ensures BitsOk(c.queue)
  {
    hide Filled, First, Total, Seq, Count, Clear;
    forall x | x in c.queue && x.count > 0
      ensures |x.bits| == x.count
    {
      var k :| 0 <= k < |c.queue| && c.queue[k] == x;
      assert Expected(x, size, packets, d, js[k], s);
      FilledLength(size, packets[js[k]], x.bits, x.data);
    }
  }

  /** A repeat of a dispatched packet's command changes nothing. */
  lemma OldArrives(c: Channel, size: nat, packets: seq<seq<u8>>, d: nat, js: seq<nat>, s: nat, j: nat, i: nat,
                   maximum: nat, full: bool)
    requires size > 0 && ChannelInv(c, size, packets, d, js, s) && BitsOk(c.queue)
    requires j < d && i < Count(size, packets[j])
    requires Window(Last(size, packets, d)) <= Window(First(size, packets, j)) + REACH
    ensures Handle(c, Sent(size, packets, j, i), maximum, full).channel == c
  {
    hide EntryOk, Expected, Total, Discards, Seq, Low, High, Count, Present, Place, Dispatch, Insert, FragmentBad;
    var first, last := First(size, packets, j), Last(size, packets, d);
    FirstMonotone(size, packets, j, d);
    CountCovers(size, packets[j]);
    if first < last {
      InOneLap(first, last);
      OldDuplicateDiscardedIff(first, last);
    }
  }

  lemma InOneLap(first: nat, last: nat)
    requires Window(last) <= Window(first) + REACH
    ensures last < first + SEQUENCE
  {
  }

  /** An entry takes in its fragment and is dispatched if that completed it. */
  lemma MarkEntryInv(c: Channel, size: nat, packets: seq<seq<u8>>, d: nat, js: seq<nat>, s: nat, k: nat, i: nat)
    returns (d': nat, js': seq<nat>)
    requires size > 0 && ChannelInv(c, size, packets, d, js, s) && Near(size, packets, d, s) && !Ready(c)
    requires k < |js| && js[k] < |packets| && |packets[js[k]]| > size && i < Count(size, packets[js[k]])
    requires First(size, packets, js[k]) + i <= s
    requires var f := Sent(size, packets, js[k], i);
      f.Fragment? && f.number == i < |c.queue[k].bits| && f.offset <= |c.queue[k].data|
    ensures var c' := MarkEntry(c, k, Sent(size, packets, js[k], i));
      && d' >= d && ChannelInv(c', size, packets, d', js', s) && Near(size, packets, d', s) && !Ready(c')
      && Keeps(c, d, js, c', d', js') && Received(c', d', js', js[k], i)
  {
    hide ChannelInv, Near, Sent, Keeps, Received, Dispatch, Count, Overwrite;
    LengthsAgree(c, size, packets, d, js, s);
    MarkInv(c, size, packets, d, js, s, k, i);
    var f, x := Sent(size, packets, js[k], i), c.queue[k];
    var c1 := c.(queue := c.queue[k := Marked(x, i, f.offset, f.data)]);
    d', js' := d, js;
    if !x.bits[i] && c1.queue[k].remaining <= 0 {
      d', js' := DispatchInv(c1, size, packets, d, js, s);
      LengthsAgree(Dispatch(c1), size, packets, d', js', s);
      KeepsReceived(c1, d, js, Dispatch(c1), d', js', js[k], i);
      KeepsTransitive(c, d, js, c1, d, js, Dispatch(c1), d', js');
    }
  }

  lemma LengthsAgree(c: Channel, size: nat, packets: seq<seq<u8>>, d: nat, js: seq<nat>, s: nat)
    requires size > 0 && ChannelInv(c, size, packets, d, js, s)
    ensures |js| == |c.queue|
  {
  }

  lemma KeepsReceived(c: Channel, d: nat, js: seq<nat>, c': Channel, d': nat, js': seq<nat>, j: nat, i: nat)
    requires |js| == |c.queue| && |js'| == |c'.queue| && Keeps(c, d, js, c', d', js') && Received(c, d, js, j, i)
    ensures Received(c', d', js', j, i)
  {
  }

  lemma KeepsTransitive(c: Channel, d: nat, js: seq<nat>, c1: Channel, d1: nat, js1: seq<nat>, c2: Channel, d2: nat,
                        js2: seq<nat>)
    requires |js| == |c.queue| && |js1| == |c1.queue| && |js2| == |c2.queue|
    requires Keeps(c, d, js, c1, d1, js1) && Keeps(c1, d1, js1, c2, d2, js2)
    ensures Keeps(c, d, js, c2, d2, js2)
  {
    hide Received;
  }

  lemma KeepsSelf(c: Channel, d: nat, js: seq<nat>)
    requires |js| == |c.queue|
    ensures Keeps(c, d, js, c, d, js)
  {
  }

  /** What the scan for packet j at or after d finds. */
  lemma Scan(c: Channel, size: nat, packets: seq<seq<u8>>, d: nat, js: seq<nat>, s: nat, j: nat)
    requires size > 0 && ChannelInv(c, size, packets, d, js, s) && Near(size, packets, d, s)
    requires d <= j < |packets| && First(size, packets, j) <= s
    ensures var k := Place(c.queue, c.incoming, Seq(First(size, packets, j)));
      && Placed(js, j, k) && |js| == |c.queue|
      && (k > 0 ==> (c.queue[k - 1].sn == Seq(First(size, packets, j)) <==> js[k - 1] == j))
      && (k > 0 ==> EntryOk(c.queue[k - 1], size, packets, js[k - 1]))
    ensures c.incoming != Seq(First(size, packets, j))
  {
    hide First, Total, Seq, Place, Filled, Clear, Count;
    forall i | 0 <= i < |js|
      ensures d <= js[i] < |packets| && First(size, packets, js[i]) <= s
        && c.queue[i].sn == Seq(First(size, packets, js[i]))
    {
      assert Expected(c.queue[i], size, packets, d, js[i], s);
    }
    LastIs(size, packets, d);
    PlaceExact(c.queue, size, packets, d, js, s, j);
    var k := Place(c.queue, c.incoming, Seq(First(size, packets, j)));
    if k > 0 {
      assert Expected(c.queue[k - 1], size, packets, d, js[k - 1], s);
    }
    FirstAfter(size, packets, d, j);
    if c.incoming == Seq(First(size, packets, j)) {
      SeqInjective(First(size, packets, j), Last(size, packets, d));
    }
  }

  lemma LastIs(size: nat, packets: seq<seq<u8>>, d: nat)
    requires size > 0 && d <= |packets|
    ensures Last(size, packets, d) == Total(size, packets[..d])
  {
  }

  lemma WholeReceived(c: Channel, d: nat, js: seq<nat>, k: nat, i: nat)
    requires |js| == |c.queue| && k < |js| && c.queue[k].count == 0
    ensures Received(c, d, js, js[k], i)
  {
  }

  lemma NotReadyInserted(c: Channel, k: nat, x: Incoming)
    requires !Ready(c) && k <= |c.queue| && x.remaining > 0
    ensures !Ready(c.(queue := Insert(c.queue, k, x)))
  {
  }

  /** A packet that fits one command arrives. */
  lemma WholeArrives(c: Channel, size: nat, packets: seq<seq<u8>>, d: nat, js: seq<nat>, s: nat, j: nat, maximum: nat,
                     full: bool)
    returns (d': nat, js': seq<nat>)
    requires size > 0 && ChannelInv(c, size, packets, d, js, s) && Near(size, packets, d, s) && !Ready(c)
    requires d <= j < |packets| && First(size, packets, j) <= s && |packets[j]| <= size
    ensures var r := HandleWhole(c, Seq(First(size, packets, j)), packets[j], maximum, full);
      && d' >= d && ChannelInv(r.channel, size, packets, d', js', s) && Near(size, packets, d', s) && !Ready(r.channel)
      && |js| == |c.queue| && Keeps(c, d, js, r.channel, d', js')
      && (r.code == 0 ==>
            || Received(r.channel, d', js', j, 0)
            || (r.channel == c && d' == d && js' == js && Discards(Seq(First(size, packets, j)), c.incoming)))
  {
    hide ChannelInv, Near, First, Seq, Keeps, Received, Dispatch, Place, Insert, Discards, Ready;
    d', js' := d, js;
    LengthsAgree(c, size, packets, d, js, s);
    KeepsSelf(c, d, js);
    Scan(c, size, packets, d, js, s, j);
    var sn := Seq(First(size, packets, j));
    if |packets[j]| <= maximum && !Discards(sn, c.incoming) {
      var k := Place(c.queue, c.incoming, sn);
      if Present(c.queue, c.incoming, sn) {
        WholeReceived(c, d, js, k - 1, 0);
      } else if !full {
        var x := Incoming(sn, 0, [], 0, packets[j]);
        ExpectedNow(x, size, packets, d, j, s);
        InsertInv(c, size, packets, d, js, s, j, k, x);
        var c1, js1 := c.(queue := Insert(c.queue, k, x)), js[..k] + [j] + js[k..];
        LengthsAgree(c1, size, packets, d, js1, s);
        WholeReceived(c1, d, js1, k, 0);
        d', js' := DispatchInv(c1, size, packets, d, js1, s);
        LengthsAgree(Dispatch(c1), size, packets, d', js', s);
        KeepsReceived(c1, d, js1, Dispatch(c1), d', js', j, 0);
        KeepsTransitive(c, d, js, c1, d, js1, Dispatch(c1), d', js');
      }
    }
  }

  lemma FreshEntry(size: nat, packets: seq<seq<u8>>, j: nat)
    requires size > 0 && j < |packets| && |packets[j]| > size
    ensures var n := Count(size, packets[j]);
      n > 0 && EntryOk(Incoming(Seq(First(size, packets, j)), n, NoBits(n), n, Blank(|packets[j]|)), size, packets, j)
  {
    CountCovers(size, packets[j]);
    NoneSet(Count(size, packets[j]));
  }

  lemma SentIs(size: nat, packets: seq<seq<u8>>, j: nat, i: nat)
    requires size > 0 && j < |packets| && |packets[j]| > size && i < Count(size, packets[j])
    ensures var f := Sent(size, packets, j, i);
      && f.Fragment? && f.start == Seq(First(size, packets, j)) && f.count == Count(size, packets[j]) && f.number == i
      && f.total == |packets[j]| && f.offset <= f.total && f.sn == Seq(First(size, packets, j) + i)
  {
    Bounds(size, packets[j], i);
  }

  lemma FragmentEntry(x: Incoming, size: nat, packets: seq<seq<u8>>, j: nat)
    requires size > 0 && EntryOk(x, size, packets, j) && |packets[j]| > size
    ensures |x.bits| == Count(size, packets[j]) && |x.data| == |packets[j]|
  {
    FilledLength(size, packets[j], x.bits, x.data);
  }

  /** A fragment arrives. */
  lemma FragmentArrives(c: Channel, size: nat, packets: seq<seq<u8>>, d: nat, js: seq<nat>, s: nat, j: nat, i: nat,
                        maximum: nat, full: bool)
    returns (d': nat, js': seq<nat>)
    requires size > 0 && ChannelInv(c, size, packets, d, js, s) && Near(size, packets, d, s) && !Ready(c)
      && BitsOk(c.queue)
    requires d <= j < |packets| && First(size, packets, j) + i <= s && |packets[j]| > size
      && i < Count(size, packets[j])
    ensures Sent(size, packets, j, i).Fragment?
    ensures var r := HandleFragment(c, Sent(size, packets, j, i), maximum, full);
      && d' >= d && ChannelInv(r.channel, size, packets, d', js', s) && Near(size, packets, d', s) && !Ready(r.channel)
      && |js| == |c.queue| && Keeps(c, d, js, r.channel, d', js')
      && (r.code == 0 ==>
            || Received(r.channel, d', js', j, i)
            || (r.channel == c && d' == d && js' == js && Discards(Seq(First(size, packets, j)), c.incoming)))
  {
    hide ChannelInv, Near, First, Seq, Keeps, Received, Dispatch, Place, Insert, Discards, Ready, Count, Sent, Filled,
      Clear, FragmentBad, MarkEntry;
    d', js' := d, js;
    LengthsAgree(c, size, packets, d, js, s);
    KeepsSelf(c, d, js);
    SentIs(size, packets, j, i);
    Scan(c, size, packets, d, js, s, j);
    var f := Sent(size, packets, j, i);
    if |f.data| <= maximum && !Discards(f.start, c.incoming) && !FragmentBad(f, maximum) {
      var k := Place(c.queue, c.incoming, f.start);
      if k > 0 && c.queue[k - 1].sn == f.start {
        FragmentEntry(c.queue[k - 1], size, packets, j);
        d', js' := MarkEntryInv(c, size, packets, d, js, s, k - 1, i);
      } else if !full {
        var x := Incoming(f.start, f.count, NoBits(f.count), f.count, Blank(f.total));
        FreshEntry(size, packets, j);
        ExpectedNow(x, size, packets, d, j, s);
        InsertInv(c, size, packets, d, js, s, j, k, x);
        var c1, js1 := c.(queue := Insert(c.queue, k, x)), js[..k] + [j] + js[k..];
        LengthsAgree(c1, size, packets, d, js1, s);
        NotReadyInserted(c, k, x);
        NothingReady(c1);
        d', js' := MarkEntryInv(c1, size, packets, d, js1, s, k, i);
        LengthsAgree(MarkEntry(c1, k, f), size, packets, d', js', s);
        KeepsTransitive(c, d, js, c1, d, js1, MarkEntry(c1, k, f), d', js');
      }
    }
  }

  lemma NothingReady(c: Channel)
    requires !Ready(c)
    ensures Dispatch(c) == c
  {
  }

  /** Command i of packet j arrives, for the first time or again: the channel still holds a
      prefix of the packets and part of the rest. When the handler reports success the command
      has been received, unless its packet is too many windows ahead, and then the channel has
      not changed. */
  lemma Arrives(c: Channel, size: nat, packets: seq<seq<u8>>, d: nat, js: seq<nat>, s: nat, j: nat, i: nat,
                maximum: nat, full: bool)
    returns (d': nat, js': seq<nat>)
    requires size > 0 && ChannelInv(c, size, packets, d, js, s) && Near(size, packets, d, s) && !Ready(c)
    requires j < |packets| && i < Count(size, packets[j])
    requires First(size, packets, j) + i <= s
    requires j < d ==> Window(Last(size, packets, d)) <= Window(First(size, packets, j)) + REACH
    ensures BitsOk(c.queue)
    ensures var r := Handle(c, Sent(size, packets, j, i), maximum, full);
      && d' >= d && ChannelInv(r.channel, size, packets, d', js', s) && Near(size, packets, d', s) && !Ready(r.channel)
      && |js| == |c.queue| && Keeps(c, d, js, r.channel, d', js')
      && (r.code == 0 ==>
            || Received(r.channel, d', js', j, i)
            || (r.channel == c && d' == d && js' == js && d <= j && Discards(Seq(First(size, packets, j)), c.incoming)))
  {
    hide ChannelInv, Near, First, Seq, Keeps, Received, Discards, Ready, Count, HandleWhole, HandleFragment, Low, High;
    BitsHold(c, size, packets, d, js, s);
    LengthsAgree(c, size, packets, d, js, s);
    if j < d {
      KeepsSelf(c, d, js);
      OldArrives(c, size, packets, d, js, s, j, i, maximum, full);
      d', js' := d, js;
      OldReceived(c, d, js, j, i);
    } else if |packets[j]| <= size {
      OneCommand(size, packets[j]);
      d', js' := WholeArrives(c, size, packets, d, js, s, j, maximum, full);
    } else {
      d', js' := FragmentArrives(c, size, packets, d, js, s, j, i, maximum, full);
    }
  }

  lemma OneCommand(size: nat, p: seq<u8>)
    requires size > 0 && |p| <= size
    ensures Count(size, p) == 1
  {
  }

  lemma OldReceived(c: Channel, d: nat, js: seq<nat>, j: nat, i: nat)
    requires |js| == |c.queue| && j < d
    ensures Received(c, d, js, j, i)
  {
  }

  // ---------- What is refused ----------

  /** A command the sender sent, of a packet within the receiver's limits, is refused in one case only:
      too much data waits, and it is the first to arrive of a packet that is yet to come. */
  lemma RefusedIff(c: Channel, size: nat, packets: seq<seq<u8>>, d: nat, js: seq<nat>, s: nat, j: nat, i: nat,
                   maximum: nat, full: bool)
    requires size > 0 && ChannelInv(c, size, packets, d, js, s) && Near(size, packets, d, s)
    requires j < |packets| && i < Count(size, packets[j])
    requires First(size, packets, j) + i <= s
    requires j < d ==> Window(Last(size, packets, d)) <= Window(First(size, packets, j)) + REACH
    requires |packets[j]| <= maximum && Count(size, packets[j]) <= MAXIMUM_FRAGMENT_COUNT
    ensures BitsOk(c.queue)
    ensures var code := Handle(c, Sent(size, packets, j, i), maximum, full).code;
      code == if full && d <= j && j !in js && !Discards(Seq(First(size, packets, j)), c.incoming) then -1 else 0
  {
    hide ChannelInv, Near, First, Seq, Last, Discards, Count, HandleWhole, HandleFragment, Window;
    BitsHold(c, size, packets, d, js, s);
    if j < d {
      OldIsTaken(c, size, packets, d, js, s, j, i, maximum, full);
    } else {
      Scan(c, size, packets, d, js, s, j);
      AscendingIn(c, size, packets, d, js, s, j, Place(c.queue, c.incoming, Seq(First(size, packets, j))));
      if |packets[j]| <= size {
        WholeCode(c, Seq(First(size, packets, j)), packets[j], maximum, full);
        OneCommand(size, packets[j]);
      } else {
        var f := Sent(size, packets, j, i);
        SentIs(size, packets, j, i);
        SentFits(size, packets, j, i, maximum);
        var k := Place(c.queue, c.incoming, f.start);
        if k > 0 && c.queue[k - 1].sn == f.start {
          FragmentEntry(c.queue[k - 1], size, packets, j);
          StartedIs(c.queue[k - 1], size, packets, j);
        }
        FragmentCode(c, f, maximum, full);
      }
    }
  }

  lemma OldIsTaken(c: Channel, size: nat, packets: seq<seq<u8>>, d: nat, js: seq<nat>, s: nat, j: nat, i: nat,
                   maximum: nat, full: bool)
    requires size > 0 && ChannelInv(c, size, packets, d, js, s) && BitsOk(c.queue)
    requires j < d && i < Count(size, packets[j]) && |packets[j]| <= maximum
    requires Window(Last(size, packets, d)) <= Window(First(size, packets, j)) + REACH
    ensures Handle(c, Sent(size, packets, j, i), maximum, full).code == 0
  {
    hide EntryOk, Expected, Total, Discards, Seq, Low, High, Count, Present, Place, Dispatch, Insert, FragmentBad;
    var first, last := First(size, packets, j), Last(size, packets, d);
    FirstMonotone(size, packets, j, d);
    CountCovers(size, packets[j]);
    if |packets[j]| > size {
      SentIs(size, packets, j, i);
      SentFits(size, packets, j, i, maximum);
    }
    if first < last {
      InOneLap(first, last);
      OldDuplicateDiscardedIff(first, last);
    }
  }

  lemma AscendingIn(c: Channel, size: nat, packets: seq<seq<u8>>, d: nat, js: seq<nat>, s: nat, j: nat, k: nat)
    requires size > 0 && ChannelInv(c, size, packets, d, js, s) && Placed(js, j, k)
    ensures j in js <==> k > 0 && js[k - 1] == j
  {
    if j in js {
      var m :| 0 <= m < |js| && js[m] == j;
      assert m < k;
      assert m < k - 1 ==> js[m] < js[k - 1] <= j;
    }
  }

  lemma WholeCode(c: Channel, sn: u16, data: seq<u8>, maximum: nat, full: bool)
    requires |data| <= maximum && sn != c.incoming
    ensures var code := HandleWhole(c, sn, data, maximum, full).code;
      code == if full && !Discards(sn, c.incoming) && !Present(c.queue, c.incoming, sn) then -1 else 0
  {
    hide Discards, Present, Dispatch, Place, Insert;
  }

  lemma FragmentCode(c: Channel, f: Command, maximum: nat, full: bool)
    requires f.Fragment? && BitsOk(c.queue) && |f.data| <= maximum && !FragmentBad(f, maximum) && f.start != c.incoming
    requires var k := Place(c.queue, c.incoming, f.start);
      k > 0 && c.queue[k - 1].sn == f.start ==>
        c.queue[k - 1].count != 0 && f.total == |c.queue[k - 1].data| && f.count == c.queue[k - 1].count
    ensures var code, k := HandleFragment(c, f, maximum, full).code, Place(c.queue, c.incoming, f.start);
      code == if full && !Discards(f.start, c.incoming) && !(k > 0 && c.queue[k - 1].sn == f.start) then -1 else 0
  {
    hide Discards, Dispatch, Place, Insert, MarkEntry, FragmentBad;
  }

  lemma StartedIs(x: Incoming, size: nat, packets: seq<seq<u8>>, j: nat)
    requires size > 0 && EntryOk(x, size, packets, j) && |packets[j]| > size
    ensures x.count == Count(size, packets[j]) && x.count > 0
  {
    CountCovers(size, packets[j]);
  }

  lemma SentFits(size: nat, packets: seq<seq<u8>>, j: nat, i: nat, maximum: nat)
    requires size > 0 && j < |packets| && |packets[j]| > size && i < Count(size, packets[j])
    requires |packets[j]| <= maximum && Count(size, packets[j]) <= MAXIMUM_FRAGMENT_COUNT
    ensures var f := Sent(size, packets, j, i);
      f.Fragment? && |f.data| <= maximum && !FragmentBad(f, maximum)
  {
    Bounds(size, packets[j], i);
  }
}
