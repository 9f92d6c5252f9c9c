/** What the handlers of toxtun/protocol.c keep in a channel whatever commands arrive, from an honest
    sender or not. */
module EnetQueue {
  import opened Words
  import opened EnetWindows
  import opened EnetReceive
  import opened EnetFragments

  /** A packet in one piece, or a bit for each fragment and a count of those missing. */
  predicate Sound(x: Incoming)
  {
    if x.count == 0 then x.bits == [] && x.remaining == 0
    else |x.bits| == x.count && x.remaining == Clear(x.bits)
  }

  predicate Complete(x: Incoming)
  {
    forall i :: 0 <= i < |x.bits| ==> x.bits[i]
  }

  /** The entries are sound, no packet is larger than allowed, and nothing that could be dispatched
      waits. */
  predicate QueueOk(c: Channel, maximum: nat)
  {
    && (forall x :: x in c.queue ==> Sound(x) && |x.data| <= maximum)
    && !Ready(c)
  }

  /** The last number an entry stands for. */
  function LastOf(x: Incoming): (sn: u16)
  {
    if x.count > 0 then Seq(x.sn + x.count - 1) else x.sn
  }

  /** The first n entries have nothing missing, and each starts behind the one before it, the first
      behind the last number dispatched. */
  ghost predicate RunOf(c: Channel, n: nat)
  {
    && n <= |c.queue|
    && (forall i :: 0 <= i < n ==> c.queue[i].remaining <= 0)
    && (0 < n ==> c.queue[0].sn == Seq(c.incoming + 1))
    && forall i :: 0 < i < n ==> c.queue[i].sn == Seq(LastOf(c.queue[i - 1]) + 1)
  }

  /** Dispatching hands over the longest run at the front. */
  lemma {:induction false} DispatchTakesRun(c: Channel) returns (n: nat)
    ensures RunOf(c, n) && n <= |c.queue| && !Ready(Dispatch(c))
    ensures Dispatch(c).queue == c.queue[n..] && Dispatch(c).dispatched == c.dispatched + Data(c.queue[..n])
    ensures Dispatch(c).incoming == if n == 0 then c.incoming else LastOf(c.queue[n - 1])
    decreases |c.queue|
  {
    hide RunOf, Data, LastOf, Dispatch, Ready;
    n := 0;
    NoRun(c);
    if Ready(c) {
      var rest := DispatchFirst(c);
      var m := DispatchTakesRun(rest);
      n := m + 1;
      RunLonger(c, rest, m);
    } else {
      NothingToDo(c);
    }
  }

  lemma DispatchFirst(c: Channel) returns (rest: Channel)
    requires Ready(c)
    ensures c.queue != []
    ensures rest == Channel(LastOf(c.queue[0]), c.queue[1..], c.dispatched + [c.queue[0].data])
    ensures Dispatch(c) == Dispatch(rest)
  {
    hide Seq;
    rest := Channel(LastOf(c.queue[0]), c.queue[1..], c.dispatched + [c.queue[0].data]);
  }

  lemma NoRun(c: Channel)
    ensures RunOf(c, 0) && c.queue[0..] == c.queue && c.dispatched + Data(c.queue[..0]) == c.dispatched
  {
  }

  lemma RunLonger(c: Channel, rest: Channel, m: nat)
    requires Ready(c) && RunOf(rest, m)
    requires rest == Channel(LastOf(c.queue[0]), c.queue[1..], c.dispatched + [c.queue[0].data])
    ensures RunOf(c, m + 1) && m < |c.queue|
    ensures rest.dispatched + Data(rest.queue[..m]) == c.dispatched + Data(c.queue[..m + 1])
    ensures rest.queue[m..] == c.queue[m + 1..] && (m > 0 ==> rest.queue[m - 1] == c.queue[m])
  {
    hide Seq;
    assert Data(c.queue[..m + 1]) == [c.queue[0].data] + Data(rest.queue[..m]);
    assert forall i :: 0 < i < m + 1 ==> c.queue[i] == rest.queue[i - 1];
  }

  /** What is wrong with a command, whatever the state of the channel. */
  predicate Malformed(c: Channel, w: Command, maximum: nat)
  {
    || |w.data| > maximum
    || (w.Fragment? && !Discards(w.start, c.incoming)
        && (|| w.count > 0x10_0000 || w.number >= w.count || w.total > maximum
            || w.offset >= w.total || w.offset + |w.data| > w.total))
  }

  function Number(w: Command): (sn: u16)
  {
    if w.Whole? then w.sn else w.start
  }

  /** The entry that stands where the packet of the command belongs. */
  function Slot(c: Channel, w: Command): (k: nat)
  {
    Place(c.queue, c.incoming, Number(w))
  }

  predicate Known(c: Channel, w: Command)
  {
    Slot(c, w) > 0 && c.queue[Slot(c, w) - 1].sn == Number(w)
  }

  /** A fragment that does not fit the packet begun under its number. */
  predicate Misfits(c: Channel, w: Command)
  {
    && w.Fragment? && Known(c, w)
    && var x := c.queue[Slot(c, w) - 1];
       x.count == 0 || w.total != |x.data| || w.count != x.count
  }

  /** The answer is -1 exactly for a malformed or misfitting command, for a fragment of the packet
      dispatched last, and for a new packet while too much data waits; then nothing has changed. */
  lemma RefusedExactly(c: Channel, w: Command, maximum: nat, full: bool)
    requires QueueOk(c, maximum)
    ensures BitsOk(c.queue)
    ensures var r := Handle(c, w, maximum, full);
      && r.code in {0, -1} && (r.code == -1 ==> r.channel == c)
      && (r.code == -1 <==>
            || Malformed(c, w, maximum)
            || (!Discards(Number(w), c.incoming)
                && (|| Misfits(c, w)
                    || (w.Fragment? && !Known(c, w) && w.start == c.incoming)
                    || (!Known(c, w) && Number(w) != c.incoming && full))))
  {
    hide Place, Discards, Dispatch, MarkEntry, Clear;
  }

  /** Not refused, but dropped: too far away, or held already. */
  predicate Ignored(c: Channel, w: Command)
  {
    Discards(Number(w), c.incoming) || (w.Whole? && (w.sn == c.incoming || Known(c, w)))
  }

  /** The entry of a command's packet with the command taken in: a packet in one piece, or its bit set
      and its bytes copied, into a blank packet if it is the first. */
  function Entry(c: Channel, w: Command): (x: Incoming)
    requires w.Fragment? ==> w.number < w.count && w.offset <= w.total
    requires w.Fragment? && Known(c, w) ==>
      var x := c.queue[Slot(c, w) - 1];
      w.number < |x.bits| && w.offset <= |x.data|
  {
    if w.Whole? then Incoming(w.sn, 0, [], 0, w.data)
    else
      Marked(if Known(c, w) then c.queue[Slot(c, w) - 1]
             else Incoming(w.start, w.count, NoBits(w.count), w.count, Blank(w.total)),
             w.number, w.offset, w.data)
  }

  /** The queue with that entry, in the place it has or gets. */
  function Taken(c: Channel, w: Command, x: Incoming): (queue: seq<Incoming>)
  {
    var k := Slot(c, w);
    if Known(c, w) then c.queue[k - 1 := x] else Insert(c.queue, k, x)
  }

  lemma FragmentFits(c: Channel, w: Command, maximum: nat)
    requires QueueOk(c, maximum) && w.Fragment? && !Malformed(c, w, maximum) && !Misfits(c, w)
    requires !Discards(w.start, c.incoming)
    ensures w.number < w.count && w.offset <= w.total <= maximum && w.count > 0
    ensures Known(c, w) ==>
      var x := c.queue[Slot(c, w) - 1];
      && x.count == w.count == |x.bits| && |x.data| == w.total && Sound(x)
  {
    hide Place, Discards, Clear;
  }

  lemma BlankIsSound(w: Command)
    requires w.Fragment? && w.count > 0
    ensures Sound(Incoming(w.start, w.count, NoBits(w.count), w.count, Blank(w.total)))
  {
    NoneSet(w.count);
  }

  lemma MarkedIsSound(x: Incoming, number: nat, offset: nat, piece: seq<u8>)
    requires Sound(x) && number < |x.bits| && offset <= |x.data|
    ensures var x' := Marked(x, number, offset, piece);
      Sound(x') && |x'.data| == |x.data| && x'.count == x.count > 0
  {
    if !x.bits[number] {
      SetOne(x.bits, number);
    }
  }

  lemma CompleteIff(x: Incoming)
    requires Sound(x)
    ensures x.remaining <= 0 <==> Complete(x)
  {
    NoneClear(x.bits);
  }

  /** An entry with something missing makes nothing ready. */
  lemma StillWaits(c: Channel, k: nat, x: Incoming)
    requires !Ready(c) && k <= |c.queue| && x.remaining > 0
    ensures Dispatch(c) == c && !Ready(c.(queue := Insert(c.queue, k, x)))
    ensures k < |c.queue| ==> !Ready(c.(queue := c.queue[k := x]))
  {
  }

  lemma ReplaceInserted(queue: seq<Incoming>, k: nat, x: Incoming, x': Incoming)
    requires k <= |queue|
    ensures |Insert(queue, k, x)| == |queue| + 1 && Insert(queue, k, x)[k] == x
    ensures Insert(queue, k, x)[k := x'] == Insert(queue, k, x')
  {
  }

  /** MarkEntry puts the entry in and dispatches, which does nothing while something is missing. */
  lemma MarkEntryIs(c: Channel, k: nat, f: Command)
    requires !Ready(c) && f.Fragment? && k < |c.queue| && Sound(c.queue[k])
    requires f.number < |c.queue[k].bits| && f.offset <= |c.queue[k].data|
    ensures MarkEntry(c, k, f) == Dispatch(c.(queue := c.queue[k := Marked(c.queue[k], f.number, f.offset, f.data)]))
  {
    hide Clear, Dispatch, Overwrite;
    var x := Marked(c.queue[k], f.number, f.offset, f.data);
    if c.queue[k].bits[f.number] {
      assert c.queue[k := x] == c.queue;
      NothingToDo(c);
    } else if x.remaining > 0 {
      StillWaits(c, k, x);
      NothingToDo(c.(queue := c.queue[k := x]));
    }
  }

  lemma NothingToDo(c: Channel)
    requires !Ready(c)
    ensures Dispatch(c) == c
  {
  }

  /** Every other command goes into its entry, and then what has become complete is dispatched. */
  lemma TakenThenDispatched(c: Channel, w: Command, maximum: nat, full: bool)
    requires QueueOk(c, maximum) && BitsOk(c.queue)
    requires Handle(c, w, maximum, full).code == 0 && !Ignored(c, w)
    ensures w.Fragment? ==> w.number < w.count && w.offset <= w.total
    ensures w.Fragment? && Known(c, w) ==>
      var x := c.queue[Slot(c, w) - 1];
      w.number < |x.bits| && w.offset <= |x.data|
    ensures Handle(c, w, maximum, full).channel == Dispatch(c.(queue := Taken(c, w, Entry(c, w))))
    ensures Sound(Entry(c, w)) && |Entry(c, w).data| <= maximum
  {
    hide Place, Discards, Dispatch, MarkEntry, Clear, Sound, Marked, Insert, Ready;
    RefusedExactly(c, w, maximum, full);
    if w.Whole? {
      WholeIsSound(w);
    } else {
      FragmentFits(c, w, maximum);
      var k := Slot(c, w);
      if Known(c, w) {
        MarkEntryIs(c, k - 1, w);
        MarkedIsSound(c.queue[k - 1], w.number, w.offset, w.data);
      } else {
        var x := Incoming(w.start, w.count, NoBits(w.count), w.count, Blank(w.total));
        BlankIsSound(w);
        StillWaits(c, k, x);
        var c1 := c.(queue := Insert(c.queue, k, x));
        NothingToDo(c1);
        ReplaceInserted(c.queue, k, x, Entry(c, w));
        MarkEntryIs(c1, k, w);
        MarkedIsSound(x, w.number, w.offset, w.data);
      }
    }
  }

  lemma WholeIsSound(w: Command)
    requires w.Whole?
    ensures Sound(Incoming(w.sn, 0, [], 0, w.data))
  {
  }

  /** Whatever arrives, the queue stays sound, and what is dispatched is the run of entries at its
      front from which nothing is missing. */
  lemma HandleKeepsQueue(c: Channel, w: Command, maximum: nat, full: bool) returns (queue: seq<Incoming>, n: nat)
    requires QueueOk(c, maximum)
    ensures BitsOk(c.queue) && n <= |queue|
    ensures var r := Handle(c, w, maximum, full);
      && QueueOk(r.channel, maximum)
      && (r.code == -1 || Ignored(c, w) ==> r.channel == c && queue == c.queue && n == 0)
      && (r.code == 0 && !Ignored(c, w) ==>
            && (w.Fragment? ==> w.number < w.count && w.offset <= w.total)
            && (w.Fragment? && Known(c, w) ==>
                 var x := c.queue[Slot(c, w) - 1];
                 w.number < |x.bits| && w.offset <= |x.data|)
            && queue == Taken(c, w, Entry(c, w)) && RunOf(c.(queue := queue), n))
      && r.channel.queue == queue[n..] && r.channel.dispatched == c.dispatched + Data(queue[..n])
      && forall i :: 0 <= i < n ==> Complete(queue[i])
  {
    hide Place, Discards, Dispatch, Clear, Sound, Marked, Handle, Ready, Complete, RunOf, Insert;
    RefusedExactly(c, w, maximum, full);
    assert c.dispatched + [] == c.dispatched;
    queue, n := c.queue, 0;
    if Handle(c, w, maximum, full).code == -1 {
    } else if Ignored(c, w) {
      IgnoredStays(c, w, maximum, full);
    } else {
      TakenThenDispatched(c, w, maximum, full);
      queue := Taken(c, w, Entry(c, w));
      n := DispatchTakesRun(c.(queue := queue));
      TakenSound(c, w, Entry(c, w), maximum);
      RunIsComplete(c.(queue := queue), n);
    }
  }

  lemma IgnoredStays(c: Channel, w: Command, maximum: nat, full: bool)
    requires BitsOk(c.queue) && Ignored(c, w)
    ensures Handle(c, w, maximum, full).channel == c
  {
    hide Place, Discards, Dispatch, MarkEntry;
  }

  lemma TakenSound(c: Channel, w: Command, x: Incoming, maximum: nat)
    requires QueueOk(c, maximum) && Sound(x) && |x.data| <= maximum
    ensures forall y :: y in Taken(c, w, x) ==> Sound(y) && |y.data| <= maximum
  {
    hide Sound, Place;
  }

  lemma RunIsComplete(c: Channel, n: nat)
    requires RunOf(c, n) && forall y :: y in c.queue ==> Sound(y)
    ensures n <= |c.queue| && forall i :: 0 <= i < n ==> Complete(c.queue[i])
  {
    hide Sound, Complete;
    forall i | 0 <= i < n
      ensures Complete(c.queue[i])
    {
      CompleteIff(c.queue[i]);
    }
  }
}
