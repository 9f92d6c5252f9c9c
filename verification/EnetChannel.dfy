/** The receiving channel as the handlers of toxtun/protocol.c and toxtun/peer.c change it, step
    by step, proved against the functions of EnetReceive. */
module EnetChannel {
  import opened Words
  import opened EnetWindows
  import opened EnetReceive
  import opened EnetFragments
  import opened EnetQueue

  /** The comparisons of the backward scans: the entry lies after sn in order of arrival. */
  predicate ScanSkips(entry: u16, sn: u16, incoming: u16)
  {
    if sn >= incoming then entry < incoming || entry > sn
    else entry < incoming && entry > sn
  }

  lemma ScanIsKeyOrder(entry: u16, sn: u16, incoming: u16)
    ensures ScanSkips(entry, sn, incoming) <==> Key(entry, incoming) > Key(sn, incoming)
    ensures entry == sn <==> Key(entry, incoming) == Key(sn, incoming)
  {
  }

  class IncomingChannel {
    var incoming: u16
    var queue: seq<Incoming>
    var dispatched: seq<seq<u8>>

    ghost function State(): (c: Channel)
      reads this
    {
      Channel(incoming, queue, dispatched)
    }

    /** Every packet of the queue has a bit for each fragment and the count of those missing, none is
        larger than allowed, and what could be dispatched is. */
    ghost predicate Valid(maximum: nat)
      reads this
    {
      QueueOk(State(), maximum)
    }

    constructor ()
      ensures State() == Channel(0, [], []) && forall maximum: nat :: Valid(maximum)
    {
      incoming, queue, dispatched := 0, [], [];
    }

    /** The scan from the end of the queue, with the source's own comparisons. */
    method Scan(sn: u16) returns (k: nat, found: bool)
      ensures k == Place(queue, incoming, sn) && found == Present(queue, incoming, sn)
    {
      k, found := |queue|, false;
      assert queue[..k] == queue;
      while k > 0
        invariant k <= |queue| && !found
        invariant Place(queue, incoming, sn) == Place(queue[..k], incoming, sn)
        decreases k
      {
        var entry := queue[k - 1].sn;
        ScanIsKeyOrder(entry, sn, incoming);
        assert queue[..k][..k - 1] == queue[..k - 1];
        if sn >= incoming {
          if entry < incoming {
            k := k - 1;
            continue;
          }
        } else if entry >= incoming {
          break;
        }
        if entry <= sn {
          if entry < sn {
            break;
          }
          found := true;
          break;
        }
        k := k - 1;
      }
    }

    /** enet_peer_dispatch_incoming_reliable_commands: the run of complete commands at the front
        moves to the dispatched list in one go. */
    method DispatchReliable()
      modifies this
      ensures State() == Dispatch(old(State()))
    {
      hide Dispatch, Data, Seq;
      var k: nat := 0;
      ghost var start := State();
      NothingYet(incoming, dispatched);
      assert queue[0..] == queue && queue[..0] == [] && dispatched + [] == dispatched;
      while k < |queue|
        invariant k <= |queue| && queue == start.queue && dispatched == start.dispatched
        invariant Dispatch(start) == Dispatch(Channel(incoming, queue[k..], dispatched + Data(queue[..k])))
      {
        DispatchOne(incoming, queue, k, dispatched);
        if queue[k].remaining > 0 || queue[k].sn != Seq(incoming + 1) {
          break;
        }
        incoming := queue[k].sn;
        if queue[k].count > 0 {
          incoming := Seq(incoming + queue[k].count - 1);
        }
        k := k + 1;
      }
      if k == |queue| {
        NothingYet(incoming, dispatched + Data(queue[..k]));
        assert queue[k..] == [];
      }
      if k == 0 {
        return;
      }
      dispatched := dispatched + Data(queue[..k]);
      queue := queue[k..];
    }

    /** enet_peer_queue_incoming_command for reliable commands of a connected peer. Unless it
        is dropped, the entry is put in its place and what became complete is dispatched; k is
        then where an incomplete entry stands. */
    method QueueIncoming(sn: u16, data: seq<u8>, count: nat, full: bool) returns (ok: bool, k: int)
      requires count <= MAXIMUM_FRAGMENT_COUNT
      modifies this
      ensures var c, place := old(State()), Place(old(queue), old(incoming), sn);
        var x := Incoming(sn, count, if count > 0 then NoBits(count) else [], count, data);
        if Discards(sn, c.incoming) || sn == c.incoming || Present(c.queue, c.incoming, sn) then
          ok == (count == 0) && State() == c
        else if full then !ok && State() == c
        else
          && ok && State() == Dispatch(c.(queue := Insert(c.queue, place, x)))
          && k == place - (|c.queue| + 1 - |queue|)
    {
      ok, k := count == 0, -1;
      if Discards(sn, incoming) {
        return;
      }
      if sn == incoming {
        return;
      }
      var place, found := Scan(sn);
      if found {
        return;
      }
      if full {
        return false, -1;
      }
      var bits := [];
      if count > 0 {
        bits := NoBits(count);
      }
      queue := queue[..place] + [Incoming(sn, count, bits, count, data)] + queue[place..];
      var before := |queue|;
      DispatchReliable();
      return true, place - (before - |queue|);
    }

    method HandleSendReliable(sn: u16, data: seq<u8>, maximum: nat, full: bool) returns (code: int)
      requires Valid(maximum)
      modifies this
      ensures Valid(maximum) && Outcome(State(), code) == HandleWhole(old(State()), sn, data, maximum, full)
    {
      hide Dispatch, Place, Insert, Discards, QueueOk;
      WholeKeeps(State(), sn, data, maximum, full);
      if |data| > maximum {
        return -1;
      }
      var ok, _ := QueueIncoming(sn, data, 0, full);
      return if ok then 0 else -1;
    }

    method HandleSendFragment(f: Command, maximum: nat, full: bool) returns (code: int)
      requires Valid(maximum) && f.Fragment?
      modifies this
      ensures Valid(maximum) && BitsOk(old(queue))
      ensures Outcome(State(), code) == HandleFragment(old(State()), f, maximum, full)
    {
      hide Dispatch, Place, Insert, Discards, MarkEntry, QueueOk, BitsOk;
      FragmentKeeps(State(), f, maximum, full);
      BitsAre(State(), maximum);
      if |f.data| > maximum {
        return -1;
      }
      if Discards(f.start, incoming) {
        return 0;
      }
      if FragmentBad(f, maximum) {
        return -1;
      }
      var k: int, found;
      k, found := Scan(f.start);
      if found {
        k := k - 1;
        if queue[k].count == 0 || f.total != |queue[k].data| || f.count != |queue[k].bits| {
          return -1;
        }
      } else {
        ghost var c, x := State(), Incoming(f.start, f.count, NoBits(f.count), f.count, Blank(f.total));
        InsertedAt(c.queue, k, x);
        DispatchKeeps(c.(queue := Insert(c.queue, k, x)), k);
        var ok;
        ok, k := QueueIncoming(f.start, Blank(f.total), f.count, full);
        if !ok {
          return -1;
        }
      }
      MarkFragment(k, f);
      return 0;
    }

    /** The bitmap and copy step of the fragment handler. */
    method MarkFragment(k: nat, f: Command)
      requires f.Fragment? && k < |queue| && f.number < |queue[k].bits| && f.offset <= |queue[k].data|
      modifies this
      ensures State() == MarkEntry(old(State()), k, f)
    {
      hide Dispatch;
      if !queue[k].bits[f.number] {
        queue := queue[k := Marked(queue[k], f.number, f.offset, f.data)];
        if queue[k].remaining <= 0 {
          DispatchReliable();
        }
      }
    }
  }

  // ---------- Facts about the loops ----------

  lemma WholeKeeps(c: Channel, sn: u16, data: seq<u8>, maximum: nat, full: bool)
    requires QueueOk(c, maximum)
    ensures QueueOk(HandleWhole(c, sn, data, maximum, full).channel, maximum)
  {
    hide QueueOk, HandleWhole;
    var _, _ := HandleKeepsQueue(c, Whole(sn, data), maximum, full);
  }

  lemma FragmentKeeps(c: Channel, f: Command, maximum: nat, full: bool)
    requires f.Fragment? && QueueOk(c, maximum)
    ensures BitsOk(c.queue) && QueueOk(HandleFragment(c, f, maximum, full).channel, maximum)
  {
    hide QueueOk, HandleFragment;
    var _, _ := HandleKeepsQueue(c, f, maximum, full);
  }

  lemma BitsAre(c: Channel, maximum: nat)
    requires QueueOk(c, maximum)
    ensures forall x :: x in c.queue && x.count > 0 ==> |x.bits| == x.count
  {
    hide Clear;
  }

  lemma NothingYet(incoming: u16, dispatched: seq<seq<u8>>)
    ensures Data([]) == [] && Dispatch(Channel(incoming, [], dispatched)) == Channel(incoming, [], dispatched)
  {
  }

  lemma DispatchOne(incoming: u16, queue: seq<Incoming>, k: nat, dispatched: seq<seq<u8>>)
    requires k < |queue|
    ensures var c, x := Channel(incoming, queue[k..], dispatched + Data(queue[..k])), queue[k];
      if x.remaining > 0 || x.sn != Seq(incoming + 1) then Dispatch(c) == c
      else Dispatch(c) == Dispatch(Channel(if x.count > 0 then Seq(x.sn + x.count - 1) else x.sn, queue[k + 1..],
        dispatched + Data(queue[..k + 1])))
  {
    assert queue[k..][0] == queue[k] && queue[k..][1..] == queue[k + 1..];
    assert queue[..k + 1][..k] == queue[..k];
    assert Data(queue[..k + 1]) == Data(queue[..k]) + [queue[k].data];
    assert dispatched + Data(queue[..k]) + [queue[k].data] == dispatched + (Data(queue[..k]) + [queue[k].data]);
  }

  lemma InsertedAt(queue: seq<Incoming>, k: nat, x: Incoming)
    requires k <= |queue|
    ensures |Insert(queue, k, x)| == |queue| + 1 && Insert(queue, k, x)[k] == x
  {
  }
}
