/** The receiving side of an ENet channel: reliable commands are queued in sequence order,
    fragments are reassembled, and complete packets are dispatched in order (toxtun/peer.c and
    the handlers of toxtun/protocol.c). */
module EnetReceive {
  import opened Words
  import opened EnetWindows

  const MAXIMUM_FRAGMENT_COUNT := 1024 * 1024

  /** A queued command; count is 0 for a packet that came in one piece. */
  datatype Incoming = Incoming(sn: u16, count: nat, bits: seq<bool>, remaining: int, data: seq<u8>)

  datatype Channel = Channel(incoming: u16, queue: seq<Incoming>, dispatched: seq<seq<u8>>)

  datatype Command =
    | Whole(sn: u16, data: seq<u8>)
    | Fragment(sn: u16, start: u16, count: nat, number: nat, offset: nat, total: nat, data: seq<u8>)

  datatype Outcome = Outcome(channel: Channel, code: int)

  // ---------- The queue ----------

  /** The place of sn in the order of arrival, counting from the last number dispatched. */
  function Key(sn: u16, incoming: u16): (key: int)
  {
    if sn >= incoming then sn else sn + SEQUENCE
  }

  /** Where sn belongs: behind the last entry that is not after it. */
  function Place(queue: seq<Incoming>, incoming: u16, sn: u16): (k: nat)
    ensures k <= |queue|
  {
    if queue == [] then 0
    else if Key(queue[|queue| - 1].sn, incoming) <= Key(sn, incoming) then |queue|
    else Place(queue[..|queue| - 1], incoming, sn)
  }

  predicate Present(queue: seq<Incoming>, incoming: u16, sn: u16)
  {
    var k := Place(queue, incoming, sn);
    k > 0 && queue[k - 1].sn == sn
  }

  function Insert(queue: seq<Incoming>, k: nat, x: Incoming): (r: seq<Incoming>)
    requires k <= |queue|
  {
    queue[..k] + [x] + queue[k..]
  }

  predicate Ready(c: Channel)
  {
    c.queue != [] && c.queue[0].remaining <= 0 && c.queue[0].sn == Seq(c.incoming + 1)
  }

  /** The packets of a queue. */
  function Data(queue: seq<Incoming>): (r: seq<seq<u8>>)
    ensures |r| == |queue|
  {
    seq(|queue|, i requires 0 <= i < |queue| => queue[i].data)
  }

  /** enet_peer_dispatch_incoming_reliable_commands. */
  function Dispatch(c: Channel): (c': Channel)
    decreases |c.queue|
  {
    if Ready(c) then
      var x := c.queue[0];
      Dispatch(Channel(if x.count > 0 then Seq(x.sn + x.count - 1) else x.sn, c.queue[1..], c.dispatched + [x.data]))
    else c
  }

  // ---------- The handlers ----------

  /** enet_protocol_handle_send_reliable; full says that too much data waits already. */
  function HandleWhole(c: Channel, sn: u16, data: seq<u8>, maximum: nat, full: bool): (r: Outcome)
  {
    if |data| > maximum then Outcome(c, -1)
    else if Discards(sn, c.incoming) || sn == c.incoming || Present(c.queue, c.incoming, sn) then Outcome(c, 0)
    else if full then Outcome(c, -1)
    else
      var queue := Insert(c.queue, Place(c.queue, c.incoming, sn), Incoming(sn, 0, [], 0, data));
      Outcome(Dispatch(c.(queue := queue)), 0)
  }

  function Blank(n: nat): (b: seq<u8>)
    ensures |b| == n
  {
    if n == 0 then [] else Blank(n - 1) + [0]
  }

  function NoBits(n: nat): (b: seq<bool>)
    ensures |b| == n && forall i :: 0 <= i < n ==> !b[i]
  {
    if n == 0 then [] else NoBits(n - 1) + [false]
  }

  function Overwrite(data: seq<u8>, offset: nat, piece: seq<u8>): (r: seq<u8>)
    requires offset <= |data|
    ensures |r| == |data|
  {
    var length := if offset + |piece| > |data| then |data| - offset else |piece|;
    data[..offset] + piece[..length] + data[offset + length..]
  }

  /** Takes in a fragment not seen before. */
  function Marked(x: Incoming, number: nat, offset: nat, piece: seq<u8>): (x': Incoming)
    requires number < |x.bits| && offset <= |x.data|
  {
    if x.bits[number] then x
    else x.(remaining := x.remaining - 1, bits := x.bits[number := true], data := Overwrite(x.data, offset, piece))
  }

  predicate FragmentBad(f: Command, maximum: nat)
    requires f.Fragment?
  {
    || f.count > MAXIMUM_FRAGMENT_COUNT || f.number >= f.count || f.total > maximum
    || f.offset >= f.total || |f.data| > f.total - f.offset
  }

  /** Marks entry k and dispatches if that completed it. */
  function MarkEntry(c: Channel, k: nat, f: Command): (c': Channel)
    requires f.Fragment? && k < |c.queue| && f.number < |c.queue[k].bits| && f.offset <= |c.queue[k].data|
  {
    var x := c.queue[k];
    if x.bits[f.number] then c
    else
      var x' := Marked(x, f.number, f.offset, f.data);
      var c' := c.(queue := c.queue[k := x']);
      if x'.remaining <= 0 then Dispatch(c') else c'
  }

  /** The bitmap of a fragmented packet has a bit for each fragment. */
  predicate BitsOk(queue: seq<Incoming>)
  {
    forall x :: x in queue && x.count > 0 ==> |x.bits| == x.count
  }

  /** A new entry is where enet_peer_queue_incoming_command left it. */
  lemma StartedEntry(c: Channel, k: nat, x: Incoming)
    requires k <= |c.queue| && x.remaining > 0
    ensures var c1 := Dispatch(c.(queue := Insert(c.queue, k, x)));
      var k1 := k - (|c.queue| + 1 - |c1.queue|);
      0 <= k1 < |c1.queue| && c1.queue[k1] == x
  {
    hide Dispatch;
    DispatchKeeps(c.(queue := Insert(c.queue, k, x)), k);
  }

  /** enet_protocol_handle_send_fragment. */
  function HandleFragment(c: Channel, f: Command, maximum: nat, full: bool): (r: Outcome)
    requires f.Fragment? && BitsOk(c.queue)
  {
    if |f.data| > maximum then Outcome(c, -1)
    else if Discards(f.start, c.incoming) then Outcome(c, 0)
    else if FragmentBad(f, maximum) then Outcome(c, -1)
    else
      var k := Place(c.queue, c.incoming, f.start);
      if k > 0 && c.queue[k - 1].sn == f.start then
        var x := c.queue[k - 1];
        if x.count == 0 || f.total != |x.data| || f.count != x.count then Outcome(c, -1)
        else Outcome(MarkEntry(c, k - 1, f), 0)
      else if f.start == c.incoming || full then Outcome(c, -1)
      else
        var x := Incoming(f.start, f.count, NoBits(f.count), f.count, Blank(f.total));
        StartedEntry(c, k, x);
        var c1 := Dispatch(c.(queue := Insert(c.queue, k, x)));
        Outcome(MarkEntry(c1, k - (|c.queue| + 1 - |c1.queue|), f), 0)
  }

  function Handle(c: Channel, w: Command, maximum: nat, full: bool): (r: Outcome)
    requires BitsOk(c.queue)
  {
    match w
    case Whole(sn, data) => HandleWhole(c, sn, data, maximum, full)
    case Fragment(_, _, _, _, _, _, _) => HandleFragment(c, w, maximum, full)
  }

  /** An incomplete entry is never dispatched: it only moves up in the queue. */
  lemma {:induction false} DispatchKeeps(c: Channel, k: nat)
    requires k < |c.queue| && c.queue[k].remaining > 0
    ensures var c' := Dispatch(c);
      && |c.queue| - k <= |c'.queue| <= |c.queue|
      && c'.queue == c.queue[|c.queue| - |c'.queue|..]
      && c'.queue[k - (|c.queue| - |c'.queue|)] == c.queue[k]
    decreases |c.queue|
  {
    if Ready(c) {
      var x := c.queue[0];
      DispatchKeeps(Channel(if x.count > 0 then Seq(x.sn + x.count - 1) else x.sn, c.queue[1..],
        c.dispatched + [x.data]), k - 1);
    }
  }
}
