/** What the operations of toxtun-go/kcp.go do to the two halves of an endpoint: the sender
    (snd_queue, snd_buf, snd_una, snd_nxt) and the receiver (rcv_queue, rcv_buf, rcv_nxt).
    Sequence numbers are 32-bit words compared by signed difference. */
module KcpSpec {
  import opened Words

  const WRAP := 0x1_0000_0000
  const HALF := 0x8000_0000

  function Word(x: int): (w: u32)
  {
    x % WRAP
  }

  /** _itimediff: the difference of two words as a signed word. */
  function Diff(later: u32, earlier: u32): (d: int)
    ensures -HALF <= d < HALF
  {
    var d := Word(later - earlier);
    if d < HALF then d else d - WRAP
  }

  lemma WordShift(x: int, k: int)
    ensures Word(x + WRAP * k) == Word(x)
  {
    var y := x + WRAP * k;
    assert y / WRAP == x / WRAP + k;
  }

  lemma WordParts(x: int)
    ensures x == WRAP * (x / WRAP) + Word(x)
  {
  }

  lemma WordOfWord(a: int, b: int)
    ensures Word(Word(a) - Word(b)) == Word(a - b)
    ensures Word(Word(a) + b) == Word(a + b)
  {
    hide Word;
    WordParts(a);
    WordParts(b);
    WordShift(Word(a) - Word(b), a / WRAP - b / WRAP);
    WordShift(Word(a) + b, a / WRAP);
  }

  /** Signed differences are exact for numbers less than 2^31 apart. */
  lemma DiffExact(a: int, b: int)
    requires -HALF <= a - b < HALF
    ensures Diff(Word(a), Word(b)) == a - b
  {
    WordOfWord(a, b);
  }

  lemma WordInjective(a: int, b: int)
    requires Word(a) == Word(b) && -WRAP < a - b < WRAP
    ensures a == b
  {
  }

  lemma DiffInverse(later: u32, earlier: u32)
    ensures Word(later - Diff(later, earlier)) == earlier && Word(later) == later
  {
  }

  /** A fragment of a message: frg counts the fragments that follow it. */
  datatype Piece = Piece(frg: u32, data: seq<u8>)

  datatype Numbered = Numbered(sn: u32, piece: Piece)

  datatype Sender = Sender(queue: seq<Piece>, buf: seq<Numbered>, una: u32, nxt: u32)

  datatype Receiver = Receiver(wnd: u32, nxt: u32, buf: seq<Numbered>, queue: seq<Piece>, acks: seq<u32>)

  // ---------- Send and Recv ----------

  function FragmentCount(mss: nat, length: nat): (n: nat)
    requires mss > 0
  {
    if length < mss then 1 else (length + mss - 1) / mss
  }

  function Fragments(mss: nat, buffer: seq<u8>, count: nat): (ps: seq<Piece>)
    requires mss > 0 && count <= 255
    ensures |ps| == count
    decreases count
  {
    if count == 0 then []
    else
      var size := if |buffer| > mss then mss else |buffer|;
      [Piece(count - 1, buffer[..size])] + Fragments(mss, buffer[size..], count - 1)
  }

  /** The fragments of a message Send accepts, or nothing. */
  function MessagePieces(mss: nat, buffer: seq<u8>): (ps: seq<Piece>)
    requires mss > 0
  {
    if buffer == [] || FragmentCount(mss, |buffer|) > 255 then []
    else Fragments(mss, buffer, FragmentCount(mss, |buffer|))
  }

  function SendResult(mss: nat, buffer: seq<u8>): (r: int)
    requires mss > 0
  {
    if buffer == [] then -1 else if FragmentCount(mss, |buffer|) > 255 then -2 else 0
  }

  /** The pieces of the first message of a queue: up to the first with frg 0. */
  function FirstCount(queue: seq<Piece>): (n: nat)
    ensures n <= |queue|
  {
    if queue == [] then 0 else if queue[0].frg == 0 then 1 else 1 + FirstCount(queue[1..])
  }

  function Joined(ps: seq<Piece>): (b: seq<u8>)
  {
    if ps == [] then [] else ps[0].data + Joined(ps[1..])
  }

  function PeekedSize(queue: seq<Piece>): (n: int)
  {
    if queue == [] || |queue| < queue[0].frg + 1 then -1 else |Joined(queue[..FirstCount(queue)])|
  }

  /** Moves numbered pieces that continue the queue out of the reorder buffer. */
  function Advance(r: Receiver): (r': Receiver)
    decreases |r.buf|
  {
    if r.buf != [] && r.buf[0].sn == r.nxt && |r.queue| < r.wnd then
      Advance(r.(nxt := Word(r.nxt + 1), buf := r.buf[1..], queue := r.queue + [r.buf[0].piece]))
    else r
  }

  function RecvResult(r: Receiver, capacity: nat): (n: int)
  {
    if r.queue == [] then -1 else if PeekedSize(r.queue) < 0 then -2
    else if PeekedSize(r.queue) > capacity then -3 else PeekedSize(r.queue)
  }

  function AfterRecv(r: Receiver, capacity: nat): (r': Receiver)
  {
    if RecvResult(r, capacity) < 0 then r else Advance(r.(queue := r.queue[FirstCount(r.queue)..]))
  }

  // ---------- Input ----------

  function ParseUna(buf: seq<Numbered>, una: u32): (r: seq<Numbered>)
  {
    if buf != [] && Diff(una, buf[0].sn) > 0 then ParseUna(buf[1..], una) else buf
  }

  function Shrunk(s: Sender): (r: Sender)
  {
    s.(una := if s.buf != [] then s.buf[0].sn else s.nxt)
  }

  function Removed(buf: seq<Numbered>, sn: u32): (r: seq<Numbered>)
  {
    if buf == [] then [] else if buf[0].sn == sn then buf[1..] else [buf[0]] + Removed(buf[1..], sn)
  }

  function ParseAck(s: Sender, sn: u32): (r: Sender)
  {
    if Diff(sn, s.una) < 0 || Diff(sn, s.nxt) >= 0 then s else s.(buf := Removed(s.buf, sn))
  }

  /** Inserts from the end, dropping repeats. */
  function Inserted(buf: seq<Numbered>, x: Numbered): (r: seq<Numbered>)
  {
    if buf == [] then [x]
    else
      var last := buf[|buf| - 1];
      if last.sn == x.sn then buf
      else if Diff(x.sn, last.sn) > 0 then buf + [x]
      else Inserted(buf[..|buf| - 1], x) + [last]
  }

  function ParseData(r: Receiver, x: Numbered): (r': Receiver)
  {
    if Diff(x.sn, Word(r.nxt + r.wnd)) >= 0 || Diff(x.sn, r.nxt) < 0 then r
    else Advance(r.(buf := Inserted(r.buf, x)))
  }

  function AfterPush(r: Receiver, x: Numbered): (r': Receiver)
  {
    if Diff(x.sn, Word(r.nxt + r.wnd)) < 0 then
      var acked := r.(acks := r.acks + [x.sn]);
      if Diff(x.sn, r.nxt) >= 0 then ParseData(acked, x) else acked
    else r
  }

  function AfterUna(s: Sender, una: u32): (r: Sender)
  {
    Shrunk(s.(buf := ParseUna(s.buf, una)))
  }

  function AfterAck(s: Sender, sn: u32): (r: Sender)
  {
    Shrunk(ParseAck(s, sn))
  }

  const PUSH := 81
  const ACK := 82
  const WASK := 83
  const WINS := 84

  /** A segment as it travels. */
  datatype Wire = Wire(cmd: u8, frg: u8, wnd: u16, ts: u32, sn: u32, una: u32, data: seq<u8>)

  datatype Halves = Halves(snd: Sender, rcv: Receiver)

  function WireEntry(w: Wire): (e: Numbered)
  {
    Numbered(w.sn, Piece(w.frg, w.data))
  }

  /** What one segment does to an endpoint. */
  function AfterWire(x: Halves, w: Wire): (x': Halves)
  {
    var snd := AfterUna(x.snd, w.una);
    if w.cmd == ACK then Halves(AfterAck(snd, w.sn), x.rcv)
    else if w.cmd == PUSH then Halves(snd, AfterPush(x.rcv, WireEntry(w)))
    else Halves(snd, x.rcv)
  }

  function AfterWires(x: Halves, ws: seq<Wire>): (x': Halves)
    decreases |ws|
  {
    if ws == [] then x else AfterWires(AfterWire(x, ws[0]), ws[1..])
  }

  // ---------- Flush ----------

  /** Moves pieces from the queue to the buffer while fewer than cwnd are in flight. */
  function Moved(s: Sender, cwnd: u32): (r: Sender)
    decreases |s.queue|
  {
    if s.queue != [] && Diff(s.nxt, Word(s.una + cwnd)) < 0 then
      Moved(s.(queue := s.queue[1..], buf := s.buf + [Numbered(s.nxt, s.queue[0])], nxt := Word(s.nxt + 1)), cwnd)
    else s
  }
}
