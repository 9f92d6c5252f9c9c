/** The wire format of toxtun-go/kcp.go: 24-byte little-endian headers, each followed by its
    data, packed into datagrams of at most mtu bytes. */
module KcpWire {
  import opened Words
  import opened KcpSpec

  const OVERHEAD := 24

  // ---------- Numbers ----------

  function Bytes16(w: u16): (b: seq<u8>)
    ensures |b| == 2
  {
    [w % 256, w / 256]
  }

  function Bytes32(w: u32): (b: seq<u8>)
    ensures |b| == 4
  {
    [w % 256, w / 256 % 256, w / 256 / 256 % 256, w / 256 / 256 / 256]
  }

  function Value16(b: seq<u8>): (w: u16)
    requires |b| == 2
  {
    var b0: int, b1: int := b[0], b[1];
    b0 + 0x100 * b1
  }

  function Value32(b: seq<u8>): (w: u32)
    requires |b| == 4
  {
    var b0: int, b1: int, b2: int, b3: int := b[0], b[1], b[2], b[3];
    b0 + 0x100 * b1 + 0x1_0000 * b2 + 0x100_0000 * b3
  }

  lemma Bytes16RoundTrip(w: u16, b: seq<u8>)
    requires |b| == 2
    ensures Value16(Bytes16(w)) == w && Bytes16(Value16(b)) == b
  {
  }

  lemma Bytes32RoundTrip(w: u32, b: seq<u8>)
    requires |b| == 4
    ensures Value32(Bytes32(w)) == w && Bytes32(Value32(b)) == b
  {
    BytesValue32(w);
    ValueBytes32(b);
  }

  lemma BytesValue32(w: u32)
    ensures Value32(Bytes32(w)) == w
  {
    var q1: int := w / 256;
    var q2: int := q1 / 256;
    assert w == 256 * q1 + w % 256 && q1 == 256 * q2 + q1 % 256;
    assert q2 == 256 * (q2 / 256) + q2 % 256;
  }

  lemma ValueBytes32(b: seq<u8>)
    requires |b| == 4
    ensures Bytes32(Value32(b)) == b
  {
    var b0: int, b1: int, b2: int, b3: int := b[0], b[1], b[2], b[3];
    var w: int := Value32(b);
    Digit(w, b0, b1 + 0x100 * b2 + 0x1_0000 * b3);
    Digit(w / 256, b1, b2 + 0x100 * b3);
    Digit(w / 256 / 256, b2, b3);
  }

  lemma Digit(w: int, low: int, high: int)
    requires w == low + 0x100 * high && 0 <= low < 256
    ensures w % 256 == low && w / 256 == high
  {
  }

  // ---------- Segments ----------

  function Header(conv: u32, w: Wire, length: u32): (b: seq<u8>)
    ensures |b| == OVERHEAD
  {
    Bytes32(conv) + [w.cmd] + [w.frg] + Bytes16(w.wnd) + Bytes32(w.ts) + Bytes32(w.sn) + Bytes32(w.una)
      + Bytes32(length)
  }

  /** The 24 bytes of a header, the low byte of each number first. */
  lemma HeaderLayout(conv: u32, w: Wire, length: u32)
    ensures Header(conv, w, length) == [
      conv % 256, conv / 256 % 256, conv / 256 / 256 % 256, conv / 256 / 256 / 256,
      w.cmd, w.frg, w.wnd % 256, w.wnd / 256,
      w.ts % 256, w.ts / 256 % 256, w.ts / 256 / 256 % 256, w.ts / 256 / 256 / 256,
      w.sn % 256, w.sn / 256 % 256, w.sn / 256 / 256 % 256, w.sn / 256 / 256 / 256,
      w.una % 256, w.una / 256 % 256, w.una / 256 / 256 % 256, w.una / 256 / 256 / 256,
      length % 256, length / 256 % 256, length / 256 / 256 % 256, length / 256 / 256 / 256]
  {
  }

  function Encoded(conv: u32, w: Wire): (b: seq<u8>)
    ensures |b| == OVERHEAD + |w.data|
  {
    Header(conv, w, Word(|w.data|)) + w.data
  }

  function EncodedAll(conv: u32, ws: seq<Wire>): (b: seq<u8>)
    decreases |ws|
  {
    if ws == [] then [] else Encoded(conv, ws[0]) + EncodedAll(conv, ws[1..])
  }

  predicate Sendable(w: Wire)
  {
    w.cmd in {PUSH, ACK, WASK, WINS} && |w.data| < WRAP
  }

  /** What Input returns, and the segments it acted on before returning. */
  datatype Parsed = Parsed(result: int, wires: seq<Wire>)

  function HeaderWire(b: seq<u8>, data: seq<u8>): (w: Wire)
    requires |b| >= OVERHEAD
  {
    Wire(b[4], b[5], Value16(b[6..8]), Value32(b[8..12]), Value32(b[12..16]), Value32(b[16..20]), data)
  }

  function HeaderLength(b: seq<u8>): (n: u32)
    requires |b| >= OVERHEAD
  {
    Value32(b[20..24])
  }

  function Parse(conv: u32, b: seq<u8>): (r: Parsed)
    decreases |b|
  {
    if |b| < OVERHEAD then Parsed(0, [])
    else if Value32(b[..4]) != conv then Parsed(-1, [])
    else if |b| - OVERHEAD < HeaderLength(b) then Parsed(-2, [])
    else if b[4] !in {PUSH, ACK, WASK, WINS} then Parsed(-3, [])
    else
      var n := OVERHEAD + HeaderLength(b);
      var rest := Parse(conv, b[n..]);
      Parsed(rest.result, [HeaderWire(b, b[OVERHEAD..n])] + rest.wires)
  }

  /** The header's fields come back out of any buffer that starts with it. */
  lemma HeaderRoundTrip(conv: u32, w: Wire, length: u32, rest: seq<u8>, data: seq<u8>)
    ensures var b := Header(conv, w, length) + rest;
      && Value32(b[..4]) == conv && HeaderLength(b) == length && b[4] == w.cmd
      && HeaderWire(b, data) == w.(data := data)
  {
    hide Bytes32, Value32, Bytes16, Value16;
    var b := Header(conv, w, length) + rest;
    assert b[..4] == Bytes32(conv);
    assert b[6..8] == Bytes16(w.wnd);
    assert b[8..12] == Bytes32(w.ts);
    assert b[12..16] == Bytes32(w.sn);
    assert b[16..20] == Bytes32(w.una);
    assert b[20..24] == Bytes32(length);
    Bytes32RoundTrip(conv, b[..4]);
    Bytes16RoundTrip(w.wnd, b[6..8]);
    Bytes32RoundTrip(w.ts, b[..4]);
    Bytes32RoundTrip(w.sn, b[..4]);
    Bytes32RoundTrip(w.una, b[..4]);
    Bytes32RoundTrip(length, b[..4]);
  }

  /** One segment taken off the front. */
  lemma ParseStep(conv: u32, b: seq<u8>)
    requires |b| >= OVERHEAD && Value32(b[..4]) == conv && |b| - OVERHEAD >= HeaderLength(b)
      && b[4] in {PUSH, ACK, WASK, WINS}
    ensures var n := OVERHEAD + HeaderLength(b);
      Parse(conv, b) == Parsed(Parse(conv, b[n..]).result, [HeaderWire(b, b[OVERHEAD..n])] + Parse(conv, b[n..]).wires)
  {
    hide Value32, HeaderLength, HeaderWire;
  }

  lemma EncodedFirst(conv: u32, ws: seq<Wire>)
    requires ws != [] && Sendable(ws[0])
    ensures EncodedAll(conv, ws) == Header(conv, ws[0], |ws[0].data|) + (ws[0].data + EncodedAll(conv, ws[1..]))
  {
    hide Header;
  }

  lemma NothingParsed(conv: u32)
    ensures EncodedAll(conv, []) == [] && Parse(conv, []) == Parsed(0, [])
  {
  }

  /** Decoding what was encoded gives the same segments in the same order. */
  lemma {:induction false} ParseEncoded(conv: u32, ws: seq<Wire>)
    requires forall w :: w in ws ==> Sendable(w)
    ensures Parse(conv, EncodedAll(conv, ws)) == Parsed(0, ws)
    decreases |ws|
  {
    hide Header, HeaderWire, HeaderLength, Value32, Parse, EncodedAll;
    if ws == [] {
      NothingParsed(conv);
    } else {
      var w, rest := ws[0], EncodedAll(conv, ws[1..]);
      assert w in ws;
      ParseEncoded(conv, ws[1..]);
      EncodedFirst(conv, ws);
      var b, n := EncodedAll(conv, ws), OVERHEAD + |w.data|;
      HeaderRoundTrip(conv, w, |w.data|, w.data + rest, w.data);
      assert b[OVERHEAD..n] == w.data;
      assert b[n..] == rest;
      ParseStep(conv, b);
      assert ws == [w] + ws[1..];
    }
  }

  /** A header is determined by the fields read from it. */
  lemma HeaderDetermined(b: seq<u8>, data: seq<u8>)
    requires |b| >= OVERHEAD
    ensures Header(Value32(b[..4]), HeaderWire(b, data), HeaderLength(b)) == b[..OVERHEAD]
  {
    hide Bytes32, Value32, Bytes16, Value16;
    Bytes32RoundTrip(0, b[..4]);
    Bytes16RoundTrip(0, b[6..8]);
    Bytes32RoundTrip(0, b[8..12]);
    Bytes32RoundTrip(0, b[12..16]);
    Bytes32RoundTrip(0, b[16..20]);
    Bytes32RoundTrip(0, b[20..24]);
    assert b[..OVERHEAD] == b[..4] + [b[4]] + [b[5]] + b[6..8] + b[8..12] + b[12..16] + b[16..20] + b[20..24];
  }

  /** Of any bytes at all, the segments acted on are those that encode to the front of the
      bytes; when no error is returned less than a header is left over. */
  lemma {:induction false} ParsedIsAPrefix(conv: u32, b: seq<u8>)
    ensures var p := Parse(conv, b);
      && EncodedAll(conv, p.wires) <= b
      && (forall w :: w in p.wires ==> Sendable(w))
      && (p.result == 0 <==> |b| - |EncodedAll(conv, p.wires)| < OVERHEAD)
    decreases |b|
  {
    hide Header, HeaderWire, HeaderLength, Value32, Encoded;
    var p := Parse(conv, b);
    if p.wires != [] {
      var n := OVERHEAD + HeaderLength(b);
      ParsedIsAPrefix(conv, b[n..]);
      SegmentDetermined(b);
      HeaderData(b, b[OVERHEAD..n]);
      assert p.wires[1..] == Parse(conv, b[n..]).wires;
      assert b == b[..n] + b[n..];
    }
  }

  lemma SegmentDetermined(b: seq<u8>)
    requires |b| >= OVERHEAD && |b| - OVERHEAD >= HeaderLength(b)
    ensures var n := OVERHEAD + HeaderLength(b);
      Encoded(Value32(b[..4]), HeaderWire(b, b[OVERHEAD..n])) == b[..n]
  {
    hide Header, HeaderWire, HeaderLength, Value32;
    var n := OVERHEAD + HeaderLength(b);
    HeaderDetermined(b, b[OVERHEAD..n]);
    HeaderData(b, b[OVERHEAD..n]);
    assert b[..n] == b[..OVERHEAD] + b[OVERHEAD..n];
  }

  lemma HeaderData(b: seq<u8>, data: seq<u8>)
    requires |b| >= OVERHEAD
    ensures HeaderWire(b, data).data == data && HeaderWire(b, data).cmd == b[4]
  {
  }

  // ---------- Datagrams ----------

  /** Datagrams already output and the segments waiting in the buffer. */
  datatype Packing = Packing(done: seq<seq<Wire>>, pending: seq<Wire>)

  function Size(ws: seq<Wire>): (n: nat)
  {
    if ws == [] then 0 else Size(ws[..|ws| - 1]) + OVERHEAD + |ws[|ws| - 1].data|
  }

  predicate Overflows(mtu: nat, size: nat, w: Wire)
  {
    if w.cmd == PUSH then size + OVERHEAD + |w.data| >= mtu else size + OVERHEAD > mtu
  }

  function PackOne(mtu: nat, p: Packing, w: Wire): (p': Packing)
  {
    if Overflows(mtu, Size(p.pending), w) then Packing(p.done + [p.pending], [w])
    else p.(pending := p.pending + [w])
  }

  function PackAll(mtu: nat, ws: seq<Wire>): (p: Packing)
  {
    if ws == [] then Packing([], []) else PackOne(mtu, PackAll(mtu, ws[..|ws| - 1]), ws[|ws| - 1])
  }

  function Datagrams(mtu: nat, ws: seq<Wire>): (groups: seq<seq<Wire>>)
  {
    var p := PackAll(mtu, ws);
    if p.pending == [] then p.done else p.done + [p.pending]
  }

  function Flattened(groups: seq<seq<Wire>>): (ws: seq<Wire>)
  {
    if groups == [] then [] else Flattened(groups[..|groups| - 1]) + groups[|groups| - 1]
  }

  lemma {:induction false} SizeIsLength(conv: u32, ws: seq<Wire>)
    ensures |EncodedAll(conv, ws)| == Size(ws)
    decreases |ws|
  {
    hide Encoded;
    if ws != [] {
      EncodedAppend(conv, ws[..|ws| - 1], ws[|ws| - 1]);
      assert ws == ws[..|ws| - 1] + [ws[|ws| - 1]];
      SizeIsLength(conv, ws[..|ws| - 1]);
    }
  }

  lemma {:induction false} EncodedAppend(conv: u32, ws: seq<Wire>, w: Wire)
    ensures EncodedAll(conv, ws + [w]) == EncodedAll(conv, ws) + Encoded(conv, w)
    decreases |ws|
  {
    hide Encoded;
    if ws == [] {
      assert [w][1..] == [];
    } else {
      assert (ws + [w])[1..] == ws[1..] + [w];
      EncodedAppend(conv, ws[1..], w);
    }
  }

  predicate Fits(mtu: nat, group: seq<Wire>)
  {
    Size(group) <= mtu
  }

  /** Packing loses nothing, keeps the order, and no datagram is larger than mtu. */
  lemma {:induction false} PackAllFits(mtu: nat, ws: seq<Wire>)
    requires forall w :: w in ws ==> OVERHEAD + |w.data| <= mtu && (w.cmd != PUSH ==> w.data == [])
    ensures var p := PackAll(mtu, ws);
      && Flattened(p.done) + p.pending == ws && Fits(mtu, p.pending)
      && (forall g :: g in p.done ==> Fits(mtu, g))
    decreases |ws|
  {
    hide PackOne, Size;
    if ws == [] {
      NoneFits(mtu);
    } else {
      var front, w := ws[..|ws| - 1], ws[|ws| - 1];
      PackAllFits(mtu, front);
      assert w in ws;
      PackOneFits(mtu, PackAll(mtu, front), w);
      assert ws == front + [w];
    }
  }

  lemma NoneFits(mtu: nat)
    ensures Fits(mtu, [])
  {
  }

  lemma SizeAppend(ws: seq<Wire>, w: Wire)
    ensures Size(ws + [w]) == Size(ws) + OVERHEAD + |w.data|
  {
    assert (ws + [w])[..|ws|] == ws;
  }

  lemma FlattenedAppend(groups: seq<seq<Wire>>, g: seq<Wire>)
    ensures Flattened(groups + [g]) == Flattened(groups) + g
  {
    assert (groups + [g])[..|groups|] == groups;
  }

  lemma SizeNone()
    ensures Size([]) == 0
  {
  }

  lemma PackOneFits(mtu: nat, p: Packing, w: Wire)
    requires OVERHEAD + |w.data| <= mtu && (w.cmd != PUSH ==> w.data == [])
    requires Fits(mtu, p.pending) && forall g :: g in p.done ==> Fits(mtu, g)
    ensures var p' := PackOne(mtu, p, w);
      && Flattened(p'.done) + p'.pending == Flattened(p.done) + p.pending + [w]
      && Fits(mtu, p'.pending) && (forall g :: g in p'.done ==> Fits(mtu, g))
  {
    hide Size, Flattened;
    SizeNone();
    SizeAppend([], w);
    assert [] + [w] == [w];
    SizeAppend(p.pending, w);
    FlattenedAppend(p.done, p.pending);
    if !Overflows(mtu, Size(p.pending), w) {
      assert Flattened(p.done) + (p.pending + [w]) == Flattened(p.done) + p.pending + [w];
    }
  }

  /** Every datagram flush outputs is at most mtu bytes; together they hold exactly the
      segments written, in order, and Input decodes each datagram to its share. */
  lemma DatagramsRoundTrip(mtu: nat, conv: u32, ws: seq<Wire>)
    requires forall w :: w in ws ==> OVERHEAD + |w.data| <= mtu && (w.cmd != PUSH ==> w.data == [])
    requires forall w :: w in ws ==> Sendable(w)
    ensures var groups := Datagrams(mtu, ws);
      && Flattened(groups) == ws
      && (forall g :: g in groups ==>
            |EncodedAll(conv, g)| <= mtu && Parse(conv, EncodedAll(conv, g)) == Parsed(0, g))
  {
    hide Encoded, Parse, Size;
    PackAllFits(mtu, ws);
    var p, groups := PackAll(mtu, ws), Datagrams(mtu, ws);
    if p.pending != [] {
      assert groups[..|p.done|] == p.done;
    }
    forall g | g in groups
      ensures |EncodedAll(conv, g)| <= mtu && Parse(conv, EncodedAll(conv, g)) == Parsed(0, g)
    {
      assert Fits(mtu, g);
      SizeIsLength(conv, g);
      FlattenedHolds(groups, g);
      ParseEncoded(conv, g);
    }
  }

  lemma {:induction false} FlattenedHolds(groups: seq<seq<Wire>>, g: seq<Wire>)
    requires g in groups
    ensures forall w :: w in g ==> w in Flattened(groups)
    decreases |groups|
  {
    var front := groups[..|groups| - 1];
    if g in front {
      FlattenedHolds(front, g);
    } else {
      assert g == groups[|groups| - 1];
    }
  }

  // ---------- Empty datagrams ----------

  /** The first segment is data that fills a datagram. */
  predicate FullFirst(mtu: nat, ws: seq<Wire>)
  {
    ws != [] && ws[0].cmd == PUSH && OVERHEAD + |ws[0].data| == mtu
  }

  /** What packing one more segment does to the datagrams already output. */
  lemma PackOneKeepsFull(mtu: nat, p: Packing, w: Wire, full: bool)
    requires OVERHEAD + |w.data| <= mtu && (w.cmd != PUSH ==> w.data == [])
    requires (p.done != [] && p.done[0] == [] <==> full) && (forall k :: 0 < k < |p.done| ==> p.done[k] != [])
    requires p.pending != []
    ensures var p' := PackOne(mtu, p, w);
      && (p'.done != [] && p'.done[0] == [] <==> full) && (forall k :: 0 < k < |p'.done| ==> p'.done[k] != [])
      && p'.pending != []
  {
    hide Overflows, Size;
  }

  /** Packing the first segment outputs the empty buffer exactly when it fills a datagram. */
  lemma PackFirst(mtu: nat, w: Wire)
    requires OVERHEAD + |w.data| <= mtu && (w.cmd != PUSH ==> w.data == [])
    ensures PackAll(mtu, [w]) == Packing(if FullFirst(mtu, [w]) then [[]] else [], [w])
  {
    assert [w][..0] == [];
    assert PackAll(mtu, [w]) == PackOne(mtu, PackAll(mtu, []), w);
    var none: seq<seq<Wire>>, nothing: seq<Wire> := [], [];
    assert none + [nothing] == [nothing] && nothing + [w] == [w];
  }

  lemma {:induction false} PackAllFirst(mtu: nat, ws: seq<Wire>)
    requires ws != [] && forall w :: w in ws ==> OVERHEAD + |w.data| <= mtu && (w.cmd != PUSH ==> w.data == [])
    ensures var p := PackAll(mtu, ws);
      && (p.done != [] && p.done[0] == [] <==> FullFirst(mtu, ws))
      && (forall k :: 0 < k < |p.done| ==> p.done[k] != [])
      && p.pending != []
    decreases |ws|
  {
    hide PackOne, Overflows, Size;
    var front, w := ws[..|ws| - 1], ws[|ws| - 1];
    assert w in ws;
    if |ws| == 1 {
      assert ws == [w];
      PackFirst(mtu, w);
    } else {
      PackAllFirst(mtu, front);
      PackOneKeepsFull(mtu, PackAll(mtu, front), w, FullFirst(mtu, front));
    }
  }

  /** The test for data counts a datagram of exactly mtu bytes as too large, so flush outputs an
      empty datagram exactly when the first segment it writes is data that fills one; then the
      empty datagram comes first, and no other datagram is empty. */
  lemma EmptyDatagramFirst(mtu: nat, ws: seq<Wire>)
    requires forall w :: w in ws ==> OVERHEAD + |w.data| <= mtu && (w.cmd != PUSH ==> w.data == [])
    ensures var groups := Datagrams(mtu, ws);
      && ([] in groups <==> ws != [] && ws[0].cmd == PUSH && OVERHEAD + |ws[0].data| == mtu)
      && (forall k :: 0 < k < |groups| ==> groups[k] != [])
  {
    hide PackOne, Overflows, Size;
    if ws != [] {
      PackAllFirst(mtu, ws);
      var p, groups := PackAll(mtu, ws), Datagrams(mtu, ws);
      assert groups == p.done + [p.pending];
      if FullFirst(mtu, ws) {
        assert groups[0] == [];
      }
    }
  }

  // ---------- Full datagrams ----------

  /** Segment x did not go into a datagram that held g. */
  predicate NoRoomFor(mtu: nat, g: seq<Wire>, x: Wire)
  {
    || Size(g) + OVERHEAD + |x.data| > mtu
    || (x.cmd == PUSH && Size(g) + OVERHEAD + |x.data| == mtu)
  }

  /** Each datagram was output because the segment that follows it had no room in it. */
  predicate FilledUp(mtu: nat, groups: seq<seq<Wire>>)
  {
    forall k :: 0 < k < |groups| ==> groups[k] != [] && NoRoomFor(mtu, groups[k - 1], groups[k][0])
  }

  lemma PackOneFillsUp(mtu: nat, p: Packing, w: Wire)
    requires (w.cmd != PUSH ==> w.data == []) && p.pending != [] && FilledUp(mtu, p.done + [p.pending])
    ensures var p' := PackOne(mtu, p, w);
      p'.pending != [] && FilledUp(mtu, p'.done + [p'.pending])
  {
    hide Size;
    var p', groups := PackOne(mtu, p, w), p.done + [p.pending];
    var groups' := p'.done + [p'.pending];
    forall k | 0 < k < |groups'|
      ensures groups'[k] != [] && NoRoomFor(mtu, groups'[k - 1], groups'[k][0])
    {
      if k < |groups| {
        assert groups'[k - 1] == groups[k - 1] && groups'[k][0] == groups[k][0];
      } else {
        assert groups'[k - 1] == p.pending && groups'[k] == [w];
      }
    }
  }

  /** Packing is greedy: flush starts a datagram only for a segment that had no room in the one
      before, where data that would just fill it has none. */
  lemma {:induction false} DatagramsFillUp(mtu: nat, ws: seq<Wire>)
    requires forall w :: w in ws ==> OVERHEAD + |w.data| <= mtu && (w.cmd != PUSH ==> w.data == [])
    ensures ws != [] ==> var p := PackAll(mtu, ws); p.pending != [] && Datagrams(mtu, ws) == p.done + [p.pending]
    ensures FilledUp(mtu, Datagrams(mtu, ws))
    decreases |ws|
  {
    hide PackOne, Overflows, Size, NoRoomFor;
    if ws != [] {
      var front, w := ws[..|ws| - 1], ws[|ws| - 1];
      assert w in ws;
      if front == [] {
        assert ws == [w];
        PackFirst(mtu, w);
        FirstFillsUp(mtu, w);
        var none: seq<seq<Wire>> := [];
        assert none + [ws] == [ws] && [[]] + [ws] == [[], ws];
      } else {
        DatagramsFillUp(mtu, front);
        PackOneFillsUp(mtu, PackAll(mtu, front), w);
      }
    }
  }

  lemma FirstFillsUp(mtu: nat, w: Wire)
    ensures FilledUp(mtu, if FullFirst(mtu, [w]) then [[], [w]] else [[w]])
  {
    SizeNone();
  }
}
