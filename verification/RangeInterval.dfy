/** The 32-bit carry-less range coder of toxtun/compress.c, on unbounded integers.

    An interval is a pair (low, range) of 32-bit words.  Coding an event narrows
    the interval; renormalising shifts out the leading bytes that low and
    low + range share and, when the interval straddles a byte boundary but has
    become too small, truncates the range first.  The encoder's bytes are the
    digits of a number that lies in every interval of the run, which is what the
    decoder reads back. */
module RangeInterval {
  import B = BitWords
  import opened Words

  const WORD := 0x1_0000_0000
  const TOP := 0x100_0000
  const BOTTOM := 0x1_0000

  datatype Interval = Interval(low: int, range: int) {
    /** The invariant between two events: no wrap-around, except that the
        exclusive end may be exactly 2^32 when low is in the last byte. */
    predicate Sound() {
      && 0 <= low < WORD
      && 0 < range
      && low + range <= WORD
      && (low + range == WORD ==> low >= TOP)
    }

    predicate Ready() {
      Sound() && range >= BOTTOM && !SameTop()
    }

    /** The test `(low ^ (low + range)) < TOP` on 32-bit words: the words agree in
        their top byte (XorTestComparesTopBytes below). */
    predicate SameTop() {
      low / TOP == ((low + range) % WORD) / TOP
    }

    predicate Contains(code: int) {
      low <= code < low + range
    }
  }

  datatype Event = Event(under: nat, count: nat, total: nat) {
    predicate Valid() {
      && 0 < count
      && under + count <= total
      && total < BOTTOM
    }
  }

  const START := Interval(0, WORD - 1)

  function Narrow(c: Interval, e: Event): (r: Interval)
    requires e.Valid()
  {
    Interval(c.low + e.under * (c.range / e.total), (c.range / e.total) * e.count)
  }

  lemma NarrowBounds(c: Interval, e: Event)
    requires c.Sound() && c.range >= BOTTOM && e.Valid()
    ensures c.range / e.total >= 1
    ensures Narrow(c, e).Sound()
    ensures c.low <= Narrow(c, e).low && Narrow(c, e).low + Narrow(c, e).range <= c.low + c.range
  {
    var q := c.range / e.total;
    QuotientBounds(c.range, e.total);
    Subdivision(c.range, q, e.under, e.count, e.total);
  }

  lemma QuotientBounds(a: nat, b: nat)
    requires 0 < b <= a
    ensures a / b >= 1 && (a / b) * b <= a
  {
  }

  lemma Subdivision(range: int, q: int, under: nat, count: nat, total: nat)
    requires q >= 1 && q * total <= range && 0 < count && under + count <= total
    ensures 0 <= under * q && 0 < q * count && under * q + q * count <= range
  {
    assert q * (total - under - count) >= 0;
  }

  function Truncated(c: Interval): (r: Interval)
  {
    Interval(c.low, (BOTTOM - c.low % BOTTOM) % BOTTOM)
  }

  function Shifted(c: Interval): (r: Interval)
  {
    Interval((c.low % TOP) * 256, c.range * 256)
  }

  /** What one round of the renormalisation loop does before it shifts. */
  function Trimmed(c: Interval): (r: Interval)
  {
    if c.SameTop() then c else Truncated(c)
  }

  /** A round of the loop keeps the interval sound and inside the old one, and the
      range grows by a factor of 256 unless the end has just been moved onto a
      byte boundary, after which it stays at 2^32. */
  lemma ShiftRound(c: Interval)
    requires c.Sound() && (c.SameTop() || c.range < BOTTOM)
    ensures Trimmed(c).Sound() && Trimmed(c).range <= c.range
    ensures Shifted(Trimmed(c)).Sound()
    ensures (c.low % TOP) + Trimmed(c).range <= TOP
    ensures Rounds(Shifted(Trimmed(c))) < Rounds(c)
  {
    var t := Trimmed(c);
    if c.SameTop() {
      assert c.low + c.range < WORD;
    } else {
      StraddlesBoundary(c);
    }
  }

  /** The first test of the loop, on 32-bit words: the exclusive or of low and low + range is at
      least 2^24 exactly when the interval does not lie in one top byte. */
  lemma XorTestComparesTopBytes(c: Interval)
    requires 0 <= c.low < WORD && 0 <= c.range
    ensures B.Value(B.Xor(B.WordOf(c.low), B.WordOf((c.low + c.range) % WORD))) >= TOP <==> !c.SameTop()
  {
    hide B.Value, B.Xor, B.WordOf;
    var high := (c.low + c.range) % WORD;
    B.Powers();
    B.ValueOfWord(c.low);
    B.ValueOfWord(high);
    B.XorBelow(B.WordOf(c.low), B.WordOf(high), 24);
  }

  /** What the second test stores: the negation of low on 32-bit words, masked with 2^16 - 1, is
      the range of the truncated interval. */
  lemma MaskedNegationIsTruncation(c: Interval)
    requires 0 <= c.low < WORD
    ensures B.Value(B.And(B.WordOf((WORD - c.low) % WORD), B.WordOf(BOTTOM - 1))) == Truncated(c).range
  {
    hide B.Value, B.And, B.WordOf;
    var negated := (WORD - c.low) % WORD;
    B.Powers();
    B.ValueOfWord(negated);
    B.MaskIsRemainder(B.WordOf(negated), 16, BOTTOM - 1);
  }

  lemma StraddlesBoundary(c: Interval)
    requires c.Sound() && !c.SameTop() && c.range < BOTTOM
    ensures 0 < Truncated(c).range <= c.range
    ensures c.low % TOP + Truncated(c).range == TOP
    ensures c.low + c.range == WORD ==> Truncated(c).range == c.range
  {
    HalfCrossed(c.low / BOTTOM, c.low % BOTTOM, c.range);
    if c.low + c.range == WORD {
      assert c.low % BOTTOM + c.range == BOTTOM;
    }
  }

  /** A short interval whose ends differ in the top byte crosses a multiple of 2^16, which is a
      multiple of 2^24. */
  lemma HalfCrossed(b: int, d: nat, range: nat)
    requires b >= 0 && d < BOTTOM && range < BOTTOM
    requires (b * BOTTOM + d) / TOP != (b * BOTTOM + d + range) / TOP
    ensures d + range >= BOTTOM && d > 0
    ensures (b * BOTTOM + d) % TOP == TOP - BOTTOM + d
  {
    Quarters(b, d);
    if d + range < BOTTOM {
      Quarters(b, d + range);
    } else {
      Quarters(b + 1, d + range - BOTTOM);
      TopChanges(b);
    }
  }

  /** The top byte of a word in two halves. */
  lemma Quarters(b: int, d: nat)
    requires b >= 0 && d < BOTTOM
    ensures (b * BOTTOM + d) / TOP == b / 256
    ensures (b * BOTTOM + d) % TOP == (b % 256) * BOTTOM + d
  {
  }

  lemma TopChanges(b: int)
    requires b >= 0
    ensures b / 256 != (b + 1) / 256 ==> b % 256 == 255
  {
  }

  /** Bound on the rounds left: twice the bytes by which the range is short. */
  function Rounds(c: Interval): (n: nat)
    requires c.range <= WORD
  {
    (if c.low + c.range == WORD then 0 else WORD) + (WORD - c.range)
  }

  datatype Coded = Coded(interval: Interval, bytes: seq<u8>)

  /** The renormalisation loop: the interval it stops at and the bytes it shifts out. */
  function Normalise(c: Interval): (r: Coded)
    requires c.Sound()
    ensures r.interval.Ready()
    decreases Rounds(c)
  {
    if c.SameTop() || c.range < BOTTOM then
      ShiftRound(c);
      var rest := Normalise(Shifted(Trimmed(c)));
      Coded(rest.interval, [c.low / TOP] + rest.bytes)
    else
      Coded(c, [])
  }

  // ---------- The byte stream ----------

  /** A byte of the stream; what lies past the end reads as zero. */
  function At(s: seq<u8>, i: nat): (b: u8)
  {
    if i < |s| then s[i] else 0
  }

  /** The 32-bit word that starts at byte k. */
  function Window(s: seq<u8>, k: nat): (w: int)
    ensures 0 <= w < WORD
  {
    At(s, k) * 0x100_0000 + At(s, k + 1) * 0x1_0000 + At(s, k + 2) * 0x100 + At(s, k + 3)
  }

  lemma WindowSlides(s: seq<u8>, k: nat)
    ensures Window(s, k + 1) == (Window(s, k) % TOP) * 256 + At(s, k + 4)
  {
    assert Window(s, k) == At(s, k) * TOP + (At(s, k + 1) * 0x1_0000 + At(s, k + 2) * 0x100 + At(s, k + 3));
  }

  lemma WindowOfSuffix(s: seq<u8>, k: nat)
    requires k <= |s|
    ensures Window(s[k..], 0) == Window(s, k)
  {
  }

  lemma WindowOfCons(t: u8, s: seq<u8>)
    ensures Window([t] + s, 0) == t * TOP + Window(s, 0) / 256
  {
    assert forall i: nat :: At([t] + s, i + 1) == At(s, i);
    assert At([t] + s, 0) == t && At([t] + s, 0 + 1) == At(s, 0) && At([t] + s, 1 + 1) == At(s, 1)
      && At([t] + s, 2 + 1) == At(s, 2);
    assert Window(s, 0) == 256 * (At(s, 0) * 0x1_0000 + At(s, 1) * 0x100 + At(s, 2)) + At(s, 3);
  }

  /** The flush at the end: the bytes of low up to the last non-zero one. */
  function Flush(low: int): (bytes: seq<u8>)
    requires 0 <= low < WORD
    ensures |bytes| <= FlushRounds(low)
    ensures low > 0 ==> |bytes| > 0
    decreases FlushRounds(low)
  {
    if low == 0 then []
    else
      FlushShrinks(low);
      [low / TOP] + Flush((low % TOP) * 256)
  }

  function FlushRounds(low: int): (n: nat)
    ensures n <= 4
  {
    if low == 0 then 0
    else if low % TOP == 0 then 1
    else if low % BOTTOM == 0 then 2
    else if low % 256 == 0 then 3
    else 4
  }

  lemma ScaledTop(a: nat)
    ensures (a * 256) % TOP == 256 * (a % BOTTOM)
  {
    assert a * 256 == TOP * (a / BOTTOM) + 256 * (a % BOTTOM);
  }

  lemma ScaledBottom(a: nat)
    ensures (a * 256) % BOTTOM == 256 * (a % 256)
  {
    assert a * 256 == BOTTOM * (a / 256) + 256 * (a % 256);
  }

  lemma LowEnd(low: nat)
    ensures low % TOP % BOTTOM == low % BOTTOM && low % TOP % 256 == low % 256
  {
    assert low == TOP * (low / TOP) + low % TOP;
  }

  lemma FlushShrinks(low: int)
    requires 0 < low < WORD
    ensures FlushRounds((low % TOP) * 256) < FlushRounds(low)
  {
    ScaledTop(low % TOP);
    ScaledBottom(low % TOP);
    LowEnd(low);
  }

  lemma {:induction false} FlushIsTheWord(low: int)
    requires 0 <= low < WORD
    ensures Window(Flush(low), 0) == low
    decreases FlushRounds(low)
  {
    hide FlushRounds;
    if low != 0 {
      FlushShrinks(low);
      FlushIsTheWord((low % TOP) * 256);
      WindowOfCons(low / TOP, Flush((low % TOP) * 256));
    }
  }

  // ---------- A whole run of events ----------

  predicate AllValid(es: seq<Event>)
  {
    forall i :: 0 <= i < |es| ==> es[i].Valid()
  }

  function CodeEvent(c: Interval, e: Event): (r: Coded)
    requires c.Ready() && e.Valid()
    ensures r.interval.Ready()
  {
    NarrowBounds(c, e);
    Normalise(Narrow(c, e))
  }

  function CodeEvents(c: Interval, es: seq<Event>): (r: Coded)
    requires c.Ready() && AllValid(es)
    ensures r.interval.Ready()
    decreases |es|
  {
    if es == [] then Coded(c, [])
    else
      var first := CodeEvent(c, es[0]);
      var rest := CodeEvents(first.interval, es[1..]);
      Coded(rest.interval, first.bytes + rest.bytes)
  }

  lemma {:induction false} CodeEventsSplit(c: Interval, es: seq<Event>, fs: seq<Event>)
    requires c.Ready() && AllValid(es) && AllValid(fs)
    ensures AllValid(es + fs)
    ensures CodeEvents(c, es + fs) ==
            Coded(CodeEvents(CodeEvents(c, es).interval, fs).interval,
                  CodeEvents(c, es).bytes + CodeEvents(CodeEvents(c, es).interval, fs).bytes)
    decreases |es|
  {
    hide Normalise, Narrow;
    if es == [] {
      assert es + fs == fs;
    } else {
      assert (es + fs)[1..] == es[1..] + fs;
      CodeEventsSplit(CodeEvent(c, es[0]).interval, es[1..], fs);
    }
  }

  /** If the bytes that follow put the word inside the renormalised interval, the
      shifted bytes and those put it inside the interval before renormalising. */
  lemma {:induction false} NormaliseContains(c: Interval, s: seq<u8>)
    requires c.Sound()
    requires Normalise(c).interval.Contains(Window(s, 0))
    ensures c.Contains(Window(Normalise(c).bytes + s, 0))
    decreases Rounds(c)
  {
    hide Window;
    if c.SameTop() || c.range < BOTTOM {
      ShiftRound(c);
      var d := Shifted(Trimmed(c));
      NormaliseContains(d, s);
      var rest := Normalise(d).bytes + s;
      assert Normalise(c).bytes + s == [c.low / TOP] + rest;
      WindowOfCons(c.low / TOP, rest);
      ShiftBack(c.low, Trimmed(c).range, Window(rest, 0));
    } else {
      assert [] + s == s;
    }
  }

  lemma ShiftBack(low: int, range: int, w: int)
    requires 0 <= low < WORD && 0 < range
    requires Interval((low % TOP) * 256, range * 256).Contains(w)
    ensures Interval(low, range).Contains((low / TOP) * TOP + w / 256)
  {
    assert low == (low / TOP) * TOP + low % TOP;
  }

  lemma {:induction false} CodeEventsContains(c: Interval, es: seq<Event>, s: seq<u8>)
    requires c.Ready() && AllValid(es)
    requires CodeEvents(c, es).interval.Contains(Window(s, 0))
    ensures c.Contains(Window(CodeEvents(c, es).bytes + s, 0))
    ensures es != [] ==> Narrow(c, es[0]).Contains(Window(CodeEvents(c, es).bytes + s, 0))
    decreases |es|
  {
    hide Window, Normalise, Narrow;
    if es == [] {
      assert [] + s == s;
    } else {
      var first := CodeEvent(c, es[0]);
      var rest := CodeEvents(first.interval, es[1..]);
      CodeEventsContains(first.interval, es[1..], s);
      NarrowBounds(c, es[0]);
      NormaliseContains(Narrow(c, es[0]), rest.bytes + s);
      assert first.bytes + (rest.bytes + s) == CodeEvents(c, es).bytes + s;
    }
  }

  /** The quotient the decoder reads falls in the event the encoder coded. */
  lemma ReadFindsEvent(c: Interval, e: Event, code: int)
    requires c.Ready() && e.Valid()
    requires Narrow(c, e).Contains(code)
    ensures c.low <= code
    ensures e.under <= (code - c.low) / (c.range / e.total) < e.under + e.count
  {
    NarrowBounds(c, e);
    var q := c.range / e.total;
    QuotientBetween(code - c.low, q, e.under, e.under + e.count);
  }

  lemma QuotientBetween(x: int, q: int, a: int, b: int)
    requires q > 0 && 0 <= a && a * q <= x < b * q
    ensures a <= x / q < b
  {
    var d := x / q;
    DivisionEquation(x, q);
    MulOrder(a, d + 1, q);
    MulOrder(d, b, q);
  }

  lemma DivisionEquation(x: int, q: int)
    requires q > 0
    ensures (x / q) * q <= x < (x / q + 1) * q
  {
  }

  lemma MulOrder(a: int, b: int, q: int)
    requires q > 0 && a * q < b * q
    ensures a < b
  {
    assert (b - a) * q > 0;
  }
}
