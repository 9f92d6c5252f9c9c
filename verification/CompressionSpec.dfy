/** What the compressor writes for a string of bytes, as a function: the events of every
    byte under the evolving model, range coded, and the final flush. */
module CompressionSpec {
  import opened Words
  import opened RangeInterval
  import opened FrequencyModel

  /** The model and the context the next byte is predicted in. */
  datatype State = State(model: Model, predicted: Path)

  function Initial(): (s: State)
  {
    State(map[[] := Root()], [])
  }

  predicate StateOk(s: State)
  {
    && ModelOk(s.model) && TailClosed(s.model) && Tails(s.model, s.predicted)
    && |s.predicted| <= SUBCONTEXT_ORDER
    && |s.model| < SYMBOLS - SUBCONTEXT_ORDER
  }

  /** The state after a byte; the model starts afresh when the symbols run out. */
  function Step(s: State, v: u8): (r: State)
  {
    var m := UpdateFrom(s.model, s.predicted, v);
    var q := s.predicted + [v];
    if |m| >= SYMBOLS - SUBCONTEXT_ORDER then Initial()
    else State(m, if |s.predicted| >= SUBCONTEXT_ORDER then q[1..] else q)
  }

  lemma InitialOk()
    ensures StateOk(Initial())
  {
    var m := Initial().model;
    SumZero(Zeros(), 0, 256);
    assert ContextOk(Root(), []);
    assert Contents(m);
    forall v: u8
      ensures SymbolOk(m, [], v)
    {
    }
    assert |m| == 1;
  }

  lemma {:induction false} TailsOfNode(m: Model, p: Path)
    requires TailClosed(m) && p in m
    ensures Tails(m, p)
    decreases |p|
  {
    assert TailOk(m, p);
    if p != [] {
      TailsOfNode(m, p[1..]);
    }
  }

  lemma StepOk(s: State, v: u8)
    requires StateOk(s)
    ensures StateOk(Step(s, v))
  {
    InitialOk();
    hide ModelOk, Tails, Initial, TailClosed, UpdateFrom;
    UpdateFromOk(s.model, s.predicted, v);
    TailClosedIsBut(s.model);
    UpdateFromTails(s.model, s.predicted, v, []);
    var m, q := UpdateFrom(s.model, s.predicted, v), s.predicted + [v];
    TailsOfNode(m, q);
    TailOfTails(m, q);
  }

  lemma TailClosedIsBut(m: Model)
    requires TailClosed(m)
    ensures TailClosedBut(m, [])
  {
  }

  lemma TailOfTails(m: Model, q: Path)
    requires Tails(m, q) && q != []
    ensures Tails(m, q[1..])
  {
  }

  /** Everything coded from interval c on, up to the end of x. */
  function Encode(c: Interval, s: State, x: seq<u8>): (bytes: seq<u8>)
    requires c.Ready() && StateOk(s)
    decreases |x|
  {
    if x == [] then Flush(c.low)
    else
      EventsFromValid(s.model, s.predicted, x[0]);
      StepOk(s, x[0]);
      var first := CodeEvents(c, EventsFrom(s.model, s.predicted, x[0]));
      first.bytes + Encode(first.interval, Step(s, x[0]), x[1..])
  }

  function Compressed(x: seq<u8>): (bytes: seq<u8>)
  {
    InitialOk();
    Encode(START, Initial(), x)
  }

  lemma EncodeUnfolds(c: Interval, s: State, x: seq<u8>)
    requires c.Ready() && StateOk(s) && x != []
    ensures AllValid(EventsFrom(s.model, s.predicted, x[0])) && StateOk(Step(s, x[0]))
    ensures var first := CodeEvents(c, EventsFrom(s.model, s.predicted, x[0]));
            Encode(c, s, x) == first.bytes + Encode(first.interval, Step(s, x[0]), x[1..])
  {
    EventsFromValid(s.model, s.predicted, x[0]);
    StepOk(s, x[0]);
  }

  /** The written bytes are a number inside every interval of the run. */
  lemma {:induction false} EncodeContains(c: Interval, s: State, x: seq<u8>)
    requires c.Ready() && StateOk(s)
    ensures c.Contains(Window(Encode(c, s, x), 0))
    decreases |x|
  {
    if x == [] {
      FlushIsTheWord(c.low);
    } else {
      EncodeUnfolds(c, s, x);
      hide Encode, StateOk, Step, EventsFrom, CodeEvents, AllValid;
      var es := EventsFrom(s.model, s.predicted, x[0]);
      var first := CodeEvents(c, es);
      EncodeContains(first.interval, Step(s, x[0]), x[1..]);
      CodeEventsContains(c, es, Encode(first.interval, Step(s, x[0]), x[1..]));
    }
  }

  /** Some byte is always written: the first event moves low off zero. */
  lemma {:induction false} EncodeLeavesBytes(c: Interval, s: State, x: seq<u8>)
    requires c.Ready() && StateOk(s) && c.low > 0
    ensures Encode(c, s, x) != []
    decreases |x|
  {
    if x != [] {
      EncodeUnfolds(c, s, x);
      var es := EventsFrom(s.model, s.predicted, x[0]);
      hide EventsFrom, Step, StateOk;
      EventsMoveLow(c, es);
      if CodeEvents(c, es).bytes == [] {
        EncodeLeavesBytes(CodeEvents(c, es).interval, Step(s, x[0]), x[1..]);
      }
    }
  }

  lemma {:induction false} EventsMoveLow(c: Interval, es: seq<Event>)
    requires c.Ready() && AllValid(es)
    ensures CodeEvents(c, es).bytes == [] ==> CodeEvents(c, es).interval.low >= c.low
    ensures CodeEvents(c, es).bytes == [] && es != [] && es[0].under > 0 ==> CodeEvents(c, es).interval.low > c.low
    decreases |es|
  {
    if es != [] {
      NarrowBounds(c, es[0]);
      LowMoves(c, es[0]);
      hide Narrow;
      EventsMoveLow(CodeEvent(c, es[0]).interval, es[1..]);
    }
  }

  lemma LowMoves(c: Interval, e: Event)
    requires c.Ready() && e.Valid()
    ensures e.under > 0 ==> Narrow(c, e).low > c.low
  {
    NarrowBounds(c, e);
    if e.under > 0 {
      MulOrder(0, e.under, c.range / e.total);
    }
  }

  lemma CompressedIsEmptyOnlyForEmpty(x: seq<u8>)
    ensures Compressed(x) == [] <==> x == []
  {
    InitialOk();
    if x != [] {
      var s := Initial();
      EncodeUnfolds(START, s, x);
      var es := EventsFrom(s.model, s.predicted, x[0]);
      assert es == [SymbolEvent(s.model[[]], [], x[0])];
      EventsMoveLow(START, es);
      if CodeEvents(START, es).bytes == [] {
        EncodeLeavesBytes(CodeEvents(START, es).interval, Step(s, x[0]), x[1..]);
      }
    }
  }
}
