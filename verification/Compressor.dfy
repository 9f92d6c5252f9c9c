/** enet_range_coder_compress and enet_range_coder_decompress. */
module Compressor {
  import opened Words
  import opened RangeInterval
  import opened FrequencyModel
  import opened SymbolTree
  import opened RangeCoding
  import opened CompressionSpec
  import opened CompressionText

  // ---------- Writing and reading events ----------

  /** One round of the renormalisation loop. */
  lemma RoundUnfolds(c: Interval)
    requires c.Sound()
    ensures !c.SameTop() && c.range >= BOTTOM ==> Normalise(c) == Coded(c, [])
    ensures c.SameTop() || c.range < BOTTOM ==>
      && Shifted(Trimmed(c)).Sound() && Rounds(Shifted(Trimmed(c))) < Rounds(c)
      && Normalise(c).interval == Normalise(Shifted(Trimmed(c))).interval
      && Normalise(c).bytes == [c.low / TOP] + Normalise(Shifted(Trimmed(c))).bytes
  {
    if c.SameTop() || c.range < BOTTOM {
      ShiftRound(c);
    }
  }

  /** ENET_RANGE_CODER_ENCODE: narrows and renormalises, writing the shifted bytes;
      fails when the output is full. */
  method PutEvent(c0: Interval, e: Event, out0: seq<u8>, outLimit: nat) returns (ok: bool, c: Interval, out: seq<u8>)
    requires c0.Ready() && e.Valid() && |out0| <= outLimit
    ensures ok == (|out0| + |CodeEvent(c0, e).bytes| <= outLimit)
    ensures ok ==> c == CodeEvent(c0, e).interval && out == out0 + CodeEvent(c0, e).bytes
  {
    NarrowBounds(c0, e);
    c := Narrow(c0, e);
    out := out0;
    ghost var goal := Normalise(c);
    hide Normalise, Rounds, Narrow, Trimmed, Shifted;
    while true
      invariant c.Sound() && |out| <= outLimit
      invariant goal.interval == Normalise(c).interval
      invariant out + Normalise(c).bytes == out0 + goal.bytes
      decreases Rounds(c)
    {
      RoundUnfolds(c);
      if !c.SameTop() {
        if c.range >= BOTTOM {
          return true, c, out;
        }
      }
      if |out| >= outLimit {
        assert |out + Normalise(c).bytes| > outLimit;
        return false, c, out;
      }
      out := out + [c.low / TOP];
      c := Shifted(Trimmed(c));
    }
  }

  /** ENET_RANGE_CODER_FLUSH. */
  method PutFlush(low0: int, out0: seq<u8>, outLimit: nat) returns (ok: bool, out: seq<u8>)
    requires 0 <= low0 < WORD && |out0| <= outLimit
    ensures ok == (|out0| + |Flush(low0)| <= outLimit)
    ensures ok ==> out == out0 + Flush(low0)
  {
    var low := low0;
    out := out0;
    while low != 0
      invariant 0 <= low < WORD && |out| <= outLimit
      invariant out + Flush(low) == out0 + Flush(low0)
      decreases FlushRounds(low)
    {
      FlushShrinks(low);
      assert Flush(low) == [low / TOP] + Flush((low % TOP) * 256);
      if |out| >= outLimit {
        assert |out + Flush(low)| > outLimit;
        return false, out;
      }
      out := out + [low / TOP];
      low := (low % TOP) * 256;
    }
    ok := true;
  }

  /** The decoder's read pointer when the code is the word at byte k. */
  function ReadAhead(input: seq<u8>, k: nat): (pos: nat)
  {
    if k + 4 <= |input| then k + 4 else |input|
  }

  /** ENET_RANGE_CODER_SEED. */
  method Seed(input: seq<u8>) returns (code: int, pos: nat)
    ensures code == Window(input, 0) && pos == ReadAhead(input, 0)
  {
    code, pos := 0, 0;
    if pos < |input| { code, pos := code + (input[pos] as int) * 0x100_0000, pos + 1; }
    if pos < |input| { code, pos := code + (input[pos] as int) * 0x1_0000, pos + 1; }
    if pos < |input| { code, pos := code + (input[pos] as int) * 0x100, pos + 1; }
    if pos < |input| { code, pos := code + input[pos], pos + 1; }
  }

  /** ENET_RANGE_CODER_DECODE: narrows and renormalises like the encoder, shifting as many
      bytes into the code as the encoder shifted out. */
  method TakeEvent(c0: Interval, e: Event, code0: int, pos0: nat, input: seq<u8>, ghost k0: nat)
    returns (c: Interval, code: int, pos: nat, ghost k: nat)
    requires c0.Ready() && e.Valid()
    requires code0 == Window(input, k0) && pos0 == ReadAhead(input, k0)
    ensures c == CodeEvent(c0, e).interval && k == k0 + |CodeEvent(c0, e).bytes|
    ensures code == Window(input, k) && pos == ReadAhead(input, k)
  {
    NarrowBounds(c0, e);
    c, code, pos, k := Narrow(c0, e), code0, pos0, k0;
    ghost var goal := Normalise(c);
    hide Normalise, Rounds, Narrow, Trimmed, Shifted, Window;
    while true
      invariant c.Sound() && code == Window(input, k) && pos == ReadAhead(input, k)
      invariant goal.interval == Normalise(c).interval
      invariant k + |Normalise(c).bytes| == k0 + |goal.bytes|
      decreases Rounds(c)
    {
      RoundUnfolds(c);
      if !c.SameTop() {
        if c.range >= BOTTOM {
          return;
        }
      }
      WindowSlides(input, k);
      code := (code % TOP) * 256;
      if pos < |input| {
        code, pos := code + input[pos], pos + 1;
      }
      c := Shifted(Trimmed(c));
      k := k + 1;
    }
  }

  // ---------- Following the stream ----------

  /** With bytes left to decode: the input from byte k on is what codes the events `es` and
      then the rest of the text. */
  ghost predicate Follows(input: seq<u8>, k: nat, c: Interval, es: seq<Event>, s: State, rest: seq<u8>)
  {
    && c.Ready() && AllValid(es) && StateOk(s)
    && k <= |input|
    && input[k..] == CodeEvents(c, es).bytes + Encode(CodeEvents(c, es).interval, s, rest)
  }

  /** At the end: the code is low itself, and only zeros follow. */
  ghost predicate AtEnd(input: seq<u8>, k: nat, c: Interval)
  {
    && c.Ready() && Window(input, k) == c.low
    && forall i :: k + 4 <= i < |input| ==> input[i] == 0
  }

  lemma FollowsUnfolds(input: seq<u8>, k: nat, c: Interval, es: seq<Event>, s: State, rest: seq<u8>)
    requires Follows(input, k, c, es, s, rest)
    ensures c.Ready() && AllValid(es) && StateOk(s) && k <= |input|
    ensures input[k..] == CodeEvents(c, es).bytes + Encode(CodeEvents(c, es).interval, s, rest)
  {
  }

  lemma FollowsRead(input: seq<u8>, k: nat, c: Interval, es: seq<Event>, s: State, rest: seq<u8>)
    requires Follows(input, k, c, es, s, rest) && es != []
    ensures c.Ready() && es[0].Valid() && c.low <= Window(input, k) && 0 < c.range / es[0].total
    ensures es[0].under <= (Window(input, k) - c.low) / (c.range / es[0].total) < es[0].under + es[0].count
  {
    hide Follows, CodeEvents, Encode, Window, StateOk, Narrow;
    FollowsUnfolds(input, k, c, es, s, rest);
    var tail := Encode(CodeEvents(c, es).interval, s, rest);
    EncodeContains(CodeEvents(c, es).interval, s, rest);
    CodeEventsContains(c, es, tail);
    WindowOfSuffix(input, k);
    ReadFindsEvent(c, es[0], Window(input, k));
    NarrowBounds(c, es[0]);
  }

  lemma CodeEventsUnfold(c: Interval, es: seq<Event>)
    requires c.Ready() && AllValid(es) && es != []
    ensures es[0].Valid() && AllValid(es[1..])
    ensures CodeEvents(c, es).interval == CodeEvents(CodeEvent(c, es[0]).interval, es[1..]).interval
    ensures CodeEvents(c, es).bytes == CodeEvent(c, es[0]).bytes
      + CodeEvents(CodeEvent(c, es[0]).interval, es[1..]).bytes
  {
    hide CodeEvent;
  }

  lemma FollowsStep(input: seq<u8>, k: nat, c: Interval, es: seq<Event>, s: State, rest: seq<u8>)
    requires Follows(input, k, c, es, s, rest) && es != []
    ensures c.Ready() && es[0].Valid()
    ensures Follows(input, k + |CodeEvent(c, es[0]).bytes|, CodeEvent(c, es[0]).interval, es[1..], s, rest)
  {
    hide CodeEvents, CodeEvent, Encode, StateOk, AllValid;
    FollowsUnfolds(input, k, c, es, s, rest);
    CodeEventsUnfold(c, es);
    var first := CodeEvent(c, es[0]);
    var after := CodeEvents(first.interval, es[1..]);
    var tail := Encode(after.interval, s, rest);
    assert input[k..] == first.bytes + (after.bytes + tail);
    assert input[k + |first.bytes|..] == input[k..][|first.bytes|..];
  }

  lemma FollowsNext(input: seq<u8>, k: nat, c: Interval, s: State, rest: seq<u8>)
    requires Follows(input, k, c, [], s, rest)
    ensures rest == [] ==> AtEnd(input, k, c)
    ensures rest != [] ==>
      StateOk(Step(s, rest[0])) && Follows(input, k, c, EventsFrom(s.model, s.predicted, rest[0]), Step(s, rest[0]),
      rest[1..])
  {
    var tail := Encode(c, s, rest);
    assert CodeEvents(c, []) == Coded(c, []);
    assert input[k..] == tail;
    if rest == [] {
      FlushIsTheWord(c.low);
      WindowOfSuffix(input, k);
      assert |input[k..]| <= 4;
    } else {
      EncodeUnfolds(c, s, rest);
    }
  }

  /** An event that does not move low keeps the decoder at the end. */
  lemma {:induction false} EndShifts(input: seq<u8>, k: nat, d: Interval)
    requires d.Sound() && Window(input, k) == d.low
    requires forall i :: k + 4 <= i < |input| ==> input[i] == 0
    ensures AtEnd(input, k + |Normalise(d).bytes|, Normalise(d).interval)
    decreases Rounds(d)
  {
    if d.SameTop() || d.range < BOTTOM {
      ShiftRound(d);
      WindowSlides(input, k);
      assert At(input, k + 4) == 0;
      EndShifts(input, k + 1, Shifted(Trimmed(d)));
    }
  }

  lemma EndStep(input: seq<u8>, k: nat, c: Interval, e: Event)
    requires AtEnd(input, k, c) && e.Valid() && e.under == 0
    ensures AtEnd(input, k + |CodeEvent(c, e).bytes|, CodeEvent(c, e).interval)
  {
    NarrowBounds(c, e);
    assert Narrow(c, e).low == c.low;
    EndShifts(input, k, Narrow(c, e));
  }

  // ---------- One byte ----------

  /** The symbol the source's `parent` pointer refers to (-1 for the local `predicted`)
      waits for the symbol of value v in context q. */
  ghost predicate Waiting(g: seq<Info>, link: int, q: Path, v: u8)
  {
    link == -1 || (0 < link < |g| && g[link].path != [] && g[link].path[1..] == q + [v])
  }

  lemma ParentsLinked(sy: seq<Symbol>, sy': seq<Symbol>, g: seq<Info>, g': seq<Info>, link: int, q: Path, v: u8,
                      symbol: nat)
    requires |g| <= |sy| && |g'| <= |sy'| && g <= g'
    requires Parents(sy, g, link) && Waiting(g, link, q, v)
    requires symbol < |g'| && g'[symbol].path == q + [v]
    requires |g'| <= |g| + 1 && (|g'| > |g| ==> symbol == |g|)
    requires forall i :: 0 <= i < |g| && i != link ==> sy'[i].parent == sy[i].parent
    requires link >= 0 ==> sy'[link].parent == symbol
    ensures q == [] && symbol < |sy'| && sy'[symbol].parent == 0 && |g| > 0 && g[0].path == [] ==> Parents(sy', g', -1)
    ensures Parents(sy', g', if |g'| > |g| then symbol else -1)
  {
  }

  lemma PathsDiffer(sy: seq<Symbol>, g: seq<Info>, m: Model, i: nat, j: nat)
    requires Rep(sy, g, m) && i < |g| && j < |g| && g[i].path == g[j].path
    ensures i == j
  {
  }

  /** One round of the encoder: looks the value up in a context, links it, codes the symbol
      or the escape, and settles the context. */
  method CodeContext(coder: RangeCoder, sub: nat, value: u8, link: int, minimum: nat, c0: Interval, out0: seq<u8>,
                     outLimit: nat)
    returns (ok: bool, found: bool, symbol: nat, c: Interval, out: seq<u8>)
    requires coder.Valid() && sub < coder.nextSymbol < SYMBOLS
    requires ModelOk(coder.model) && coder.info[sub].path in coder.model && |coder.info[sub].path| <= 2
    requires minimum == Minimum(coder.info[sub].path)
    requires Parents(coder.symbols[..], coder.info, link) && -1 <= link
      && Waiting(coder.info, link, coder.info[sub].path, value)
    requires c0.Ready() && |out0| <= outLimit
    modifies coder, coder.symbols
    ensures |old(coder.model)[old(coder.info)[sub].path].freq| == 256
    ensures found == (old(coder.model)[old(coder.info)[sub].path].freq[value] > 0)
    ensures var es := ContextEvents(old(coder.model), old(coder.info)[sub].path, value);
      && AllValid(es)
      && ok == (|out0| + |CodeEvents(c0, es).bytes| <= outLimit)
      && (ok ==> Coded(c, out) == Coded(CodeEvents(c0, es).interval, out0 + CodeEvents(c0, es).bytes))
    ensures ok ==> coder.Valid() && coder.model == Touch(old(coder.model), old(coder.info)[sub].path, value)
    ensures ok ==> old(coder.info) <= coder.info && coder.nextSymbol == old(coder.nextSymbol) + if found then 0 else 1
    ensures ok ==> symbol < coder.nextSymbol && coder.info[symbol].path == old(coder.info)[sub].path + [value]
    ensures ok ==> Parents(coder.symbols[..], coder.info, if found || minimum == 1 then -1 else symbol)
  {
    hide ModelOk, ContextOk, Rep, Sum, Parents, Touch, LearnedBy, LearnedFrom, CodeEvent, CodeEvents, Cumulative,
      ContextEvents, AllValid, Waiting, SameParents;
    ghost var m, q := coder.model, coder.info[sub].path;
    RepBounds(coder.symbols[..], coder.info, coder.model);
    RoomOk(m, q, value);
    TouchSize(m, q, value);
    var under, count;
    symbol, under, count := LookUp(coder, sub, value, link, minimum);
    found := count > minimum;
    SettleFields(coder.symbols[..], coder.info, m, coder.model, sub, value);
    ghost var sy := coder.symbols[..];
    RepBounds(sy, coder.info, coder.model);
    ok, c, out := PutContextEvent(coder.symbols[sub].escapes, coder.symbols[sub].total, under, count, c0, out0,
      outLimit, m, q, value);
    if ok {
      coder.Settle(sub, value, count, minimum, m);
      ParentsKept(sy, coder.symbols[..], coder.info, if found || minimum == 1 then -1 else symbol);
      RepBounds(coder.symbols[..], coder.info, coder.model);
    }
  }

  /** The event of a context: the symbol, or an escape unless nothing can follow it. */
  method PutContextEvent(escapes: nat, total: nat, under: nat, count: nat, c0: Interval, out0: seq<u8>, outLimit: nat,
                         ghost m: Model, ghost q: Path, ghost value: u8)
    returns (ok: bool, c: Interval, out: seq<u8>)
    requires ModelOk(m) && q in m && |m[q].freq| == 256
    requires escapes == m[q].escapes && total == m[q].total
    requires under == Cumulative(m[q].freq, Minimum(q), value) && count == Minimum(q) + m[q].freq[value]
    requires c0.Ready() && |out0| <= outLimit
    ensures var es := ContextEvents(m, q, value);
      && AllValid(es)
      && ok == (|out0| + |CodeEvents(c0, es).bytes| <= outLimit)
      && (ok ==> Coded(c, out) == Coded(CodeEvents(c0, es).interval, out0 + CodeEvents(c0, es).bytes))
  {
    hide ModelOk, ContextOk, Sum, CodeEvent, CodeEvents, Cumulative;
    ContextEventsValid(m, q, value);
    CodeOne(c0, ContextEvents(m, q, value));
    ok, c, out := true, c0, out0;
    if count > 0 {
      ok, c, out := PutEvent(c0, Event(escapes + under, count, total), out0, outLimit);
    } else if 0 < escapes < total {
      ok, c, out := PutEvent(c0, Event(0, escapes, total), out0, outLimit);
    }
  }

  lemma ParentsKept(sy: seq<Symbol>, sy': seq<Symbol>, g: seq<Info>, pending: int)
    requires |g| <= |sy| && |g| <= |sy'| && Parents(sy, g, pending) && SameParents(sy, sy', |g|)
    ensures Parents(sy', g, pending)
  {
  }

  /** The walk and the store through the `parent` pointer. */
  method LookUp(coder: RangeCoder, sub: nat, value: u8, link: int, minimum: nat)
    returns (symbol: nat, under: u16, count: u16)
    requires coder.Valid() && sub < coder.nextSymbol < SYMBOLS
    requires ModelOk(coder.model) && coder.info[sub].path in coder.model && |coder.info[sub].path| <= 2
    requires minimum == Minimum(coder.info[sub].path)
    requires Parents(coder.symbols[..], coder.info, link) && -1 <= link
      && Waiting(coder.info, link, coder.info[sub].path, value)
    modifies coder, coder.symbols
    ensures coder.Valid() && |old(coder.model)[old(coder.info)[sub].path].freq| == 256
    ensures coder.model == LearnedFrom(old(coder.model), old(coder.info)[sub].path, value)
    ensures old(coder.info) <= coder.info
    ensures under == Cumulative(old(coder.model)[old(coder.info)[sub].path].freq, minimum, value)
    ensures count == minimum + old(coder.model)[old(coder.info)[sub].path].freq[value]
    ensures symbol < coder.nextSymbol && coder.info[symbol].path == old(coder.info)[sub].path + [value]
    ensures Parents(coder.symbols[..], coder.info, if count > minimum || minimum == 1 then -1 else symbol)
  {
    hide ModelOk, Rep, Sum, LearnedBy, Parents, SameParents, Cumulative;
    ghost var m, q, sy, g := coder.model, coder.info[sub].path, coder.symbols[..], coder.info;
    RepBounds(sy, g, m);
    RoomOk(m, q, value);
    LearnedSize(m, q, value);
    symbol, under, count := coder.EncodeSymbol(sub, value, if minimum == 1 then 3 else 2, minimum);
    ghost var walked := coder.symbols[..];
    ParentOf(sy, walked, |g|);
    RepBounds(coder.symbols[..], coder.info, coder.model);
    IsNewest(sy, g, m, coder.info, q, value, symbol);
    if link >= 0 {
      coder.StoreParent(link, symbol);
    }
    ParentsLinked(sy, coder.symbols[..], g, coder.info, link, q, value, symbol);
  }

  lemma ParentOf(sy: seq<Symbol>, sy': seq<Symbol>, n: nat)
    requires SameParents(sy, sy', n)
    ensures n <= |sy| && n <= |sy'| && forall i :: 0 <= i < n ==> sy'[i].parent == sy[i].parent
  {
  }

  lemma IsNewest(sy: seq<Symbol>, g: seq<Info>, m: Model, g': seq<Info>, q: Path, v: u8, symbol: nat)
    requires Rep(sy, g, m) && q in m && |m[q].freq| == 256 && SymbolOk(m, q, v)
    requires g <= g' && |g'| == |g| + if m[q].freq[v] > 0 then 0 else 1
    requires symbol < |g'| && g'[symbol].path == q + [v]
    ensures |g'| > |g| ==> symbol == |g|
  {
    if symbol < |g| {
      PathKnown(sy, g, m, symbol);
    }
  }

  lemma PathKnown(sy: seq<Symbol>, g: seq<Info>, m: Model, i: nat)
    requires Rep(sy, g, m) && i < |g|
    ensures g[i].path in m
  {
    assert ContextRep(sy, g, m, i);
  }

  lemma LearnedSize(m: Model, p: Path, v: u8)
    requires ModelOk(m) && p in m && |p| <= 2 && |m[p].freq| == 256
    ensures |LearnedFrom(m, p, v)| == |m| + if m[p].freq[v] > 0 then 0 else 1
  {
    assert SymbolOk(m, p, v);
    hide ModelOk, Empty;
    KeysGrow(m, LearnedFrom(m, p, v), if m[p].freq[v] > 0 then p else p + [v]);
  }

  lemma CodeOne(c: Interval, es: seq<Event>)
    requires c.Ready() && AllValid(es) && |es| <= 1
    ensures es == [] ==> CodeEvents(c, es) == Coded(c, [])
    ensures es != [] ==> es[0].Valid() && CodeEvents(c, es) == CodeEvent(c, es[0])
  {
    hide CodeEvent;
    if es != [] {
      assert es[1..] == [];
    }
  }

  /** The events one context contributes. */
  function ContextEvents(m: Model, p: Path, v: u8): (es: seq<Event>)
    requires p in m && |m[p].freq| == 256
  {
    if p == [] || m[p].freq[v] > 0 then [SymbolEvent(m[p], p, v)] else EscapeEvents(m[p])
  }

  lemma ContextEventsValid(m: Model, p: Path, v: u8)
    requires ModelOk(m) && p in m && |m[p].freq| == 256
    ensures AllValid(ContextEvents(m, p, v))
  {
    if p == [] || m[p].freq[v] > 0 {
      SymbolEventValid(m[p], p, v);
    }
  }

  /** Where a byte is being coded: the model m so far, the context q to look in next and the
      index holding it, with `room` for that many more symbols. */
  ghost predicate Chain(coder: RangeCoder, sub: nat, link: int, q: Path, value: u8, room: nat)
    reads coder, coder.symbols
  {
    && coder.Valid() && ModelOk(coder.model) && Tails(coder.model, q) && |q| <= 2
    && sub < coder.nextSymbol && coder.info[sub].path == q
    && coder.nextSymbol + room <= SYMBOLS
    && Parents(coder.symbols[..], coder.info, link) && -1 <= link && Waiting(coder.info, link, q, value)
  }

  /** The events and the update of a context that lacks the value, and of the contexts below. */
  lemma ChainStep(m: Model, q: Path, value: u8)
    requires ModelOk(m) && Tails(m, q) && |q| <= 2
    ensures q in m && |m[q].freq| == 256 && ModelOk(Touch(m, q, value))
    ensures q == [] || m[q].freq[value] > 0 ==>
      EventsFrom(m, q, value) == ContextEvents(m, q, value) && UpdateFrom(m, q, value) == Touch(m, q, value)
    ensures q != [] && m[q].freq[value] == 0 ==>
      && EventsFrom(m, q, value) == ContextEvents(m, q, value) + EventsFrom(Touch(m, q, value), q[1..], value)
      && UpdateFrom(m, q, value) == UpdateFrom(Touch(m, q, value), q[1..], value)
      && Tails(Touch(m, q, value), q[1..])
    ensures AllValid(EventsFrom(m, q, value)) && AllValid(ContextEvents(m, q, value))
    ensures q != [] ==> AllValid(EventsFrom(Touch(m, q, value), q[1..], value))
  {
    UpdateUnfolds(m, q, value);
    TouchOk(m, q, value);
    EventsFromValid(m, q, value);
    ContextEventsValid(m, q, value);
    hide Touch, ModelOk, AllValid;
    if q != [] {
      TouchTails(m, q, q[1..], value);
      EventsFromFrame(m, q, q[1..], value);
      EventsFromValid(Touch(m, q, value), q[1..], value);
    }
  }

  /** Coding `es` from (c, out) writes what remains of the goal. */
  ghost predicate OnTrack(goal: Coded, out0: seq<u8>, c: Interval, out: seq<u8>, es: seq<Event>, outLimit: nat)
  {
    && c.Ready() && AllValid(es) && |out| <= outLimit
    && CodeEvents(c, es).interval == goal.interval
    && out + CodeEvents(c, es).bytes == out0 + goal.bytes
  }

  lemma OnTrackStep(goal: Coded, out0: seq<u8>, c: Interval, out: seq<u8>, es: seq<Event>, fs: seq<Event>,
                    outLimit: nat)
    requires AllValid(es) && AllValid(fs) && OnTrack(goal, out0, c, out, es + fs, outLimit)
    ensures |out| + |CodeEvents(c, es).bytes| > outLimit ==> |out0| + |goal.bytes| > outLimit
    ensures |out| + |CodeEvents(c, es).bytes| <= outLimit ==>
      CodeEvents(c, es).interval.Ready()
        && OnTrack(goal, out0, CodeEvents(c, es).interval, out + CodeEvents(c, es).bytes, fs, outLimit)
  {
    CodeEventsSplit(c, es, fs);
    var first := CodeEvents(c, es);
    var rest := CodeEvents(first.interval, fs);
    assert out + (first.bytes + rest.bytes) == (out + first.bytes) + rest.bytes;
    assert |out + (first.bytes + rest.bytes)| == |out0 + goal.bytes|;
  }

  lemma OnTrackReady(goal: Coded, out0: seq<u8>, c: Interval, out: seq<u8>, es: seq<Event>, outLimit: nat)
    requires OnTrack(goal, out0, c, out, es, outLimit)
    ensures c.Ready() && |out| <= outLimit
  {
  }

  lemma OnTrackStarts(c: Interval, out: seq<u8>, es: seq<Event>, outLimit: nat)
    requires c.Ready() && AllValid(es) && |out| <= outLimit
    ensures OnTrack(CodeEvents(c, es), out, c, out, es, outLimit)
  {
  }

  lemma OnTrackEnds(goal: Coded, out0: seq<u8>, c: Interval, out: seq<u8>, outLimit: nat)
    requires OnTrack(goal, out0, c, out, [], outLimit)
    ensures c == goal.interval && out == out0 + goal.bytes
  {
    assert out + [] == out;
  }

  /** One round of the loop over contexts: on to the next lower one unless the value was
      found or this was the root. */
  method EncodeRound(coder: RangeCoder, sub: nat, link: int, value: u8, minimum: nat, c0: Interval, out0: seq<u8>,
                     outLimit: nat, ghost q: Path)
    returns (ok: bool, found: bool, symbol: nat, c: Interval, out: seq<u8>)
    requires Chain(coder, sub, link, q, value, |q| + 1) && minimum == Minimum(q)
    requires c0.Ready() && |out0| <= outLimit
    modifies coder, coder.symbols
    ensures q in old(coder.model) && |old(coder.model)[q].freq| == 256
    ensures found == (old(coder.model)[q].freq[value] > 0)
    ensures var es := ContextEvents(old(coder.model), q, value);
      && AllValid(es)
      && ok == (|out0| + |CodeEvents(c0, es).bytes| <= outLimit)
      && (ok ==> Coded(c, out) == Coded(CodeEvents(c0, es).interval, out0 + CodeEvents(c0, es).bytes))
    ensures ok ==> coder.Valid() && coder.model == Touch(old(coder.model), q, value)
    ensures ok ==> old(coder.info) <= coder.info
    ensures ok ==> symbol < coder.nextSymbol && coder.info[symbol].path == q + [value]
    ensures ok && (found || q == []) ==> Parents(coder.symbols[..], coder.info, -1)
    ensures ok && !found && q != [] ==>
      && sub < coder.nextSymbol <= SYMBOLS
      && Chain(coder, coder.symbols[sub].parent, symbol, q[1..], value, |q|)
  {
    hide ModelOk, CodeEvents, ContextEvents, Touch, AllValid, Rep, EventsFrom, UpdateFrom;
    ghost var m := coder.model;
    AtRoot(coder, sub, link, q, value, |q| + 1);
    ChainStep(m, q, value);
    ok, found, symbol, c, out := CodeContext(coder, sub, value, link, minimum, c0, out0, outLimit);
    if ok && !found && q != [] {
      assert sub != 0 && sub != symbol;
      assert (q + [value])[1..] == q[1..] + [value];
    }
  }

  /** The encoder's contexts of one byte, from the predicted one down to the one that has the
      value or the root. */
  method EncodeByte(coder: RangeCoder, predicted0: nat, value: u8, c0: Interval, out0: seq<u8>, outLimit: nat)
    returns (ok: bool, predicted: nat, c: Interval, out: seq<u8>)
    requires predicted0 < |coder.info|
    requires Chain(coder, predicted0, -1, coder.info[predicted0].path, value, |coder.info[predicted0].path| + 1)
    requires c0.Ready() && |out0| <= outLimit
    modifies coder, coder.symbols
    ensures var es := EventsFrom(old(coder.model), old(coder.info)[predicted0].path, value);
      && AllValid(es)
      && ok == (|out0| + |CodeEvents(c0, es).bytes| <= outLimit)
      && (ok ==> Coded(c, out) == Coded(CodeEvents(c0, es).interval, out0 + CodeEvents(c0, es).bytes))
    ensures ok ==> coder.Valid() && coder.model == UpdateFrom(old(coder.model), old(coder.info)[predicted0].path, value)
    ensures ok ==> Parents(coder.symbols[..], coder.info, -1)
    ensures ok ==>
      predicted < coder.nextSymbol && coder.info[predicted].path == old(coder.info)[predicted0].path + [value]
  {
    hide ModelOk, CodeEvents, EventsFrom, UpdateFrom, Touch, AllValid, Parents, Rep, OnTrack, ContextEvents, Tails,
      Waiting;
    ghost var m0, p := coder.model, coder.info[predicted0].path;
    ChainStep(m0, p, value);
    ghost var goal := CodeEvents(c0, EventsFrom(m0, p, value));
    OnTrackStarts(c0, out0, EventsFrom(m0, p, value), outLimit);
    var sub: nat, symbol: nat, link: int, found := predicted0, 0, -1, false;
    ghost var q := p;
    predicted, c, out, ok := predicted0, c0, out0, true;
    while true
      invariant Chain(coder, sub, link, q, value, |q| + 1)
      invariant UpdateFrom(coder.model, q, value) == UpdateFrom(m0, p, value)
      invariant c.Ready() && |out| <= outLimit
        && OnTrack(goal, out0, c, out, EventsFrom(coder.model, q, value), outLimit)
      invariant if link == -1 then q == p else predicted < coder.nextSymbol && coder.info[predicted].path == p + [value]
      decreases |q|
    {
      AtRoot(coder, sub, link, q, value, |q| + 1);
      PlanRound(coder.model, q, value, goal, out0, c, out, outLimit);
      ok, found, symbol, c, out := EncodeRound(coder, sub, link, value, if sub == 0 then 1 else 0, c, out, outLimit, q);
      if !ok {
        return;
      }
      if link == -1 {
        predicted := symbol;
      }
      if found || sub == 0 {
        return;
      }
      link := symbol;
      sub := coder.symbols[sub].parent;
      q := q[1..];
    }
  }

  /** What a round of the loop does to the goal. */
  lemma PlanRound(m: Model, q: Path, v: u8, goal: Coded, out0: seq<u8>, c: Interval, out: seq<u8>, outLimit: nat)
    requires ModelOk(m) && Tails(m, q) && |q| <= 2
    requires OnTrack(goal, out0, c, out, EventsFrom(m, q, v), outLimit)
    ensures c.Ready() && q in m && |m[q].freq| == 256 && AllValid(ContextEvents(m, q, v))
    ensures var first := CodeEvents(c, ContextEvents(m, q, v));
      if |out| + |first.bytes| > outLimit then |out0| + |goal.bytes| > outLimit
      else if q == [] || m[q].freq[v] > 0 then
        first.interval == goal.interval && out + first.bytes == out0 + goal.bytes
          && UpdateFrom(m, q, v) == Touch(m, q, v)
      else
        && OnTrack(goal, out0, first.interval, out + first.bytes, EventsFrom(Touch(m, q, v), q[1..], v), outLimit)
        && UpdateFrom(m, q, v) == UpdateFrom(Touch(m, q, v), q[1..], v)
  {
    hide ModelOk, CodeEvents, EventsFrom, UpdateFrom, Touch, AllValid, OnTrack, ContextEvents, Tails;
    ChainStep(m, q, v);
    OnTrackReady(goal, out0, c, out, EventsFrom(m, q, v), outLimit);
    var es := ContextEvents(m, q, v);
    var rest := if q == [] || m[q].freq[v] > 0 then [] else EventsFrom(Touch(m, q, v), q[1..], v);
    NoEvents();
    assert es + rest == EventsFrom(m, q, v);
    OnTrackStep(goal, out0, c, out, es, rest, outLimit);
    var first := CodeEvents(c, es);
    if |out| + |first.bytes| <= outLimit && rest == [] {
      if q == [] || m[q].freq[v] > 0 {
        OnTrackEnds(goal, out0, first.interval, out + first.bytes, outLimit);
      }
    }
  }

  lemma NoEvents()
    ensures AllValid([])
  {
  }

  lemma AtRoot(coder: RangeCoder, sub: nat, link: int, q: Path, value: u8, room: nat)
    requires Chain(coder, sub, link, q, value, room)
    ensures sub == 0 <==> q == []
  {
    PathsDiffer(coder.symbols[..], coder.info, coder.model, 0, if q == [] then sub else 0);
  }

  // ---------- The encoder ----------

  /** Between two bytes: the object represents the state, with `order` bytes of context. */
  ghost predicate Represents(coder: RangeCoder, predicted: nat, order: nat, s: State)
    reads coder, coder.symbols
  {
    && coder.Valid() && Parents(coder.symbols[..], coder.info, -1)
    && predicted < coder.nextSymbol && coder.info[predicted].path == s.predicted && order == |s.predicted|
    && coder.model == s.model && StateOk(s)
  }

  /** nextInput: moves on to the context of the last two bytes, one order lower than the symbol just
      coded once there are two; starts afresh in the root when 4094 symbols are in use. */
  method NextInput(coder: RangeCoder, predicted0: nat, order0: nat, ghost s: State, ghost v: u8)
    returns (predicted: nat, order: nat)
    requires StateOk(s) && order0 == |s.predicted|
    requires coder.Valid() && Parents(coder.symbols[..], coder.info, -1)
    requires coder.model == UpdateFrom(s.model, s.predicted, v)
    requires predicted0 < coder.nextSymbol && coder.info[predicted0].path == s.predicted + [v]
    modifies coder, coder.symbols
    ensures Represents(coder, predicted, order, Step(s, v))
    ensures old(coder.nextSymbol) >= 4094 ==>
      predicted == 0 && order == 0 && coder.nextSymbol == 1 && coder.model == map[[] := Root()]
    ensures old(coder.nextSymbol) < 4094 ==>
      && coder.model == old(coder.model) && coder.info == old(coder.info) && coder.symbols[..] == old(coder.symbols[..])
      && order == (if order0 < 2 then order0 + 1 else order0)
      && predicted == (if order0 < 2 then predicted0 else old(coder.symbols[predicted0].parent))
      && coder.info[predicted].path == (if order0 < 2 then s.predicted + [v] else (s.predicted + [v])[1..])
  {
    hide ModelOk, UpdateFrom, TailClosed, Tails, Rep;
    StepOk(s, v);
    RootIsFirst(coder.symbols[..], coder.info, coder.model, predicted0);
    predicted, order := predicted0, order0;
    if order >= SUBCONTEXT_ORDER {
      predicted := coder.symbols[predicted].parent;
    } else {
      order := order + 1;
    }
    if coder.nextSymbol >= SYMBOLS - SUBCONTEXT_ORDER {
      coder.CreateRoot();
      predicted, order := 0, 0;
    }
  }

  lemma RootIsFirst(sy: seq<Symbol>, g: seq<Info>, m: Model, i: nat)
    requires Rep(sy, g, m) && i < |g| && g[i].path != []
    ensures i > 0 && |g| <= |sy| && |m| == |g|
  {
  }

  lemma ChainStarts(coder: RangeCoder, predicted: nat, order: nat, s: State, v: u8)
    requires Represents(coder, predicted, order, s)
    ensures Chain(coder, predicted, -1, s.predicted, v, |s.predicted| + 1)
  {
  }

  function Flatten(buffers: seq<seq<u8>>): (x: seq<u8>)
  {
    if buffers == [] then [] else buffers[0] + Flatten(buffers[1..])
  }

  /** The encoder's loop invariant: `out` holds the code of the text before `rest`. */
  ghost predicate Encoding(coder: RangeCoder, predicted: nat, order: nat, c: Interval, out: seq<u8>, s: State,
                           rest: seq<u8>, x: seq<u8>, outLimit: nat)
    reads coder, coder.symbols
  {
    && Represents(coder, predicted, order, s)
    && c.Ready() && |out| <= outLimit && out + Encode(c, s, rest) == Compressed(x)
  }

  /** What the buffers after the first are read as: the test for the end of a buffer comes before
      the next one is taken, so of an empty one the byte of memory beyond it is read. */
  function LaterText(buffers: seq<seq<u8>>, beyond: seq<u8>): (x: seq<u8>)
    requires |buffers| == |beyond|
  {
    if buffers == [] then []
    else (if buffers[0] == [] then [beyond[0]] else buffers[0]) + LaterText(buffers[1..], beyond[1..])
  }

  function Text(buffers: seq<seq<u8>>, beyond: seq<u8>): (x: seq<u8>)
    requires |buffers| == |beyond|
  {
    if buffers == [] then [] else buffers[0] + LaterText(buffers[1..], beyond[1..])
  }

  lemma {:induction false} LaterTextLonger(buffers: seq<seq<u8>>, beyond: seq<u8>)
    requires |buffers| == |beyond|
    ensures |LaterText(buffers, beyond)| >= |Flatten(buffers)|
    ensures |LaterText(buffers, beyond)| == |Flatten(buffers)| <==> [] !in buffers
    ensures [] !in buffers ==> LaterText(buffers, beyond) == Flatten(buffers)
    decreases |buffers|
  {
    if buffers != [] {
      LaterTextLonger(buffers[1..], beyond[1..]);
      assert [] in buffers <==> buffers[0] == [] || [] in buffers[1..];
    }
  }

  /** The text coded is the concatenation of the buffers exactly when no buffer but the first is
      empty. */
  lemma TextIsConcatenationIff(buffers: seq<seq<u8>>, beyond: seq<u8>)
    requires |buffers| == |beyond|
    ensures Text(buffers, beyond) == Flatten(buffers) <==> forall i :: 1 <= i < |buffers| ==> buffers[i] != []
  {
    if buffers == [] {
      return;
    }
    var rest := buffers[1..];
    LaterTextLonger(rest, beyond[1..]);
    assert [] in rest <==> exists i :: 1 <= i < |buffers| && buffers[i] == [] by {
      if i :| 1 <= i < |buffers| && buffers[i] == [] {
        assert rest[i - 1] == [];
      }
      if [] in rest {
        var i :| 0 <= i < |rest| && rest[i] == [];
        assert buffers[i + 1] == [];
      }
    }
    if Text(buffers, beyond) == Flatten(buffers) {
      assert |buffers[0]| + |LaterText(rest, beyond[1..])| == |buffers[0]| + |Flatten(rest)|;
    }
  }

  /** enet_range_coder_compress; beyond holds the byte of memory after each buffer. What is written are
      the events of the text: each byte in the longest context of the last two bytes that it has
      followed before. */
  method Compress(coder: RangeCoder, inBuffers: seq<seq<u8>>, beyond: seq<u8>, inLimit: nat, outLimit: nat)
    returns (out: seq<u8>)
    requires coder.symbols.Length == SYMBOLS && |beyond| == |inBuffers|
    modifies coder, coder.symbols
    ensures |inBuffers| == 0 || inLimit == 0 ==> out == []
    ensures |inBuffers| > 0 && inLimit > 0 ==>
      var x := Text(inBuffers, beyond);
      out == if |Compressed(x)| <= outLimit then Compressed(x) else []
    ensures |inBuffers| > 0 && inLimit > 0 ==>
      var x := Text(inBuffers, beyond);
      Codes(START, EventsOf(x), Compressed(x))
  {
    hide Encoding, Step, Initial, Compressed, Flush, Rep, Parents, EventsOf, Codes;
    if |inBuffers| == 0 || inLimit == 0 {
      return [];
    }
    ghost var x := Text(inBuffers, beyond);
    var data, next: nat, i: nat := inBuffers[0], 1, 0;
    ghost var s, rest := Initial(), x;
    var c, predicted: nat, order: nat, ok := START, 0, 0, true;
    out := [];
    CompressedIsText(x);
    coder.CreateRoot();
    EncodingStarts(coder, x, outLimit);
    EncodingEnds(coder, predicted, order, c, out, s, x, outLimit);
    while true
      invariant 1 <= next <= |inBuffers| && i <= |data| + 1
      invariant rest == (if i <= |data| then data[i..] else []) + LaterText(inBuffers[next..], beyond[next..])
      invariant Encoding(coder, predicted, order, c, out, s, rest, x, outLimit)
      decreases |rest|
    {
      if i >= |data| {
        if next >= |inBuffers| {
          break;
        }
        LaterNext(inBuffers, beyond, next);
        data, next, i := inBuffers[next], next + 1, 0;
      }
      var value := if i < |data| then data[i] else beyond[next - 1];
      assert rest[0] == value;
      assert rest[1..] == (if i < |data| then data[i + 1..] else []) + LaterText(inBuffers[next..], beyond[next..]);
      ok, predicted, order, c, out := CompressByte(coder, predicted, order, value, c, out, outLimit, s, rest, x);
      if !ok {
        return [];
      }
      i := i + 1;
      s, rest := Step(s, rest[0]), rest[1..];
    }
    EncodingEnds(coder, predicted, order, c, out, s, x, outLimit);
    ok, out := PutFlush(c.low, out, outLimit);
    if !ok {
      return [];
    }
  }

  lemma LaterNext(buffers: seq<seq<u8>>, beyond: seq<u8>, k: nat)
    requires k < |buffers| == |beyond|
    ensures LaterText(buffers[k..], beyond[k..])
         == (if buffers[k] == [] then [beyond[k]] else buffers[k]) + LaterText(buffers[k + 1..], beyond[k + 1..])
  {
    assert buffers[k..][1..] == buffers[k + 1..] && beyond[k..][1..] == beyond[k + 1..];
  }

  lemma EncodingStarts(coder: RangeCoder, x: seq<u8>, outLimit: nat)
    requires coder.Valid() && coder.model == map[[] := Root()] && coder.nextSymbol == 1
    requires coder.info[0].path == [] && Parents(coder.symbols[..], coder.info, -1)
    ensures Encoding(coder, 0, 0, START, [], Initial(), x, x, outLimit)
  {
    InitialOk();
    assert [] + Encode(START, Initial(), x) == Compressed(x);
  }

  lemma EncodingEnds(coder: RangeCoder, predicted: nat, order: nat, c: Interval, out: seq<u8>, s: State, x: seq<u8>,
                     outLimit: nat)
    ensures Encoding(coder, predicted, order, c, out, s, [], x, outLimit) ==>
      0 <= c.low < WORD && |out| <= outLimit && out + Flush(c.low) == Compressed(x)
  {
  }

  method CompressByte(coder: RangeCoder, predicted0: nat, order0: nat, value: u8, c0: Interval, out0: seq<u8>,
                      outLimit: nat, ghost s: State, ghost rest: seq<u8>, ghost x: seq<u8>)
    returns (ok: bool, predicted: nat, order: nat, c: Interval, out: seq<u8>)
    requires Encoding(coder, predicted0, order0, c0, out0, s, rest, x, outLimit)
    requires rest != [] && rest[0] == value
    modifies coder, coder.symbols
    ensures !ok ==> |Compressed(x)| > outLimit
    ensures ok ==> Encoding(coder, predicted, order, c, out, Step(s, value), rest[1..], x, outLimit)
  {
    hide StateOk, Compressed, Encode, Step, Chain, EventsFrom, CodeEvents, UpdateFrom, ModelOk, AllValid, Rep, Parents;
    ByteCoded(c0, s, rest, out0, x, outLimit);
    ChainStarts(coder, predicted0, order0, s, value);
    order := order0;
    ok, predicted, c, out := EncodeByte(coder, predicted0, value, c0, out0, outLimit);
    if ok {
      predicted, order := NextInput(coder, predicted, order0, s, value);
    }
  }

  lemma ByteCoded(c: Interval, s: State, rest: seq<u8>, out: seq<u8>, x: seq<u8>, outLimit: nat)
    requires c.Ready() && StateOk(s) && rest != [] && out + Encode(c, s, rest) == Compressed(x)
    ensures AllValid(EventsFrom(s.model, s.predicted, rest[0])) && StateOk(Step(s, rest[0]))
    ensures var first := CodeEvents(c, EventsFrom(s.model, s.predicted, rest[0]));
      && (|out| + |first.bytes| > outLimit ==> |Compressed(x)| > outLimit)
      && out + first.bytes + Encode(first.interval, Step(s, rest[0]), rest[1..]) == Compressed(x)
  {
    hide StateOk, Compressed, Encode, Step, EventsFrom, CodeEvents, AllValid;
    EncodeUnfolds(c, s, rest);
    var first := CodeEvents(c, EventsFrom(s.model, s.predicted, rest[0]));
    var tail := Encode(first.interval, Step(s, rest[0]), rest[1..]);
    assert out + (first.bytes + tail) == out + first.bytes + tail;
  }

  // ---------- The decoder ----------

  /** patchContexts, one round: a context above the one the symbol was found in learns it. */
  method PatchRound(coder: RangeCoder, patch: nat, link: int, value: u8, ghost q: Path, ghost room: nat)
    returns (symbol: nat)
    requires Chain(coder, patch, link, q, value, room) && q != [] && room > 0
    requires q in coder.model && |coder.model[q].freq| == 256 && coder.model[q].freq[value] == 0
    modifies coder, coder.symbols
    ensures coder.model == Touch(old(coder.model), q, value)
    ensures old(coder.info) <= coder.info && coder.Valid()
    ensures symbol < coder.nextSymbol && coder.info[symbol].path == q + [value]
    ensures patch < coder.nextSymbol <= coder.symbols.Length
      && Chain(coder, coder.symbols[patch].parent, symbol, q[1..], value, room - 1)
  {
    hide ModelOk, ContextOk, Rep, Sum, Touch, LearnedBy, LearnedFrom, Cumulative, SameParents, Tails, Parents, Waiting;
    ghost var m := coder.model;
    AtRoot(coder, patch, link, q, value, room);
    RepBounds(coder.symbols[..], coder.info, m);
    ChainTouch(m, q, value);
    var under, count;
    symbol, under, count := LookUp(coder, patch, value, link, 0);
    ghost var sy := coder.symbols[..];
    RepBounds(sy, coder.info, coder.model);
    coder.Settle(patch, value, count, 0, m);
    ParentsKept(sy, coder.symbols[..], coder.info, symbol);
    RepBounds(coder.symbols[..], coder.info, coder.model);
    ParentIs(coder.symbols[..], coder.info, symbol, patch);
    NewWaits(coder.info, symbol, q, value);
  }

  lemma ParentIs(sy: seq<Symbol>, g: seq<Info>, pending: int, i: nat)
    requires |g| <= |sy| && Parents(sy, g, pending) && 0 < i < |g| && i != pending
    ensures sy[i].parent < |g| && g[i].path != [] && g[sy[i].parent].path == g[i].path[1..]
  {
  }

  /** The symbol just created waits for its parent, one order lower. */
  lemma NewWaits(g: seq<Info>, symbol: nat, q: Path, v: u8)
    requires q != [] && symbol < |g| && g[symbol].path == q + [v] && g[0].path == []
    ensures Waiting(g, symbol, q[1..], v)
  {
    assert (q + [v])[1..] == q[1..] + [v];
  }

  lemma ChainTouch(m: Model, q: Path, v: u8)
    requires ModelOk(m) && Tails(m, q) && |q| <= 2 && q != []
    ensures q in m && |m[q].freq| == 256 && ModelOk(Touch(m, q, v)) && Tails(Touch(m, q, v), q[1..])
    ensures |Touch(m, q, v)| == |m| + if m[q].freq[v] == 0 then 1 else 0
  {
    TouchOk(m, q, v);
    TouchSize(m, q, v);
    TouchTails(m, q, q[1..], v);
  }

  /** patchContexts: from the predicted context down to the one the symbol was found in. */
  method PatchContexts(coder: RangeCoder, predicted0: nat, stop: nat, bottom: nat, value: u8, ghost p: Path,
                       ghost depth: nat) returns (predicted: nat)
    requires Chain(coder, predicted0, -1, p, value, depth)
    requires depth <= |p| && AbsentAbove(coder.model, p, depth, value)
    requires stop < coder.nextSymbol && coder.info[stop].path == Drop(p, depth)
    requires bottom < coder.nextSymbol && coder.info[bottom].path == Drop(p, depth) + [value]
    modifies coder, coder.symbols
    ensures coder.Valid() && Parents(coder.symbols[..], coder.info, -1)
    ensures coder.model == Patched(old(coder.model), p, depth, value)
    ensures predicted < coder.nextSymbol && coder.info[predicted].path == p + [value]
  {
    hide ModelOk, Rep, Touch, Patched, Tails, AbsentAbove, Drop, Parents, Waiting;
    ghost var m0, q, left: nat := coder.model, p, depth;
    var patch: nat, symbol: nat, link: int := predicted0, 0, -1;
    predicted := predicted0;
    DropsDiffer(coder.symbols[..], coder.info, m0, patch, stop, q, left);
    while patch != stop
      invariant Chain(coder, patch, link, q, value, left)
      invariant left <= |q| && Drop(p, depth) == Drop(q, left) && AbsentAbove(coder.model, q, left, value)
      invariant Patched(coder.model, q, left, value) == Patched(m0, p, depth, value)
      invariant stop < coder.nextSymbol && coder.info[stop].path == Drop(q, left) && (patch == stop <==> left == 0)
      invariant bottom < coder.nextSymbol && coder.info[bottom].path == Drop(q, left) + [value]
      invariant if link == -1 then q == p else predicted < coder.nextSymbol && coder.info[predicted].path == p + [value]
      decreases left
    {
      PatchPlan(coder.model, q, left, value);
      symbol := PatchRound(coder, patch, link, value, q, left);
      if link == -1 {
        predicted := symbol;
      }
      link := symbol;
      patch := coder.symbols[patch].parent;
      q, left := q[1..], left - 1;
      DropsDiffer(coder.symbols[..], coder.info, coder.model, patch, stop, q, left);
    }
    NothingLeft(coder.model, q, value);
    predicted := LinkLast(coder, stop, link, bottom, predicted, value, q, left);
  }

  /** The last symbol created by patchContexts hangs below the one that was found. */
  method LinkLast(coder: RangeCoder, patch: nat, link: int, bottom: nat, predicted0: nat, value: u8, ghost q: Path,
                  ghost left: nat) returns (predicted: nat)
    requires Chain(coder, patch, link, q, value, left)
    requires bottom < coder.nextSymbol && coder.info[bottom].path == q + [value]
    modifies coder, coder.symbols
    ensures coder.Valid() && Parents(coder.symbols[..], coder.info, -1)
    ensures coder.model == old(coder.model) && coder.info == old(coder.info)
      && coder.nextSymbol == old(coder.nextSymbol)
    ensures predicted == if link == -1 then bottom else predicted0
  {
    hide ModelOk, Rep, Tails;
    predicted := predicted0;
    ghost var sy := coder.symbols[..];
    RepBounds(sy, coder.info, coder.model);
    if link == -1 {
      predicted := bottom;
    } else {
      coder.StoreParent(link, bottom);
    }
    ParentsLinked(sy, coder.symbols[..], coder.info, coder.info, link, q, value, bottom);
  }

  lemma DropsDiffer(sy: seq<Symbol>, g: seq<Info>, m: Model, i: nat, j: nat, q: Path, left: nat)
    requires Rep(sy, g, m) && i < |g| && j < |g| && left <= |q| && g[i].path == q && g[j].path == Drop(q, left)
    ensures i == j <==> left == 0
  {
  }

  lemma NothingLeft(m: Model, q: Path, v: u8)
    ensures Drop(q, 0) == q && Patched(m, q, 0, v) == m
  {
  }

  lemma PatchPlan(m: Model, q: Path, left: nat, v: u8)
    requires ModelOk(m) && Tails(m, q) && |q| <= 2 && 0 < left <= |q| && AbsentAbove(m, q, left, v)
    ensures q != [] && q in m && |m[q].freq| == 256 && m[q].freq[v] == 0
    ensures Patched(m, q, left, v) == Patched(Touch(m, q, v), q[1..], left - 1, v)
    ensures Drop(q, left) == Drop(q[1..], left - 1)
    ensures ModelOk(Touch(m, q, v)) && AbsentAbove(Touch(m, q, v), q[1..], left - 1, v)
  {
    PatchedUnfolds(m, q, left, v);
    TouchAbsent(m, q, q[1..], left - 1, v);
  }

  /** The decoder is in step: while there is more text, the input from byte k on codes the
      events `es` and the rest of it; afterwards it is at the end. */
  ghost predicate InStep(input: seq<u8>, k: nat, c: Interval, es: seq<Event>, s: State, rest: seq<u8>, more: bool)
  {
    c.Ready() && if more then Follows(input, k, c, es, s, rest) else AtEnd(input, k, c)
  }

  /** The code divided by the shrunken range, as ENET_RANGE_CODER_READ computes it. */
  function ReadCode(c: Interval, code: int, total: nat): (r: int)
    requires 0 < total <= c.range
  {
    QuotientBounds(c.range, total);
    (code - c.low) / (c.range / total)
  }

  lemma ContextOkOf(m: Model, q: Path)
    requires ModelOk(m) && q in m
    ensures ContextOk(m[q], q) && |m[q].freq| == 256
  {
    hide Shape, Sum;
  }

  lemma EventsUnfold(m: Model, q: Path, v: u8)
    requires q in m && |m[q].freq| == 256 && q != []
    ensures m[q].freq[v] == 0 && 0 < m[q].escapes < m[q].total ==>
      EventsFrom(m, q, v) == [Event(0, m[q].escapes, m[q].total)] + EventsFrom(m, q[1..], v)
    ensures m[q].freq[v] == 0 && !(0 < m[q].escapes < m[q].total) ==> EventsFrom(m, q, v) == EventsFrom(m, q[1..], v)
    ensures m[q].freq[v] > 0 ==> EventsFrom(m, q, v) == [SymbolEvent(m[q], q, v)]
  {
    hide SymbolEvent;
  }

  lemma NoCounts(c: Context, q: Path, v: u8)
    requires ContextOk(c, q) && q != []
    ensures c.escapes == 0 || c.escapes >= c.total ==> c.freq[v] == 0
  {
    SumZero(c.freq, 0, 256);
    hide Sum;
  }

  lemma ContextEmpty(m: Model, q: Path, v: u8)
    requires ModelOk(m) && q in m && q != []
    ensures |m[q].freq| == 256 && m[q].total < 0x1_0000
    ensures m[q].escapes == 0 || m[q].escapes >= m[q].total ==>
      m[q].freq[v] == 0 && EventsFrom(m, q, v) == EventsFrom(m, q[1..], v)
    ensures m[q].freq[v] == 0 && 0 < m[q].escapes < m[q].total ==>
      EventsFrom(m, q, v) == [Event(0, m[q].escapes, m[q].total)] + EventsFrom(m, q[1..], v)
    ensures m[q].freq[v] > 0 ==> EventsFrom(m, q, v) == [SymbolEvent(m[q], q, v)]
  {
    hide ModelOk, EventsFrom, Sum, SymbolEvent;
    ContextOkOf(m, q);
    NoCounts(m[q], q, v);
    EventsUnfold(m, q, v);
  }

  /** What the quotient says about the next byte: an escape exactly when the context lacks
      it (or nothing follows), and otherwise a code in the byte's share. */
  lemma ReadPlan(input: seq<u8>, k: nat, c: Interval, m: Model, q: Path, v: u8, s: State, rest: seq<u8>, more: bool)
    requires ModelOk(m) && q in m && q != [] && |m[q].freq| == 256 && 0 < m[q].escapes < m[q].total < 0x1_0000
    requires InStep(input, k, c, EventsFrom(m, q, v), s, rest, more)
    ensures c.Ready() && c.low <= Window(input, k)
    ensures var r := ReadCode(c, Window(input, k), m[q].total);
      && 0 <= r < m[q].total
      && (r < m[q].escapes <==> !(more && m[q].freq[v] > 0))
      && (r >= m[q].escapes ==> Holds(m[q].freq, 0, v, r - m[q].escapes))
  {
    hide ModelOk, EventsFrom, Follows, Sum;
    ContextEmpty(m, q, v);
    if more {
      FollowsRead(input, k, c, EventsFrom(m, q, v), s, rest);
      if m[q].freq[v] > 0 {
        ShareHolds(m[q].freq, v);
      }
    } else {
      QuotientBounds(c.range, m[q].total);
      ZeroQuotient(c.range / m[q].total);
    }
  }

  lemma ZeroQuotient(q: int)
    requires q > 0
    ensures 0 / q == 0
  {
  }

  lemma ShareHolds(f: seq<nat>, v: u8)
    requires |f| == 256
    ensures Cumulative(f, 0, v + 1 as nat) == Cumulative(f, 0, v) + f[v]
  {
  }

  lemma StepEscape(input: seq<u8>, k: nat, c: Interval, m: Model, q: Path, v: u8, s: State, rest: seq<u8>, more: bool)
    requires ModelOk(m) && q in m && q != [] && |m[q].freq| == 256 && 0 < m[q].escapes < m[q].total < 0x1_0000
    requires InStep(input, k, c, EventsFrom(m, q, v), s, rest, more) && (more ==> m[q].freq[v] == 0)
    ensures var e := Event(0, m[q].escapes, m[q].total);
      && c.Ready() && e.Valid()
      && InStep(input, k + |CodeEvent(c, e).bytes|, CodeEvent(c, e).interval, EventsFrom(m, q[1..], v), s, rest, more)
  {
    hide ModelOk, EventsFrom, Follows, AtEnd, CodeEvent;
    ContextEmpty(m, q, v);
    if more {
      FollowsStep(input, k, c, EventsFrom(m, q, v), s, rest);
      assert ([Event(0, m[q].escapes, m[q].total)] + EventsFrom(m, q[1..], v))[1..] == EventsFrom(m, q[1..], v);
    } else {
      EndStep(input, k, c, Event(0, m[q].escapes, m[q].total));
    }
  }

  lemma StepSymbol(input: seq<u8>, k: nat, c: Interval, m: Model, q: Path, v: u8, s: State, rest: seq<u8>)
    requires ModelOk(m) && q in m && |m[q].freq| == 256 && (q == [] || m[q].freq[v] > 0)
    requires InStep(input, k, c, EventsFrom(m, q, v), s, rest, true)
    ensures c.Ready() && SymbolEvent(m[q], q, v).Valid()
    ensures InStep(input, k + |CodeEvent(c, SymbolEvent(m[q], q, v)).bytes|,
      CodeEvent(c, SymbolEvent(m[q], q, v)).interval, [], s, rest, true)
  {
    hide ModelOk, Follows, CodeEvent, SymbolEvent;
    assert EventsFrom(m, q, v) == [SymbolEvent(m[q], q, v)];
    FollowsStep(input, k, c, EventsFrom(m, q, v), s, rest);
    assert [SymbolEvent(m[q], q, v)][1..] == [];
  }

  /** One round of the decoder's loop over subcontexts: skips a context without symbols,
      reads an escape, or decodes and counts the symbol. */
  method TryContext(coder: RangeCoder, sub: nat, c0: Interval, code0: int, pos0: nat, input: seq<u8>,
                    ghost k0: nat, ghost q: Path, ghost v: u8, ghost s: State, ghost rest: seq<u8>, ghost more: bool)
    returns (found: bool, symbol: nat, value: u8, c: Interval, code: int, pos: nat, ghost k: nat)
    requires coder.Valid() && ModelOk(coder.model) && sub < coder.nextSymbol && coder.info[sub].path == q
    requires q in coder.model && |coder.model[q].freq| == 256 && 0 < |q| <= 2
    requires c0.Ready() && code0 == Window(input, k0) && pos0 == ReadAhead(input, k0)
    requires InStep(input, k0, c0, EventsFrom(coder.model, q, v), s, rest, more)
    modifies coder.symbols, coder`model
    ensures coder.Valid() && SameParents(old(coder.symbols[..]), coder.symbols[..], coder.nextSymbol)
    ensures c.Ready() && code == Window(input, k) && pos == ReadAhead(input, k)
    ensures found == (more && old(coder.model)[q].freq[v] > 0)
    ensures found ==>
      value == v && coder.model == Touch(old(coder.model), q, v) && InStep(input, k, c, [], s, rest, true)
    ensures found ==> symbol < coder.nextSymbol && coder.info[symbol].path == q + [v]
    ensures !found ==>
      coder.model == old(coder.model) && InStep(input, k, c, EventsFrom(coder.model, q[1..], v), s, rest, more)
  {
    hide ModelOk, ContextOk, Rep, Sum, Touch, LearnedBy, EventsFrom, InStep, Cumulative, SameParents, CodeEvent, Window,
      Holds, ReadCode, ReadAhead, SymbolEvent, LearnedFrom, Learn, Parents;
    ghost var m, sy := coder.model, coder.symbols[..];
    found, symbol, value, c, code, pos, k := false, 0, 0, c0, code0, pos0, k0;
    RepBounds(sy, coder.info, m);
    SameParentsRefl(sy, coder.nextSymbol);
    ContextFields(sy, coder.info, m, sub);
    ContextEmpty(m, q, v);
    var escapes, total := coder.symbols[sub].escapes, coder.symbols[sub].total;
    if escapes <= 0 {
      return;
    }
    if escapes >= total {
      return;
    }
    ReadPlan(input, k, c, m, q, v, s, rest, more);
    var r: u16 := ReadCode(c, code, total);
    if r < escapes {
      StepEscape(input, k, c, m, q, v, s, rest, more);
      c, code, pos, k := TakeEvent(c, Event(0, escapes, total), code, pos, input, k);
      return;
    }
    RoomOk(m, q, v);
    StepSymbol(input, k, c, m, q, v, s, rest);
    var under, count;
    found, symbol, value, under, count := coder.TryDecode(sub, r - escapes, 2, v);
    ghost var sy' := coder.symbols[..];
    SymbolEventIs(m, q, v);
    c, code, pos, k := TakeEvent(c, Event(escapes as int + under as int, count, total), code, pos, input, k);
    LearnIsLearned(m, q, v);
    coder.Settle(sub, value, count, 0, m);
    SameParentsChain(sy, sy', coder.symbols[..], coder.nextSymbol);
  }

  lemma SameParentsRefl(sy: seq<Symbol>, n: nat)
    requires n <= |sy|
    ensures SameParents(sy, sy, n)
  {
  }

  lemma SymbolEventIs(m: Model, q: Path, v: u8)
    requires q in m && |m[q].freq| == 256
    ensures SymbolEvent(m[q], q, v) == Event(m[q].escapes + Cumulative(m[q].freq, Minimum(q), v),
      m[q].freq[v] + Minimum(q), m[q].total)
  {
  }

  lemma LearnIsLearned(m: Model, q: Path, v: u8)
    requires q in m && |m[q].freq| == 256 && m[q].freq[v] > 0
    ensures Learn(m, q, v, Delta(q)) == LearnedFrom(m, q, v)
  {
  }

  /** The root: every value has a share there, so only the end of the text reads as an
      escape. */
  method TryRoot(coder: RangeCoder, c0: Interval, code0: int, pos0: nat, input: seq<u8>,
                 ghost k0: nat, ghost v: u8, ghost s: State, ghost rest: seq<u8>, ghost more: bool)
    returns (ended: bool, symbol: nat, value: u8, c: Interval, code: int, pos: nat, ghost k: nat)
    requires coder.Valid() && ModelOk(coder.model) && Parents(coder.symbols[..], coder.info, -1)
    requires coder.nextSymbol < SYMBOLS
    requires c0.Ready() && code0 == Window(input, k0) && pos0 == ReadAhead(input, k0)
    requires InStep(input, k0, c0, EventsFrom(coder.model, [], v), s, rest, more)
    modifies coder, coder.symbols
    ensures ended == !more && [] in old(coder.model) && |old(coder.model)[[]].freq| == 256
    ensures !ended ==> coder.Valid() && Parents(coder.symbols[..], coder.info, -1) && old(coder.info) <= coder.info
    ensures !ended ==> c.Ready() && code == Window(input, k) && pos == ReadAhead(input, k)
    ensures !ended ==>
      value == v && coder.model == Touch(old(coder.model), [], v) && InStep(input, k, c, [], s, rest, true)
    ensures !ended ==> symbol < coder.nextSymbol && coder.info[symbol].path == [v]
    ensures !ended ==> coder.nextSymbol <= old(coder.nextSymbol) + 1
  {
    hide ModelOk, ContextOk, Rep, Sum, Touch, LearnedBy, EventsFrom, InStep, Cumulative, SameParents, CodeEvent, Window,
      Holds, Parents;
    ghost var m, sy, g := coder.model, coder.symbols[..], coder.info;
    ended, symbol, value, c, code, pos, k := false, 0, 0, c0, code0, pos0, k0;
    RepBounds(sy, g, m);
    ContextFields(sy, g, m, 0);
    RootPlan(input, k, c, m, v, s, rest, more);
    var escapes, total := coder.symbols[0].escapes, coder.symbols[0].total;
    var r: u16 := ReadCode(c, code, total);
    if r < escapes {
      c, code, pos, k := TakeEvent(c, Event(0, escapes, total), code, pos, input, k);
      return true, symbol, value, c, code, pos, k;
    }
    RoomOk(m, [], v);
    StepSymbol(input, k, c, m, [], v, s, rest);
    LearnedSize(m, [], v);
    var under, count;
    symbol, value, under, count := coder.RootDecode(0, r - escapes, 3, v);
    ghost var sy' := coder.symbols[..];
    RepBounds(sy', coder.info, coder.model);
    SymbolEventIs(m, [], v);
    c, code, pos, k := TakeEvent(c, Event(escapes as int + under as int, count, total), code, pos, input, k);
    coder.Settle(0, value, count, 1, m);
    RepBounds(coder.symbols[..], coder.info, coder.model);
    IsNewest(sy, g, m, coder.info, [], v, symbol);
    assert [] + [v] == [v];
    RootParents(sy, sy', coder.symbols[..], g, coder.info, symbol);
  }

  lemma RootParents(sy: seq<Symbol>, sy': seq<Symbol>, sy'': seq<Symbol>, g: seq<Info>, g': seq<Info>, symbol: nat)
    requires 0 < |g| <= |sy| && Parents(sy, g, -1) && g <= g' && |g'| <= |g| + 1 && g[0].path == []
    requires |g'| <= |sy'| && |g'| <= |sy''|
    requires SameParents(sy, sy', |g|) && SameParents(sy', sy'', |g'|)
    requires |g'| > |g| ==> |g'[|g|].path| == 1 && sy'[|g|].parent == 0
    ensures Parents(sy'', g', -1)
  {
  }

  lemma RootPlan(input: seq<u8>, k: nat, c: Interval, m: Model, v: u8, s: State, rest: seq<u8>, more: bool)
    requires ModelOk(m) && [] in m && |m[[]].freq| == 256
    requires InStep(input, k, c, EventsFrom(m, [], v), s, rest, more)
    ensures c.Ready() && 0 < m[[]].escapes < m[[]].total < 0x1_0000 && c.low <= Window(input, k)
    ensures var r := ReadCode(c, Window(input, k), m[[]].total);
      && 0 <= r < m[[]].total
      && (r < m[[]].escapes <==> !more)
      && (more ==> r >= m[[]].escapes && Holds(m[[]].freq, 1, v, r - m[[]].escapes))
  {
    hide ModelOk, Follows, Sum;
    ContextOkOf(m, []);
    if more {
      assert EventsFrom(m, [], v) == [SymbolEvent(m[[]], [], v)];
      FollowsRead(input, k, c, EventsFrom(m, [], v), s, rest);
      RootShare(m[[]].freq, v);
    } else {
      QuotientBounds(c.range, m[[]].total);
      ZeroQuotient(c.range / m[[]].total);
    }
  }

  lemma RootShare(f: seq<nat>, v: u8)
    requires |f| == 256
    ensures Cumulative(f, 1, v + 1 as nat) == Cumulative(f, 1, v) + f[v] + 1
  {
  }

  /** The decoder's loop over subcontexts: down to the one the symbol is found in, or to the
      root. */
  method FindContext(coder: RangeCoder, predicted: nat, c0: Interval, code0: int, pos0: nat, input: seq<u8>,
                     ghost k0: nat, ghost p: Path, ghost v: u8, ghost s: State, ghost rest: seq<u8>, ghost more: bool)
    returns (found: bool, sub: nat, symbol: nat, value: u8, c: Interval, code: int, pos: nat, ghost k: nat,
      ghost depth: nat)
    requires Chain(coder, predicted, -1, p, v, |p| + 1)
    requires c0.Ready() && code0 == Window(input, k0) && pos0 == ReadAhead(input, k0)
    requires InStep(input, k0, c0, EventsFrom(coder.model, p, v), s, rest, more)
    modifies coder.symbols, coder`model
    ensures coder.Valid() && Parents(coder.symbols[..], coder.info, -1)
    ensures c.Ready() && code == Window(input, k) && pos == ReadAhead(input, k)
    ensures depth <= |p| && sub < coder.nextSymbol && coder.info[sub].path == Drop(p, depth)
    ensures more ==> AbsentAbove(old(coder.model), p, depth, v)
    ensures found ==>
      && more && value == v && Present(old(coder.model), Drop(p, depth), v)
      && coder.model == Touch(old(coder.model), Drop(p, depth), v)
      && symbol < coder.nextSymbol && coder.info[symbol].path == Drop(p, depth) + [v]
      && InStep(input, k, c, [], s, rest, true)
    ensures !found ==>
      && sub == 0 && depth == |p| && coder.model == old(coder.model)
      && InStep(input, k, c, EventsFrom(coder.model, [], v), s, rest, more)
  {
    hide ModelOk, Rep, Touch, Tails, AbsentAbove, Drop, Parents, InStep, EventsFrom, SameParents, Window;
    ghost var m := coder.model;
    found, sub, symbol, value, c, code, pos, k, depth := false, predicted, 0, 0, c0, code0, pos0, k0, 0;
    NoneSkipped(m, p, v);
    while sub != 0
      invariant depth <= |p| && Chain(coder, sub, -1, Drop(p, depth), v, |p| + 1) && coder.model == m
      invariant c.Ready() && code == Window(input, k) && pos == ReadAhead(input, k)
      invariant more ==> AbsentAbove(m, p, depth, v)
      invariant InStep(input, k, c, EventsFrom(m, Drop(p, depth), v), s, rest, more)
      decreases |Drop(p, depth)|
    {
      ghost var q := Drop(p, depth);
      AtRoot(coder, sub, -1, q, v, |p| + 1);
      ChainNext(coder, sub, q, v, |p| + 1);
      ghost var sy := coder.symbols[..];
      found, symbol, value, c, code, pos, k := TryContext(coder, sub, c, code, pos, input, k, q, v, s, rest, more);
      RepBounds(coder.symbols[..], coder.info, coder.model);
      ParentsKept(sy, coder.symbols[..], coder.info, -1);
      if found {
        PresentIs(m, q, v);
        return;
      }
      ParentPath(coder.symbols[..], coder.info, sub);
      sub := coder.symbols[sub].parent;
      DropStep(p, depth);
      if more {
        AbsentStep(m, p, depth, v);
      }
      depth := depth + 1;
    }
    AtRoot(coder, sub, -1, Drop(p, depth), v, |p| + 1);
  }

  lemma NoneSkipped(m: Model, p: Path, v: u8)
    ensures Drop(p, 0) == p && AbsentAbove(m, p, 0, v)
  {
  }

  lemma PresentIs(m: Model, q: Path, v: u8)
    requires q in m && |m[q].freq| == 256 && m[q].freq[v] > 0
    ensures Present(m, q, v)
  {
  }

  lemma ChainNext(coder: RangeCoder, sub: nat, q: Path, v: u8, room: nat)
    requires Chain(coder, sub, -1, q, v, room) && q != []
    ensures q in coder.model && |coder.model[q].freq| == 256 && Tails(coder.model, q[1..])
  {
  }

  lemma ParentPath(sy: seq<Symbol>, g: seq<Info>, i: nat)
    requires |g| <= |sy| && 0 < i < |g| && Parents(sy, g, -1)
    ensures sy[i].parent < |g| && g[i].path != [] && g[sy[i].parent].path == g[i].path[1..]
  {
  }

  datatype Outcome = Ended | Decoded

  /** One turn of the decoder's outer loop up to the output of the byte. */
  method DecodeByte(coder: RangeCoder, predicted0: nat, c0: Interval, code0: int, pos0: nat, input: seq<u8>,
                    ghost k0: nat, ghost p: Path, ghost v: u8, ghost s: State, ghost rest: seq<u8>, ghost more: bool)
    returns (outcome: Outcome, predicted: nat, value: u8, c: Interval, code: int, pos: nat, ghost k: nat)
    requires Chain(coder, predicted0, -1, p, v, |p| + 1)
    requires c0.Ready() && code0 == Window(input, k0) && pos0 == ReadAhead(input, k0)
    requires InStep(input, k0, c0, EventsFrom(coder.model, p, v), s, rest, more)
    modifies coder, coder.symbols
    ensures outcome == if more then Decoded else Ended
    ensures more ==> coder.Valid() && Parents(coder.symbols[..], coder.info, -1)
    ensures more ==> value == v && coder.model == UpdateFrom(old(coder.model), p, v)
    ensures more ==> predicted < coder.nextSymbol && coder.info[predicted].path == p + [v]
    ensures more ==>
      c.Ready() && code == Window(input, k) && pos == ReadAhead(input, k) && InStep(input, k, c, [], s, rest, true)
  {
    hide ModelOk, Rep, Touch, Tails, AbsentAbove, Drop, Parents, InStep, EventsFrom, SameParents, Window, UpdateFrom,
      Patched, Present;
    ghost var m, depth := coder.model, 0;
    var found, sub, bottom;
    predicted := predicted0;
    ChainOpened(coder, predicted0, p, v);
    found, sub, bottom, value, c, code, pos, k, depth := FindContext(coder, predicted0, c0, code0, pos0, input, k0, p,
      v, s, rest, more);
    if !found {
      AtTheRoot(p);
      var ended;
      ended, bottom, value, c, code, pos, k := TryRoot(coder, c, code, pos, input, k, v, s, rest, more);
      if ended {
        return Ended, predicted, value, c, code, pos, k;
      }
    }
    FoundFacts(m, p, depth, v);
    RepBounds(coder.symbols[..], coder.info, coder.model);
    predicted := PatchContexts(coder, predicted0, sub, bottom, value, p, depth);
    outcome := Decoded;
  }

  lemma AtTheRoot(p: Path)
    ensures Drop(p, |p|) == [] && forall v: u8 :: Drop(p, |p|) + [v] == [v]
  {
  }

  lemma ChainOpened(coder: RangeCoder, predicted: nat, p: Path, v: u8)
    requires Chain(coder, predicted, -1, p, v, |p| + 1)
    ensures ModelOk(coder.model) && Tails(coder.model, p) && |p| <= 2 && coder.nextSymbol + |p| + 1 <= SYMBOLS
  {
  }

  /** After the context the symbol was found in has been updated, the contexts above it are
      as before, and patching them completes the encoder's update. */
  lemma FoundFacts(m: Model, p: Path, depth: nat, v: u8)
    requires ModelOk(m) && Tails(m, p) && |p| <= 2 && depth <= |p|
    requires AbsentAbove(m, p, depth, v) && (depth == |p| || Present(m, Drop(p, depth), v))
    ensures Drop(p, depth) in m && |m[Drop(p, depth)].freq| == 256
    ensures ModelOk(Touch(m, Drop(p, depth), v)) && Tails(Touch(m, Drop(p, depth), v), p)
    ensures AbsentAbove(Touch(m, Drop(p, depth), v), p, depth, v)
    ensures Patched(Touch(m, Drop(p, depth), v), p, depth, v) == UpdateFrom(m, p, v)
    ensures Present(m, Drop(p, depth), v) ==> |Touch(m, Drop(p, depth), v)| == |m|
  {
    DecoderOrderAgrees(m, p, depth, v);
    TouchOk(m, Drop(p, depth), v);
    TouchSize(m, Drop(p, depth), v);
    TouchKeepsTails(m, Drop(p, depth), p, v);
    AbsentBelow(m, p, depth, Drop(p, depth), v);
  }

  lemma {:induction false} TouchKeepsTails(m: Model, q: Path, p: Path, v: u8)
    requires ModelOk(m) && q in m && |q| <= 2 && Tails(m, p)
    ensures Tails(Touch(m, q, v), p)
    decreases |p|
  {
    hide Touched, ModelOk;
    if p != [] {
      TouchKeepsTails(m, q, p[1..], v);
    }
  }

  lemma {:induction false} AbsentBelow(m: Model, p: Path, depth: nat, q: Path, v: u8)
    requires ModelOk(m) && q in m && |q| <= 2 && |p| <= 2 && Tails(m, p) && depth <= |p| && |q| <= |p| - depth
    requires AbsentAbove(m, p, depth, v)
    ensures AbsentAbove(Touch(m, q, v), p, depth, v)
    decreases depth
  {
    if depth > 0 {
      AbsentBelow(m, p[1..], depth - 1, q, v);
      TouchSpares(m, q, p, v);
    }
  }

  /** Touching a lower context leaves a higher one as it is. */
  lemma TouchSpares(m: Model, q: Path, p: Path, v: u8)
    requires ModelOk(m) && q in m && p in m && |q| < |p| <= 2
    ensures p in Touch(m, q, v) && Touch(m, q, v)[p] == m[p]
  {
    assert SymbolOk(m, q, v);
    hide Touched;
  }

  /** enet_range_coder_decompress, on what Compress writes: it gives back the text, or
      nothing when the text does not fit. */
  method Decompress(coder: RangeCoder, input: seq<u8>, outLimit: nat, ghost x: seq<u8>) returns (out: seq<u8>)
    requires coder.symbols.Length == SYMBOLS
    requires input == Compressed(x)
    modifies coder, coder.symbols
    ensures out == if |x| <= outLimit then x else []
  {
    hide Represents, StateOk, Follows, Step, Initial, Chain, InStep, AtEnd, Window, Compressed, EventsFrom, UpdateFrom,
      ModelOk, Rep, Parents;
    CompressedIsEmptyOnlyForEmpty(x);
    if |input| <= 0 {
      return [];
    }
    ghost var s, rest := Initial(), x;
    var c, predicted: nat, order: nat := START, 0, 0;
    coder.CreateRoot();
    var code, pos := Seed(input);
    ghost var k: nat := 0;
    DecodingStarts(coder, input, x);
    out := [];
    while true
      invariant Represents(coder, predicted, order, s) && Follows(input, k, c, [], s, rest)
      invariant c.Ready() && code == Window(input, k) && pos == ReadAhead(input, k)
      invariant x == out + rest && |out| <= outLimit
      decreases |rest|
    {
      ghost var more, v := rest != [], if rest != [] then rest[0] else 0;
      ghost var after := if rest != [] then rest[1..] else [];
      NextIsInStep(coder, predicted, order, input, k, c, s, rest, v, after);
      var outcome, value;
      outcome, predicted, value, c, code, pos, k := DecodeByte(coder, predicted, c, code, pos, input, k, s.predicted, v,
        Step(s, v), after, more);
      if outcome == Ended {
        break;
      }
      InStepFollows(input, k, c, [], Step(s, v), after);
      if |out| >= outLimit {
        return [];
      }
      out := out + [value];
      predicted, order := NextInput(coder, predicted, order, s, v);
      s, rest := Step(s, v), after;
    }
  }

  lemma DecodingStarts(coder: RangeCoder, input: seq<u8>, x: seq<u8>)
    requires coder.Valid() && coder.model == map[[] := Root()] && coder.nextSymbol == 1
    requires coder.info[0].path == [] && Parents(coder.symbols[..], coder.info, -1)
    requires input == Compressed(x)
    ensures START.Ready() && Represents(coder, 0, 0, Initial()) && Follows(input, 0, START, [], Initial(), x)
  {
    InitialOk();
    assert input[0..] == input == [] + input;
  }

  lemma NextIsInStep(coder: RangeCoder, predicted: nat, order: nat, input: seq<u8>, k: nat, c: Interval, s: State,
                     rest: seq<u8>, v: u8, after: seq<u8>)
    requires Represents(coder, predicted, order, s) && Follows(input, k, c, [], s, rest)
    requires rest != [] ==> v == rest[0] && after == rest[1..]
    ensures StateOk(s) && coder.model == s.model && order == |s.predicted|
    ensures Chain(coder, predicted, -1, s.predicted, v, |s.predicted| + 1)
    ensures InStep(input, k, c, EventsFrom(coder.model, s.predicted, v), Step(s, v), after, rest != [])
  {
    hide StateOk, Step, EventsFrom;
    ChainStarts(coder, predicted, order, s, v);
    FollowsNext(input, k, c, s, rest);
  }

  lemma InStepFollows(input: seq<u8>, k: nat, c: Interval, es: seq<Event>, s: State, rest: seq<u8>)
    requires InStep(input, k, c, es, s, rest, true)
    ensures Follows(input, k, c, es, s, rest)
  {
  }

  /** decompress after compress: whatever was written comes back as the text that was read from
      the buffers, with any two coder objects; that is their concatenation unless a later buffer
      is empty. */
  method RoundTrip(encoder: RangeCoder, decoder: RangeCoder, inBuffers: seq<seq<u8>>, beyond: seq<u8>, inLimit: nat,
                   outLimit: nat, room: nat) returns (packed: seq<u8>, text: seq<u8>)
    requires |inBuffers| == |beyond| && room >= |Text(inBuffers, beyond)|
    requires encoder.symbols.Length == SYMBOLS && decoder.symbols.Length == SYMBOLS
    modifies encoder, encoder.symbols, decoder, decoder.symbols
    ensures packed != [] ==> text == Text(inBuffers, beyond)
    ensures packed != [] && (forall i :: 1 <= i < |inBuffers| ==> inBuffers[i] != []) ==> text == Flatten(inBuffers)
  {
    packed := Compress(encoder, inBuffers, beyond, inLimit, outLimit);
    text := [];
    if packed != [] {
      text := Decompress(decoder, packed, room, Text(inBuffers, beyond));
      TextIsConcatenationIff(inBuffers, beyond);
    }
  }
}
