/** enet_range_coder_decompress of toxtun/compress.c on any bytes at all, in wrapping words: it
    ends, stays inside the symbol table, never divides by zero and never writes past the output. */
module SafeDecoder {
  import opened Words
  import opened RangeInterval
  import opened SymbolForest
  import F = FrequencyModel
  import S = SymbolTree
  import Compressor

  // ---------- The code ----------

  /** A round of the renormalisation loop, in words. */
  function Round(c: Interval): (r: Interval)
  {
    Interval((Trimmed(c).low % TOP) * 256, (Trimmed(c).range * 256) % WORD)
  }

  predicate InWords(c: Interval)
  {
    0 <= c.low < WORD && 0 < c.range < WORD
  }

  /** Intervals that wrap around the end of the word come first, then those that do not. */
  function Phase(c: Interval): (n: nat)
  {
    if c.Sound() then 0 else if c.SameTop() then 2 else 1
  }

  function RoundsLeft(c: Interval): (n: nat)
    requires InWords(c)
  {
    if c.Sound() then Rounds(c) else c.range
  }

  /** The loop ends whatever the interval is. */
  lemma RoundEnds(c: Interval)
    requires InWords(c) && (c.SameTop() || c.range < BOTTOM)
    ensures InWords(Round(c))
    ensures Phase(Round(c)) < Phase(c) || (Phase(Round(c)) == Phase(c) && RoundsLeft(Round(c)) < RoundsLeft(c))
  {
    if c.Sound() {
      ShiftRound(c);
      SoundStays(c);
    } else if c.SameTop() {
      WrapsOn(c);
    } else {
      WrapEnds(c);
    }
  }

  lemma SoundStays(c: Interval)
    requires InWords(c) && Shifted(Trimmed(c)).Sound()
    ensures Round(c) == Shifted(Trimmed(c)) && InWords(Round(c))
  {
  }

  /** An interval that wraps, with both ends in one byte. */
  lemma WrapsOn(c: Interval)
    requires InWords(c) && !c.Sound() && c.SameTop()
    ensures InWords(Round(c)) && Round(c).range < c.range && Round(c).low + Round(c).range >= WORD
  {
    var e := c.low + c.range - WORD;
    var gap := WORD - c.range;
    assert (c.low + c.range) % WORD == e;
    assert c.low / TOP == e / TOP;
    assert c.low % TOP - e % TOP == gap;
    assert c.range * 256 == 255 * WORD + (WORD - 256 * gap);
  }

  /** A short interval that wraps ends at the end of the word. */
  lemma WrapEnds(c: Interval)
    requires InWords(c) && !c.Sound() && !c.SameTop() && c.range < BOTTOM
    ensures InWords(Round(c)) && Round(c).Sound()
  {
    assert c.low + c.range > WORD;
    assert c.low >= WORD - BOTTOM && c.low / BOTTOM == 0xFFFF && c.low / TOP == 0xFF;
    assert Truncated(c).range == WORD - c.low;
  }

  /** ENET_RANGE_CODER_DECODE, after the range was divided by the total. */
  method TakeEvent(c0: Interval, under: nat, count: nat, code0: u32, pos0: nat, input: seq<u8>)
    returns (c: Interval, code: u32, pos: nat)
    requires InWords(c0) && count > 0 && c0.range * count < WORD
    ensures InWords(c) && c.range >= BOTTOM && !c.SameTop()
  {
    assert c0.range * count >= 1 by {
      Positive(c0.range, count);
    }
    c, code, pos := Interval((c0.low + under * c0.range) % WORD, c0.range * count), code0, pos0;
    while true
      invariant InWords(c)
      decreases Phase(c), RoundsLeft(c)
    {
      if !c.SameTop() {
        if c.range >= BOTTOM {
          return;
        }
      }
      RoundEnds(c);
      code := (code % TOP) * 256;
      if pos < |input| {
        code, pos := code + input[pos], pos + 1;
      }
      c := Round(c);
    }
  }

  lemma Positive(a: int, b: int)
    requires a > 0 && b > 0
    ensures a * b >= 1
  {
  }

  /** A share of the total is no longer than the interval. */
  lemma ShareFits(range: int, total: int, count: int)
    requires 0 < count <= total <= range < WORD
    ensures 0 < range / total <= range && (range / total) * count <= range
  {
    QuotientBounds(range, total);
    TimesMono(range / total, count, total);
    TimesMono(range / total, 1, total);
  }

  lemma TimesMono(q: int, a: int, b: int)
    requires q >= 0 && a <= b
    ensures q * a <= q * b
  {
  }

  // ---------- The symbols ----------

  class Decoder {
    const symbols: array<S.Symbol>
    var nextSymbol: nat
    ghost var trees: Trees
    ghost var depth: seq<nat>

    /** Between two updates. */
    ghost predicate Valid()
      reads this, symbols
    {
      Settled(symbols[..], nextSymbol, trees, depth)
    }

    constructor ()
      ensures fresh(symbols) && symbols.Length == SYMBOLS
    {
      symbols := new S.Symbol[SYMBOLS](_ => S.Fresh(0, 0));
      nextSymbol, trees, depth := 0, [], [];
    }

    /** nextSymbol = 0 and ENET_CONTEXT_CREATE of the root. */
    method CreateRoot()
      requires symbols.Length == SYMBOLS
      modifies this, symbols
      ensures Valid() && nextSymbol == 1 && depth == [0]
    {
      symbols[0] := S.Fresh(0, 0).(escapes := 1, total := 257);
      nextSymbol, trees, depth := 1, [Leaf], [0];
      RootForest(symbols[..]);
    }

    /** A walk ends where a child is missing: a new symbol is created and hung there. */
    method Hang(c: nat, node: nat, onLeft: bool, value: u8, update: u8, ghost was: Symbols) returns (symbol: nat)
      requires Settled(was, nextSymbol, trees, depth) && c < nextSymbol < SYMBOLS && depth[c] <= 2
      requires update == Delta(c) && symbols.Length == SYMBOLS && Walking(was, symbols[..], trees[c], node, update)
      requires if onLeft then symbols[node].left == 0 else symbols[node].right == 0
      modifies this, symbols
      ensures Learnt(was, old(nextSymbol), old(trees), old(depth),
                     symbols[..], nextSymbol, trees, depth, c, symbol, update)
      ensures symbol == old(nextSymbol) && nextSymbol == old(nextSymbol) + 1 && symbols[symbol].value == value
    {
      hide Linked, Counts, Inside, Apart, Indices, Settled, Forest, Walking, Learnt, Hung, Grown;
      SettledBounds(was, nextSymbol, trees, depth);
      WalkBounds(was, symbols[..], trees[c], node, update);
      ghost var sy, t := symbols[..], trees[c];
      HangsWell(was, sy, nextSymbol, trees, depth, c, node, update, onLeft, value);
      symbol := nextSymbol;
      symbols[symbol] := S.Fresh(value, update);
      nextSymbol := nextSymbol + 1;
      if onLeft {
        symbols[node] := symbols[node].(under := symbols[node].under + update, left := symbol - node);
      } else {
        symbols[node] := symbols[node].(right := symbol - node);
      }
      assert symbols[..] == HangAt(sy, node, update, onLeft, symbol, value);
      trees := trees[c := Hung(t, node, onLeft, symbol)] + [Leaf];
      depth := depth + [depth[c] + 1];
    }

    /** The first symbol of a context. */
    method First(c: nat, value: u8, update: u8) returns (symbol: nat)
      requires Valid() && c < nextSymbol < SYMBOLS && depth[c] <= 2 && update == Delta(c) && symbols.Length == SYMBOLS
      requires symbols[c].symbols == 0
      modifies this, symbols
      ensures Learnt(old(symbols[..]), old(nextSymbol), old(trees), old(depth),
                     symbols[..], nextSymbol, trees, depth, c, symbol, update)
      ensures symbol == old(nextSymbol) && nextSymbol == old(nextSymbol) + 1 && symbols[symbol].value == value
    {
      hide Linked, Counts, Inside, Apart, Indices, Settled, Forest, Learnt, Grown;
      SettledBounds(symbols[..], nextSymbol, trees, depth);
      ghost var sy := symbols[..];
      FirstFits(sy, nextSymbol, trees, depth, c, value);
      symbol := nextSymbol;
      symbols[symbol] := S.Fresh(value, update);
      nextSymbol := nextSymbol + 1;
      symbols[c] := symbols[c].(symbols := symbol - c);
      assert symbols[..] == FirstAt(sy, c, symbol, value);
      trees := trees[c := Node(Leaf, symbol, Leaf)] + [Leaf];
      depth := depth + [depth[c] + 1];
    }

    /** A walk ends at a symbol, which is counted. */
    method Count(c: nat, node: nat, update: u8, ghost was: Symbols)
      requires Settled(was, nextSymbol, trees, depth) && c < nextSymbol
      requires update == Delta(c) && symbols.Length == SYMBOLS && Walking(was, symbols[..], trees[c], node, update)
      modifies symbols
      ensures Learnt(was, nextSymbol, trees, depth, symbols[..], nextSymbol, trees, depth, c, node, update)
      ensures node < SYMBOLS && symbols[node].value == was[node].value
    {
      hide Linked, Counts, Inside, Apart, Indices, Settled, Forest, Walking, Learnt;
      ghost var sy := symbols[..];
      CountsWell(was, sy, nextSymbol, trees, depth, c, node, update);
      SettledBounds(was, nextSymbol, trees, depth);
      Unchanged(was, sy, trees[c], node, update);
      symbols[node] := symbols[node].(under := symbols[node].under + update, count := symbols[node].count + update);
      assert symbols[..] == Bumped(sy, node, update);
    }

    /** The walk of ENET_CONTEXT_ENCODE: stops at the value, or where the child on its side is
        missing. */
    method Descend(c: nat, value: u8, update: u8) returns (node: nat)
      requires Valid() && c < nextSymbol && symbols.Length == SYMBOLS && symbols[c].symbols != 0 && update == Delta(c)
      modifies symbols
      ensures Settled(old(symbols[..]), nextSymbol, trees, depth) && c < |trees|
      ensures Walking(old(symbols[..]), symbols[..], trees[c], node, update) && node < SYMBOLS
      ensures value < symbols[node].value ==> symbols[node].left == 0
      ensures value > symbols[node].value ==> symbols[node].right == 0
    {
      hide Linked, Counts, Inside, Apart, Indices, Settled, Forest, Walking;
      ghost var was, t := symbols[..], WalkFrom(symbols[..], nextSymbol, trees, depth, c, update);
      node := c + symbols[c].symbols;
      while true
        invariant Walking(was, symbols[..], t, node, update) && node < SYMBOLS
        decreases SYMBOLS - node
      {
        ghost var sy := symbols[..];
        Sums(was, sy, nextSymbol, trees, depth, c, node, update);
        if value < symbols[node].value && symbols[node].left != 0 {
          symbols[node] := symbols[node].(under := symbols[node].under + update);
          assert symbols[..] == sy[node := sy[node].(under := sy[node].under + update)];
          StepLeft(was, sy, symbols[..], t, node, update);
          node := node + symbols[node].left;
        } else if value > symbols[node].value && symbols[node].right != 0 {
          StepRight(was, sy, t, node, update);
          node := node + symbols[node].right;
        } else {
          return;
        }
      }
    }

    /** ENET_CONTEXT_ENCODE as the decoder uses it, without a minimum. */
    method Encode(c: nat, value: u8) returns (symbol: nat, count: u16)
      requires Valid() && 0 < c < nextSymbol < SYMBOLS && symbols.Length == SYMBOLS && c < |depth| && depth[c] <= 2
      modifies this, symbols
      ensures Learnt(old(symbols[..]), old(nextSymbol), old(trees), old(depth),
                     symbols[..], nextSymbol, trees, depth, c, symbol, 2)
      ensures symbol < SYMBOLS && symbols[symbol].count == count + 2 && symbols[symbol].value == value
    {
      hide Linked, Counts, Inside, Apart, Indices, Settled, Forest, Walking;
      ghost var was := symbols[..];
      SettledBounds(was, nextSymbol, trees, depth);
      count := 0;
      if symbols[c].symbols == 0 {
        symbol := First(c, value, 2);
        return;
      }
      var node := Descend(c, value, 2);
      WalkBounds(was, symbols[..], trees[c], node, 2);
      if value < symbols[node].value {
        symbol := Hang(c, node, true, value, 2, was);
      } else if value > symbols[node].value {
        symbol := Hang(c, node, false, value, 2, was);
      } else {
        Unchanged(was, symbols[..], trees[c], node, 2);
        count := symbols[node].count;
        Count(c, node, 2, was);
        symbol := node;
      }
    }

    /** The walk of ENET_CONTEXT_DECODE, in 16-bit sums: stops where the code lies in the share of
        the node, or where the child on its side is missing. */
    method DescendCode(c: nat, code: u16, update: u8) returns (node: nat, after: u16, before: u16)
      requires Valid() && c < nextSymbol && symbols.Length == SYMBOLS && symbols[c].symbols != 0 && update == Delta(c)
      modifies symbols
      ensures Settled(old(symbols[..]), nextSymbol, trees, depth) && c < |trees|
      ensures Walking(old(symbols[..]), symbols[..], trees[c], node, update) && node < SYMBOLS
      ensures before == symbols[node].count + Least(c)
      ensures code >= after ==> symbols[node].right == 0
      ensures code < after - before ==> symbols[node].left == 0
    {
      hide Linked, Counts, Inside, Apart, Indices, Settled, Forest, Walking;
      ghost var was, t := symbols[..], WalkFrom(symbols[..], nextSymbol, trees, depth, c, update);
      node := c + symbols[c].symbols;
      var under: u16 := 0;
      while true
        invariant Walking(was, symbols[..], t, node, update) && node < SYMBOLS
        decreases SYMBOLS - node
      {
        ghost var sy := symbols[..];
        Sums(was, sy, nextSymbol, trees, depth, c, node, update);
        after := (under + symbols[node].under + (symbols[node].value + 1) * Least(c)) % 0x1_0000;
        before := symbols[node].count + Least(c);
        if code >= after && symbols[node].right != 0 {
          under := (under + symbols[node].under) % 0x1_0000;
          StepRight(was, sy, t, node, update);
          node := node + symbols[node].right;
        } else if code < after - before && symbols[node].left != 0 {
          symbols[node] := symbols[node].(under := symbols[node].under + update);
          assert symbols[..] == sy[node := sy[node].(under := sy[node].under + update)];
          StepLeft(was, sy, symbols[..], t, node, update);
          node := node + symbols[node].left;
        } else {
          return;
        }
      }
    }

    /** ENET_CONTEXT_TRY_DECODE. */
    method TryDecode(c: nat, code: u16) returns (ok: bool, symbol: nat, value: u8, under: u16, count: u16)
      requires Valid() && 0 < c < nextSymbol && symbols.Length == SYMBOLS && c < |depth| && depth[c] <= 2
      modifies symbols
      ensures ok ==>
        Learnt(old(symbols[..]), nextSymbol, trees, depth, symbols[..], nextSymbol, trees, depth, c, symbol, 2)
      ensures ok ==> symbol < SYMBOLS && symbols[symbol].count == count + 2 && count > 0
      ensures ok ==> symbols[symbol].value == value
    {
      hide Linked, Counts, Inside, Apart, Indices, Settled, Forest, Walking;
      ghost var was := symbols[..];
      SettledBounds(was, nextSymbol, trees, depth);
      ok, symbol, value, under, count := false, 0, 0, 0, 0;
      if symbols[c].symbols == 0 {
        return;
      }
      var node, after, before := DescendCode(c, code, 2);
      if code >= after || code < after as int - before {
        return;
      }
      WalkBounds(was, symbols[..], trees[c], node, 2);
      Unchanged(was, symbols[..], trees[c], node, 2);
      Known(was, nextSymbol, trees, depth, c, node);
      ok, value, count, under := true, symbols[node].value, symbols[node].count, (after as int - before) % 0x1_0000;
      Count(c, node, 2, was);
      symbol := node;
    }

    /** ENET_CONTEXT_ROOT_DECODE: the value is found, or computed from its neighbour, cut to a
        byte, and created. */
    method RootDecode(code: u16) returns (symbol: nat, value: u8, under: u16, count: u16)
      requires Valid() && nextSymbol < SYMBOLS && symbols.Length == SYMBOLS
      modifies this, symbols
      ensures Learnt(old(symbols[..]), old(nextSymbol), old(trees), old(depth),
                     symbols[..], nextSymbol, trees, depth, 0, symbol, 3)
      ensures symbol < SYMBOLS && symbols[symbol].count == count - 1 + 3 && count > 0 && symbols[symbol].value == value
    {
      hide Linked, Counts, Inside, Apart, Indices, Settled, Forest, Walking;
      ghost var was := symbols[..];
      SettledBounds(was, nextSymbol, trees, depth);
      count := 1;
      if symbols[0].symbols == 0 {
        value, under := code % 0x100, code;
        symbol := First(0, value, 3);
        return;
      }
      var node, after, before := DescendCode(0, code, 3);
      WalkBounds(was, symbols[..], trees[0], node, 3);
      if code >= after {
        value, under := (symbols[node].value + 1 + (code - after)) % 0x100, code;
        symbol := Hang(0, node, false, value, 3, was);
      } else if code < after - before {
        value, under := (symbols[node].value - 1 - (after - before - code - 1)) % 0x100, code;
        symbol := Hang(0, node, true, value, 3, was);
      } else {
        Unchanged(was, symbols[..], trees[0], node, 3);
        Known(was, nextSymbol, trees, depth, 0, node);
        value, count, under := symbols[node].value, 1 + symbols[node].count, (after as int - before) % 0x1_0000;
        Count(0, node, 3, was);
        symbol := node;
      }
    }

    /** enet_symbol_rescale: halves the counts of the tree t and returns their sum. */
    method RescaleSymbols(first: nat, ghost t: Tree) returns (total: u16)
      requires symbols.Length == SYMBOLS && t.Node? && t.index == first
      requires Inside(t, SYMBOLS) && Apart(t) && Linked(symbols[..], t, 0, 0) && Counts(symbols[..], t) < 0x1_0000
      modifies symbols
      ensures Halved(old(symbols[..]), symbols[..], t) && Linked(symbols[..], t, 0, 0)
      ensures total == Counts(symbols[..], t)
      decreases Size(t), 1
    {
      hide Linked, Counts, Inside, Apart, Indices, HalfWay, Done, Halved, Size;
      ghost var was, rest := symbols[..], t;
      var symbol := first;
      total := 0;
      HalfWayStarts(was, t);
      while true
        invariant rest.Node? && symbol == rest.index && Size(rest) <= Size(t)
        invariant HalfWay(was, symbols[..], t, rest) && OutsideSame(was, symbols[..], t)
        invariant total == Done(symbols[..], t, rest)
        decreases Size(rest)
      {
        ghost var sy := symbols[..];
        RestInside(was, sy, t, rest);
        RestLinked(was, sy, rest);
        HalfWayBound(was, sy, t, rest);
        total := RescaleNode(symbol, total, rest);
        OutsideStays(was, sy, symbols[..], t, rest);
        HalfWaySince(was, sy, symbols[..], rest);
        HalfWayOn(was, sy, symbols[..], t, rest);
        RightLink(was, symbols[..], rest);
        if symbols[symbol].right == 0 {
          HalvedAll(was, symbols[..], t);
          return;
        }
        symbol := symbol + symbols[symbol].right;
        rest := rest.right;
      }
    }

    /** One round of the loop: a node and, recursively, its left part. */
    method RescaleNode(symbol: nat, before: u16, ghost t: Tree) returns (total: u16)
      requires symbols.Length == SYMBOLS && t.Node? && symbol == t.index
      requires Inside(t, SYMBOLS) && Apart(t) && Linked(symbols[..], t, 0, 0)
      requires before + Counts(symbols[..], t) < 0x1_0000
      modifies symbols
      ensures symbol < SYMBOLS && HalfWay(old(symbols[..]), symbols[..], t, t.right)
      ensures forall j :: 0 <= j < SYMBOLS && j != symbol && j !in Indices(t.left) ==> symbols[j] == old(symbols[j])
      ensures total == before + symbols[symbol].under
      decreases Size(t), 0
    {
      hide Linked, Counts, Inside, Apart, Indices, HalfWay, Size;
      ghost var was := symbols[..];
      Unfold(was, t, 0, 0);
      ApartNode(t);
      SmallerParts(t);
      symbols[symbol] := symbols[symbol].(count := symbols[symbol].count - symbols[symbol].count / 2);
      symbols[symbol] := symbols[symbol].(under := symbols[symbol].count);
      ghost var mid := symbols[..];
      LinkedSame(was, mid, t.left, 0, 0, 0);
      if symbols[symbol].left != 0 {
        var left := RescaleSymbols(symbol + symbols[symbol].left, t.left);
        ghost var done := symbols[..];
        LeftHalved(was, mid, done, t);
        symbols[symbol] := symbols[symbol].(under := symbols[symbol].under + left);
        LinkedSame(done, symbols[..], t.left, 0, 0, 0);
      } else {
        LeafOk(symbols[..], SYMBOLS);
      }
      NodeHalved(was, symbols[..], t);
      total := before + symbols[symbol].under;
    }

    /** ENET_CONTEXT_RESCALE. */
    method RescaleContext(c: nat)
      requires symbols.Length == SYMBOLS && Full(symbols[..], nextSymbol, trees, depth, c)
      modifies symbols
      ensures Valid() && SameParents(old(symbols[..]), symbols[..])
    {
      hide Linked, Counts, Inside, Apart, Indices, Settled, Forest, Halved;
      ghost var was := symbols[..];
      FullContext(was, nextSymbol, trees, depth, c);
      var total := 0;
      if symbols[c].symbols != 0 {
        total := RescaleSymbols(c + symbols[c].symbols, trees[c]);
      } else {
        NothingHalved(was, nextSymbol, trees, depth, c);
      }
      ghost var sy := symbols[..];
      ShrunkIsSettled(was, sy, nextSymbol, trees, depth, c);
      FieldsKept(was, sy, trees[c], c);
      var escapes := symbols[c].escapes - symbols[c].escapes / 2;
      symbols[c] := symbols[c].(escapes := escapes, total := total + escapes + 256 * Least(c));
      assert symbols[..] == Shrunk(sy, c, total);
    }

    /** What is done to a context after its walk; count is that of the symbol before it. */
    method Settle(c: nat, symbol: nat, count: u16)
      requires symbols.Length == SYMBOLS && Owes(symbols[..], nextSymbol, trees, depth, c, symbol)
      requires symbol < SYMBOLS && symbols[symbol].count + Least(c) == count + Delta(c)
      modifies symbols
      ensures Valid() && SameParents(old(symbols[..]), symbols[..])
    {
      hide Linked, Counts, Inside, Apart, Indices, Settled, Forest, Owes, Full;
      ghost var was := symbols[..];
      var limit, learn := 0xFF - 2 * Delta(c) + Least(c), if count == 0 then 5 else 0;
      PaidIsFull(was, nextSymbol, trees, depth, c, symbol, learn);
      symbols[c] := symbols[c].(escapes := symbols[c].escapes + learn, total := symbols[c].total + learn + Delta(c));
      assert symbols[..] == Paid(was, c, learn);
      if count > limit || symbols[c].total > F.RESCALE_TOTAL {
        RescaleContext(c);
      }
    }

    // ---------- The decoder's loops ----------

    /** One round of the loop over subcontexts. */
    method TryContext(sub: nat, c0: Interval, code0: u32, pos0: nat, input: seq<u8>)
      returns (attempt: Attempt, symbol: nat, value: u8, c: Interval, code: u32, pos: nat)
      requires Valid() && symbols.Length == SYMBOLS && 0 < sub < nextSymbol && sub < |depth| && depth[sub] <= 2
      requires InWords(c0) && c0.range >= BOTTOM
      modifies symbols
      ensures attempt != Broken ==> Valid() && ParentsStay(old(symbols[..]), depth, symbols[..], depth)
      ensures attempt != Broken ==> InWords(c) && c.range >= BOTTOM
      ensures attempt == Found ==> 0 < symbol < nextSymbol == |depth| && depth[symbol] == depth[sub] + 1
      ensures attempt == Found ==> nextSymbol <= SYMBOLS && symbols[symbol].value == value
    {
      hide Settled, Learnt, Owes, Forest, Indices, ReadCode, Divided, ParentsStay, SameParents, Linked, Counts;
      ghost var was := symbols[..];
      SettledBounds(was, nextSymbol, trees, depth);
      ParentsSelf(was, depth);
      attempt, symbol, value, c, code, pos := Skipped, 0, 0, c0, code0, pos0;
      var escapes, total := symbols[sub].escapes, symbols[sub].total;
      if escapes <= 0 {
        return;
      }
      if escapes >= total {
        return;
      }
      DividedFits(c, total, escapes);
      c := Divided(c, total);
      var r: u16 := ReadCode(c, code);
      if r < escapes {
        c, code, pos := TakeEvent(c, 0, escapes, code, pos, input);
        return;
      }
      var ok, under, count;
      ok, symbol, value, under, count := TryDecode(sub, r - escapes);
      if !ok {
        attempt := Broken;
        return;
      }
      LearntSymbol(was, nextSymbol, trees, depth, symbols[..], nextSymbol, trees, depth, sub, symbol);
      LearntOwes(was, nextSymbol, trees, depth, symbols[..], nextSymbol, trees, depth, sub, symbol);
      LearntParents(was, nextSymbol, trees, depth, symbols[..], nextSymbol, trees, depth, sub, symbol);
      DividedFits(c0, total, count);
      c, code, pos := TakeEvent(c, escapes as int + under, count, code, pos, input);
      ghost var sy := symbols[..];
      Settle(sub, symbol, count);
      SameValue(sy, symbols[..], symbol);
      ParentsChain(was, depth, sy, depth, symbols[..]);
      attempt := Found;
    }

    /** What follows the loop: the root, which knows every byte. */
    method TryRoot(c0: Interval, code0: u32, pos0: nat, input: seq<u8>)
      returns (ended: bool, symbol: nat, value: u8, c: Interval, code: u32, pos: nat)
      requires Valid() && symbols.Length == SYMBOLS && nextSymbol < SYMBOLS
      requires InWords(c0) && c0.range >= BOTTOM
      modifies this, symbols
      ensures !ended ==> Valid() && old(depth) <= depth && nextSymbol <= old(nextSymbol) + 1
      ensures !ended && nextSymbol > old(nextSymbol) ==> symbol == old(nextSymbol)
      ensures !ended ==> ParentsStay(old(symbols[..]), old(depth), symbols[..], depth)
      ensures !ended ==> InWords(c) && c.range >= BOTTOM && 0 < symbol < nextSymbol == |depth| && depth[symbol] == 1
      ensures !ended ==> nextSymbol <= SYMBOLS && symbols[symbol].value == value
    {
      hide Settled, Learnt, Owes, Forest, Indices, ReadCode, Divided, ParentsStay, SameParents, Linked, Counts;
      ghost var was, n, ts, ds := symbols[..], nextSymbol, trees, depth;
      ended, symbol, value, c, code, pos := false, 0, 0, c0, code0, pos0;
      SettledBounds(was, n, ts, ds);
      RootTotal(was, n, ts, ds);
      var escapes, total := symbols[0].escapes, symbols[0].total;
      DividedFits(c, total, 1);
      c := Divided(c, total);
      var r: u16 := ReadCode(c, code);
      if r < escapes {
        DividedFits(c0, total, escapes);
        c, code, pos := TakeEvent(c, 0, escapes, code, pos, input);
        ended := true;
        return;
      }
      var under, count;
      symbol, value, under, count := RootDecode(r - escapes);
      LearntSymbol(was, n, ts, ds, symbols[..], nextSymbol, trees, depth, 0, symbol);
      LearntOwes(was, n, ts, ds, symbols[..], nextSymbol, trees, depth, 0, symbol);
      LearntParents(was, n, ts, ds, symbols[..], nextSymbol, trees, depth, 0, symbol);
      LearntNew(was, n, ts, ds, symbols[..], nextSymbol, trees, depth, 0, symbol);
      DividedFits(c0, total, count);
      c, code, pos := TakeEvent(c, escapes as int + under, count, code, pos, input);
      ghost var sy := symbols[..];
      Settle(0, symbol, count);
      SameValue(sy, symbols[..], symbol);
      ParentsChain(was, ds, sy, depth, symbols[..]);
    }

    /** The loop over subcontexts, from the predicted one towards the root. */
    method FindContext(predicted: nat, c0: Interval, code0: u32, pos0: nat, input: seq<u8>)
      returns (attempt: Attempt, sub: nat, symbol: nat, value: u8, c: Interval, code: u32, pos: nat)
      requires Valid() && symbols.Length == SYMBOLS && Orders(symbols[..], nextSymbol, depth, -1)
      requires predicted < nextSymbol && depth[predicted] <= 2 && InWords(c0) && c0.range >= BOTTOM
      modifies symbols
      ensures attempt != Broken ==> Valid() && Orders(symbols[..], nextSymbol, depth, -1)
      ensures attempt != Broken ==> InWords(c) && c.range >= BOTTOM
      ensures attempt != Broken ==> sub < nextSymbol && Leads(symbols[..], nextSymbol, depth, predicted, sub)
      ensures attempt == Found ==> 0 < symbol < nextSymbol <= SYMBOLS && depth[symbol] == depth[sub] + 1
      ensures attempt == Found ==> symbols[symbol].value == value
      ensures attempt == Skipped ==> sub == 0
    {
      hide Settled, Leads, ParentsStay, Orders;
      OrdersBounds(symbols[..], nextSymbol, depth, -1);
      attempt, sub, symbol, value, c, code, pos := Skipped, predicted, 0, 0, c0, code0, pos0;
      LeadsSelf(symbols[..], nextSymbol, depth, predicted);
      while sub != 0
        invariant Valid() && Orders(symbols[..], nextSymbol, depth, -1) && attempt == Skipped
        invariant sub < nextSymbol && depth[sub] <= 2 && Leads(symbols[..], nextSymbol, depth, predicted, sub)
        invariant InWords(c) && c.range >= BOTTOM
        decreases depth[sub]
      {
        ghost var was := symbols[..];
        attempt, symbol, value, c, code, pos := TryContext(sub, c, code, pos, input);
        if attempt == Broken {
          return;
        }
        OrdersStay(was, nextSymbol, depth, symbols[..], nextSymbol, depth, -1);
        LeadsStay(was, nextSymbol, depth, symbols[..], nextSymbol, depth, predicted, sub);
        if attempt == Found {
          return;
        }
        LeadsOn(symbols[..], nextSymbol, depth, predicted, sub);
        sub := symbols[sub].parent;
      }
    }

    /** patchContexts, one round: the context learns the value. */
    method PatchRound(patch: nat, value: u8) returns (symbol: nat)
      requires Valid() && symbols.Length == SYMBOLS && 0 < patch < nextSymbol < SYMBOLS && |depth| == nextSymbol
      requires depth[patch] <= 2
      modifies this, symbols
      ensures Valid() && old(depth) <= depth && nextSymbol <= old(nextSymbol) + 1
      ensures ParentsStay(old(symbols[..]), old(depth), symbols[..], depth)
      ensures 0 < symbol < nextSymbol == |depth| && depth[symbol] == depth[patch] + 1
      ensures nextSymbol <= SYMBOLS && symbols[symbol].value == value
      ensures nextSymbol > old(nextSymbol) ==> symbol == old(nextSymbol)
    {
      hide Settled, Learnt, Owes, Forest, Indices, ParentsStay, SameParents, Linked, Counts;
      ghost var was, n, ts, ds := symbols[..], nextSymbol, trees, depth;
      var count;
      symbol, count := Encode(patch, value);
      LearntSymbol(was, n, ts, ds, symbols[..], nextSymbol, trees, depth, patch, symbol);
      LearntOwes(was, n, ts, ds, symbols[..], nextSymbol, trees, depth, patch, symbol);
      LearntParents(was, n, ts, ds, symbols[..], nextSymbol, trees, depth, patch, symbol);
      LearntNew(was, n, ts, ds, symbols[..], nextSymbol, trees, depth, patch, symbol);
      ghost var sy := symbols[..];
      Settle(patch, symbol, count);
      SameValue(sy, symbols[..], symbol);
      ParentsChain(was, ds, sy, depth, symbols[..]);
    }

    /** The store through the source's `parent` pointer. */
    method StoreParent(link: nat, symbol: nat)
      requires Valid() && symbols.Length == SYMBOLS && link < nextSymbol && symbol < nextSymbol
      modifies symbols
      ensures Valid() && symbols[..] == old(symbols[..])[link := old(symbols[link]).(parent := symbol)]
    {
      hide Settled;
      ghost var sy := symbols[..];
      ParentSettled(sy, nextSymbol, trees, depth, link, symbol);
      symbols[link] := symbols[link].(parent := symbol);
      assert symbols[..] == sy[link := sy[link].(parent := symbol)];
    }

    /** One turn of patchContexts: the symbol becomes the parent of the one before it. */
    method PatchStep(patch: nat, link: int, value: u8, ghost stop: nat) returns (symbol: nat)
      requires Valid() && symbols.Length == SYMBOLS && Orders(symbols[..], nextSymbol, depth, link)
      requires patch < nextSymbol == |depth| && depth[patch] <= 2 && stop < nextSymbol <= SYMBOLS && patch != stop
      requires Leads(symbols[..], nextSymbol, depth, patch, stop)
      requires nextSymbol + depth[patch] <= SYMBOLS + depth[stop]
      requires link == -1 || (0 < link < nextSymbol && depth[link] == depth[patch] + 2)
      modifies this, symbols
      ensures Valid() && old(depth) <= depth && |depth| == nextSymbol <= old(nextSymbol) + 1 && nextSymbol <= SYMBOLS
      ensures 0 < symbol < nextSymbol && depth[symbol] == depth[patch] + 1 && symbols[symbol].value == value
      ensures Orders(symbols[..], nextSymbol, depth, symbol) && symbols[patch].parent < nextSymbol
      ensures depth[symbols[patch].parent] + 1 == depth[patch]
      ensures Leads(symbols[..], nextSymbol, depth, symbols[patch].parent, stop)
      ensures forall i :: 0 <= i < old(nextSymbol) ==> symbols[i].value == old(symbols[i].value)
    {
      hide Settled, Leads, ParentsStay, Orders;
      ghost var was, ds, n := symbols[..], depth, nextSymbol;
      LeadsDown(was, n, ds, patch, stop);
      symbol := PatchRound(patch, value);
      SettledBounds(symbols[..], nextSymbol, trees, depth);
      RoundKeeps(was, n, ds, symbols[..], nextSymbol, depth, link, symbol, patch, stop);
      if link != -1 {
        ghost var sy := symbols[..];
        StoreParent(link, symbol);
        LinkKeeps(sy, symbols[..], nextSymbol, depth, link, symbol, patch, stop);
      }
      LeadsDown(symbols[..], nextSymbol, depth, patch, stop);
      LeadsOnce(symbols[..], nextSymbol, depth, patch, stop);
    }

    /** patchContexts: from the predicted context to the one the symbol was found in. */
    method PatchContexts(predicted0: nat, stop: nat, bottom: nat, value: u8) returns (predicted: nat)
      requires Valid() && symbols.Length == SYMBOLS && Orders(symbols[..], nextSymbol, depth, -1)
      requires predicted0 < nextSymbol && depth[predicted0] <= 2 && stop < nextSymbol && 0 < bottom < nextSymbol
      requires Leads(symbols[..], nextSymbol, depth, predicted0, stop) && depth[bottom] == depth[stop] + 1
      requires nextSymbol + depth[predicted0] <= SYMBOLS + depth[stop] && symbols[bottom].value == value
      modifies this, symbols
      ensures Valid() && Orders(symbols[..], nextSymbol, depth, -1)
      ensures predicted < nextSymbol && predicted0 < |old(depth)| && depth[predicted] == old(depth)[predicted0] + 1
      ensures nextSymbol <= SYMBOLS && symbols[predicted].value == value
    {
      hide Settled, Leads, Orders;
      SettledBounds(symbols[..], nextSymbol, trees, depth);
      ghost var ds, n := depth, nextSymbol;
      var patch: nat, link: int := predicted0, -1;
      predicted := predicted0;
      LeadsBounds(symbols[..], nextSymbol, depth, patch, stop);
      while patch != stop
        invariant Valid() && ds <= depth && |ds| == n <= nextSymbol == |depth| <= SYMBOLS
        invariant Orders(symbols[..], nextSymbol, depth, link) && symbols[bottom].value == value
        invariant patch < nextSymbol && depth[patch] <= 2 && Leads(symbols[..], nextSymbol, depth, patch, stop)
        invariant nextSymbol + depth[patch] <= SYMBOLS + depth[stop]
        invariant if link == -1 then patch == predicted0 else
          0 < link < nextSymbol && depth[link] == depth[patch] + 2
          && predicted < nextSymbol && depth[predicted] == ds[predicted0] + 1 && symbols[predicted].value == value
        decreases depth[patch]
      {
        var symbol := PatchStep(patch, link, value, stop);
        if link == -1 {
          predicted := symbol;
        }
        link := symbol;
        patch := symbols[patch].parent;
      }
      if link == -1 {
        predicted := bottom;
      } else {
        ghost var sy := symbols[..];
        StoreParent(link, bottom);
        LastLink(sy, symbols[..], nextSymbol, depth, link, bottom);
      }
    }

    /** Between two bytes: the symbols are settled, every parent is one order lower, and there is
        room for a byte. */
    ghost predicate Ready(predicted: nat, order: nat)
      reads this, symbols
    {
      && symbols.Length == SYMBOLS && Valid() && Orders(symbols[..], nextSymbol, depth, -1)
      && predicted < nextSymbol == |depth| && depth[predicted] == order <= F.SUBCONTEXT_ORDER
      && nextSymbol < SYMBOLS - F.SUBCONTEXT_ORDER
    }

    /** One turn of the outer loop up to the output of the byte. */
    method DecodeByte(predicted0: nat, ghost order: nat, c0: Interval, code0: u32, pos0: nat, input: seq<u8>)
      returns (outcome: Outcome, predicted: nat, value: u8, c: Interval, code: u32, pos: nat)
      requires Ready(predicted0, order) && InWords(c0) && c0.range >= BOTTOM
      modifies this, symbols
      ensures outcome == Decoded ==> Valid() && Orders(symbols[..], nextSymbol, depth, -1)
      ensures outcome == Decoded ==> predicted < nextSymbol == |depth| && depth[predicted] == order + 1
      ensures outcome == Decoded ==> nextSymbol <= SYMBOLS && symbols[predicted].value == value
      ensures outcome == Decoded ==> InWords(c) && c.range >= BOTTOM
    {
      hide Settled, Leads, ParentsStay, Orders;
      OrdersBounds(symbols[..], nextSymbol, depth, -1);
      predicted := predicted0;
      var attempt, sub, bottom;
      attempt, sub, bottom, value, c, code, pos := FindContext(predicted0, c0, code0, pos0, input);
      if attempt == Broken {
        return Failed, predicted, value, c, code, pos;
      }
      if attempt == Skipped {
        ghost var was, n, ds := symbols[..], nextSymbol, depth;
        SettledBounds(was, n, trees, ds);
        var ended;
        ended, bottom, value, c, code, pos := TryRoot(c, code, pos, input);
        if ended {
          return Ended, predicted, value, c, code, pos;
        }
        RootKeeps(was, n, ds, symbols[..], nextSymbol, depth, predicted0, trees, bottom);
      }
      LeadsBounds(symbols[..], nextSymbol, depth, predicted0, sub);
      predicted := PatchContexts(predicted0, sub, bottom, value);
      SettledBounds(symbols[..], nextSymbol, trees, depth);
      outcome := Decoded;
    }

    /** What follows the output of a byte. */
    method NextInput(predicted0: nat, order0: nat) returns (predicted: nat, order: nat)
      requires symbols.Length == SYMBOLS && Valid() && Orders(symbols[..], nextSymbol, depth, -1)
      requires predicted0 < nextSymbol == |depth| && depth[predicted0] == order0 + 1 && order0 <= F.SUBCONTEXT_ORDER
      modifies this, symbols
      ensures Ready(predicted, order)
    {
      hide Settled;
      SettledBounds(symbols[..], nextSymbol, trees, depth);
      predicted, order := predicted0, order0;
      if order >= F.SUBCONTEXT_ORDER {
        predicted := symbols[predicted].parent;
      } else {
        order := order + 1;
      }
      if nextSymbol >= SYMBOLS - F.SUBCONTEXT_ORDER {
        CreateRoot();
        predicted, order := 0, 0;
      }
    }

    /** enet_range_coder_decompress, whatever the input: at most outLimit bytes come out, and between
        any two of them every context's total is the sum of its escapes, its counts and the minimum. */
    method Decompress(input: seq<u8>, outLimit: nat) returns (out: seq<u8>)
      requires symbols.Length == SYMBOLS
      modifies this, symbols
      ensures |out| <= outLimit
    {
      hide Settled, Orders;
      if |input| <= 0 {
        return [];
      }
      CreateRoot();
      RootOrders(symbols[..]);
      var predicted: nat, order: nat, c := 0, 0, START;
      var code, pos := Compressor.Seed(input);
      out := [];
      while true
        invariant Ready(predicted, order) && InWords(c) && c.range >= BOTTOM && 0 <= code < WORD && |out| <= outLimit
        decreases outLimit - |out|
      {
        var outcome, value;
        outcome, predicted, value, c, code, pos := DecodeByte(predicted, order, c, code, pos, input);
        if outcome == Ended {
          break;
        }
        if outcome == Failed || |out| >= outLimit {
          return [];
        }
        out := out + [value];
        predicted, order := NextInput(predicted, order);
      }
    }
  }

  datatype Outcome = Ended | Decoded | Failed

  datatype Attempt = Skipped | Found | Broken

  /** ENET_RANGE_CODER_READ divides the range, and then the code by it, cut to 16 bits. */
  function Divided(c: Interval, total: nat): (r: Interval)
    requires total > 0
  {
    Interval(c.low, c.range / total)
  }

  function ReadCode(c: Interval, code: u32): (r: u16)
    requires c.range > 0
  {
    (((code - c.low) % WORD) / c.range) % 0x1_0000
  }

  lemma DividedFits(c: Interval, total: nat, count: nat)
    requires InWords(c) && 0 < count <= total <= c.range
    ensures InWords(Divided(c, total)) && Divided(c, total).range * count < WORD
  {
    ShareFits(c.range, total, count);
  }

  /** The parents of old symbols are as before, and a new one has the root. */
  ghost predicate ParentsStay(was: Symbols, ds: seq<nat>, sy: Symbols, depth: seq<nat>)
  {
    && |ds| <= |depth| <= |sy| == |was|
    && (forall i :: 0 <= i < |ds| ==> sy[i].parent == was[i].parent && sy[i].value == was[i].value)
    && (forall i :: |ds| <= i < |depth| ==> sy[i].parent == 0)
  }

  lemma ParentsSelf(sy: Symbols, depth: seq<nat>)
    requires |depth| <= |sy|
    ensures ParentsStay(sy, depth, sy, depth)
  {
  }

  lemma ParentsChain(was: Symbols, ds: seq<nat>, sy: Symbols, depth: seq<nat>, sy': Symbols)
    requires ParentsStay(was, ds, sy, depth) && SameParents(sy, sy')
    ensures ParentsStay(was, ds, sy', depth)
  {
  }

  lemma LearntParents(was: Symbols, n: nat, trees: Trees, depth: seq<nat>,
                      sy: Symbols, n': nat, trees': Trees, depth': seq<nat>, c: nat, symbol: nat)
    requires Learnt(was, n, trees, depth, sy, n', trees', depth', c, symbol, Delta(c))
    ensures depth <= depth' && n <= n' <= n + 1 && |depth| == n && |depth'| == n'
    ensures ParentsStay(was, depth, sy, depth')
  {
  }

  /** The symbol a context has learnt: one order higher, and its count was part of the total. */
  lemma LearntSymbol(was: Symbols, n: nat, trees: Trees, depth: seq<nat>,
                     sy: Symbols, n': nat, trees': Trees, depth': seq<nat>, c: nat, symbol: nat)
    requires Settled(was, n, trees, depth)
    requires Learnt(was, n, trees, depth, sy, n', trees', depth', c, symbol, Delta(c))
    ensures 0 < symbol < n' == |depth'| && c < n && depth'[symbol] == depth'[c] + 1 && c < |was| && symbol < |sy|
    ensures Delta(c) <= sy[symbol].count <= Delta(c) + was[c].total - 256 * Least(c) - was[c].escapes
  {
    hide Linked, Counts, Inside, Apart, Indices;
    ContextIs(was, n, trees, depth, c);
    assert TreeOk(sy, n', trees', depth', c);
    CountInTree(sy, trees'[c], symbol);
  }

  // ---------- Orders ----------

  /** The parent of a symbol is one order lower; that of `pending` is still to be stored. */
  ghost predicate Orders(sy: Symbols, n: nat, depth: seq<nat>, pending: int)
  {
    && 0 < n == |depth| <= |sy| && depth[0] == 0 && (forall i :: 0 < i < n ==> depth[i] > 0)
    && forall i :: 0 < i < n && i != pending ==> sy[i].parent < n && depth[sy[i].parent] + 1 == depth[i]
  }

  lemma OrdersBounds(sy: Symbols, n: nat, depth: seq<nat>, pending: int)
    requires Orders(sy, n, depth, pending)
    ensures 0 < n == |depth| <= |sy| && depth[0] == 0 && forall i :: 0 < i < n ==> depth[i] > 0
  {
  }

  /** Following parents from symbol i leads to symbol stop. */
  ghost predicate Leads(sy: Symbols, n: nat, depth: seq<nat>, i: nat, stop: nat)
    requires i < n == |depth| <= |sy|
    decreases depth[i]
  {
    i == stop
    || (i > 0 && sy[i].parent < n && depth[sy[i].parent] + 1 == depth[i] && Leads(sy, n, depth, sy[i].parent, stop))
  }

  lemma LeadsSelf(sy: Symbols, n: nat, depth: seq<nat>, i: nat)
    requires i < n == |depth| <= |sy|
    ensures Leads(sy, n, depth, i, i)
  {
  }

  lemma {:induction false} LeadsBounds(sy: Symbols, n: nat, depth: seq<nat>, i: nat, stop: nat)
    requires i < n == |depth| <= |sy| && stop < n && Leads(sy, n, depth, i, stop)
    ensures depth[stop] <= depth[i]
    decreases depth[i]
  {
    if i != stop {
      LeadsBounds(sy, n, depth, sy[i].parent, stop);
    }
  }

  /** One step on towards stop. */
  lemma LeadsDown(sy: Symbols, n: nat, depth: seq<nat>, i: nat, stop: nat)
    requires i < n == |depth| <= |sy| && stop < n && Leads(sy, n, depth, i, stop) && i != stop
    ensures 0 < i && sy[i].parent < n && depth[sy[i].parent] + 1 == depth[i] && depth[stop] < depth[i]
  {
    LeadsBounds(sy, n, depth, sy[i].parent, stop);
  }

  lemma LeadsOnce(sy: Symbols, n: nat, depth: seq<nat>, i: nat, stop: nat)
    requires i < n == |depth| <= |sy| && stop < n && Leads(sy, n, depth, i, stop) && i != stop
    ensures sy[i].parent < n && Leads(sy, n, depth, sy[i].parent, stop) && depth[stop] <= depth[sy[i].parent]
  {
    LeadsBounds(sy, n, depth, sy[i].parent, stop);
  }

  /** One step beyond. */
  lemma {:induction false} LeadsOn(sy: Symbols, n: nat, depth: seq<nat>, i: nat, stop: nat)
    requires i < n == |depth| <= |sy| && 0 < stop < n && Orders(sy, n, depth, -1) && Leads(sy, n, depth, i, stop)
    ensures sy[stop].parent < n && Leads(sy, n, depth, i, sy[stop].parent)
    ensures depth[sy[stop].parent] + 1 == depth[stop]
    decreases depth[i]
  {
    if i == stop {
      LeadsSelf(sy, n, depth, sy[stop].parent);
    } else {
      LeadsOn(sy, n, depth, sy[i].parent, stop);
    }
  }

  /** Only parents of symbols above the chain changed. */
  lemma {:induction false} LeadsKept(was: Symbols, n: nat, ds: seq<nat>, sy: Symbols, n': nat, depth: seq<nat>,
                                     i: nat, stop: nat)
    requires i < n == |ds| <= |was| && n <= n' == |depth| <= |sy| && ds <= depth && Leads(was, n, ds, i, stop)
    requires forall j :: 0 <= j < n && ds[j] <= ds[i] ==> sy[j].parent == was[j].parent
    ensures Leads(sy, n', depth, i, stop)
    decreases ds[i]
  {
    if i != stop {
      LeadsKept(was, n, ds, sy, n', depth, was[i].parent, stop);
    }
  }

  lemma LeadsStay(was: Symbols, n: nat, ds: seq<nat>, sy: Symbols, n': nat, depth: seq<nat>, i: nat, stop: nat)
    requires i < n == |ds| <= |was| && n' == |depth| && ds <= depth && Leads(was, n, ds, i, stop)
    requires ParentsStay(was, ds, sy, depth)
    ensures i < n' == |depth| <= |sy| && Leads(sy, n', depth, i, stop)
  {
    LeadsKept(was, n, ds, sy, n', depth, i, stop);
  }

  lemma OrdersStay(was: Symbols, n: nat, ds: seq<nat>, sy: Symbols, n': nat, depth: seq<nat>, pending: int)
    requires Orders(was, n, ds, pending) && ParentsStay(was, ds, sy, depth) && n' == n && depth == ds
    ensures Orders(sy, n', depth, pending)
  {
  }

  /** What a round of patchContexts leaves as it is. */
  lemma RoundKeeps(was: Symbols, n: nat, ds: seq<nat>, sy: Symbols, n': nat, depth: seq<nat>, link: int, symbol: nat,
                   patch: nat, stop: nat)
    requires Orders(was, n, ds, link) && ParentsStay(was, ds, sy, depth) && ds <= depth && n <= n' <= n + 1
    requires n' == |depth| && symbol < n' && (n' > n ==> symbol == n) && depth[symbol] > 0
    requires patch < n && Leads(was, n, ds, patch, stop)
    ensures Leads(sy, n', depth, patch, stop)
    ensures forall i :: 0 < i < n' && i != link && i != symbol ==>
      sy[i].parent < n' && depth[sy[i].parent] + 1 == depth[i]
    ensures forall i :: 0 < i < n' ==> depth[i] > 0
    ensures n <= |was| <= |sy| && forall i :: 0 <= i < n ==> sy[i].value == was[i].value
    ensures 0 < n' <= |sy| && depth[0] == 0
    ensures link == -1 ==> Orders(sy, n', depth, symbol)
  {
    LeadsStay(was, n, ds, sy, n', depth, patch, stop);
  }

  /** The symbol stored as parent of the one before it. */
  lemma LinkKeeps(sy: Symbols, sy': Symbols, n: nat, depth: seq<nat>, link: nat, symbol: nat, patch: nat, stop: nat)
    requires 0 < n == |depth| <= |sy| == SYMBOLS && depth[0] == 0 && 0 < link < n && symbol < n
    requires forall i :: 0 < i < n ==> depth[i] > 0
    requires forall i :: 0 < i < n && i != link && i != symbol ==>
      sy[i].parent < n && depth[sy[i].parent] + 1 == depth[i]
    requires sy' == sy[link := sy[link].(parent := symbol)] && depth[symbol] + 1 == depth[link]
    requires patch < n && Leads(sy, n, depth, patch, stop) && depth[patch] < depth[link]
    ensures Orders(sy', n, depth, symbol) && Leads(sy', n, depth, patch, stop)
  {
    LeadsKept(sy, n, depth, sy', n, depth, patch, stop);
  }

  lemma LastLink(sy: Symbols, sy': Symbols, n: nat, depth: seq<nat>, link: nat, symbol: nat)
    requires Orders(sy, n, depth, link) && |sy| == SYMBOLS && 0 < link < n && symbol < n
    requires depth[symbol] + 1 == depth[link]
    requires sy' == sy[link := sy[link].(parent := symbol)]
    ensures Orders(sy', n, depth, -1)
  {
  }

  lemma ParentSettled(sy: Symbols, n: nat, trees: Trees, depth: seq<nat>, link: nat, symbol: nat)
    requires Settled(sy, n, trees, depth) && link < n && symbol < n
    ensures link < n <= |sy| == SYMBOLS && Settled(sy[link := sy[link].(parent := symbol)], n, trees, depth)
  {
    hide Linked, Counts, Inside, Apart, Indices, Forest;
    SettledBounds(sy, n, trees, depth);
    var sy' := sy[link := sy[link].(parent := symbol)];
    SameTrees(sy, sy', n, trees, depth);
    forall c: nat | c < n
      ensures Inside(trees[c], |sy'|) && Adds(sy', trees, c, 0) && Limits(sy', trees, c)
    {
      assert Adds(sy, trees, c, 0) && Limits(sy, trees, c);
    }
  }

  lemma LearntNew(was: Symbols, n: nat, trees: Trees, depth: seq<nat>,
                  sy: Symbols, n': nat, trees': Trees, depth': seq<nat>, c: nat, symbol: nat)
    requires Learnt(was, n, trees, depth, sy, n', trees', depth', c, symbol, Delta(c))
    ensures n' > n ==> symbol == n
  {
  }

  lemma RootOrders(sy: Symbols)
    requires |sy| == SYMBOLS
    ensures Orders(sy, 1, [0], -1)
  {
  }

  /** After the root was tried. */
  lemma RootKeeps(was: Symbols, n: nat, ds: seq<nat>, sy: Symbols, n': nat, depth: seq<nat>, predicted: nat,
                  trees: Trees, bottom: nat)
    requires Orders(was, n, ds, -1) && ParentsStay(was, ds, sy, depth) && ds <= depth && n <= n' == |depth| <= n + 1
    requires Settled(sy, n', trees, depth) && predicted < n && Leads(was, n, ds, predicted, 0)
    requires bottom < n' && depth[bottom] == 1 && (n' > n ==> bottom == n)
    ensures Leads(sy, n', depth, predicted, 0) && Orders(sy, n', depth, -1)
  {
    LeadsStay(was, n, ds, sy, n', depth, predicted, 0);
  }

  lemma RootTotal(sy: Symbols, n: nat, trees: Trees, depth: seq<nat>)
    requires Settled(sy, n, trees, depth)
    ensures 0 < |sy| && 256 <= sy[0].total < 0x1_0000 && sy[0].escapes <= sy[0].total
  {
    ContextIs(sy, n, trees, depth, 0);
  }

  ghost predicate SameParents(was: Symbols, sy: Symbols)
  {
    |was| == |sy| && forall i :: 0 <= i < |sy| ==> sy[i].parent == was[i].parent && sy[i].value == was[i].value
  }

  lemma SameValue(was: Symbols, sy: Symbols, i: nat)
    requires SameParents(was, sy) && i < |sy|
    ensures sy[i].value == was[i].value
  {
  }

  lemma FullContext(sy: Symbols, n: nat, trees: Trees, depth: seq<nat>, c: nat)
    requires Full(sy, n, trees, depth, c)
    ensures c < n <= |sy| == SYMBOLS && |trees| == n && Inside(trees[c], SYMBOLS) && Apart(trees[c])
    ensures Linked(sy, trees[c], 0, 0) && LinkTo(c, sy[c].symbols, trees[c]) && Counts(sy, trees[c]) < 0x1_0000
  {
    hide Linked, Counts, Apart, Inside, Indices;
    assert TreeOk(sy, n, trees, depth, c);
    assert Adds(sy, trees, c, 0);
  }

  lemma NothingHalved(sy: Symbols, n: nat, trees: Trees, depth: seq<nat>, c: nat)
    requires Full(sy, n, trees, depth, c) && c < |sy| && sy[c].symbols == 0
    ensures c < |trees| && Halved(sy, sy, trees[c]) && Inside(trees[c], |sy|)
    ensures Linked(sy, trees[c], 0, 0) && Counts(sy, trees[c]) == 0
  {
    assert TreeOk(sy, n, trees, depth, c);
    assert trees[c] == Leaf;
  }

  lemma FieldsKept(was: Symbols, sy: Symbols, t: Tree, c: nat)
    requires Halved(was, sy, t) && c < |sy|
    ensures SameParents(was, sy) && sy[c].escapes == was[c].escapes
  {
  }

  /** A walk of context c starts at the root of its tree. */
  ghost function WalkFrom(sy: Symbols, n: nat, trees: Trees, depth: seq<nat>, c: nat, d: nat): (t: Tree)
    requires Settled(sy, n, trees, depth) && c < n
    ensures c < n <= |sy| == SYMBOLS && c < |trees| && t == trees[c]
    ensures sy[c].symbols != 0 ==> Walking(sy, sy, t, c + sy[c].symbols, d) && c + sy[c].symbols < SYMBOLS
  {
    ContextIs(sy, n, trees, depth, c);
    if sy[c].symbols != 0 then
      WalkStarts(sy, c, trees[c], d);
      trees[c]
    else trees[c]
  }

  /** No sum overflows. */
  lemma Sums(was: Symbols, sy: Symbols, n: nat, trees: Trees, depth: seq<nat>, c: nat, node: nat, d: u8)
    requires Settled(was, n, trees, depth) && c < n && c < |trees| && Walking(was, sy, trees[c], node, d) && d <= 3
    ensures node < |sy| && sy[node].under + d < 0x1_0000
  {
    hide Linked, Counts, Inside, Apart, Indices;
    ContextIs(was, n, trees, depth, c);
    AtNode(was, sy, trees[c], node, d);
  }

  lemma Unchanged(was: Symbols, sy: Symbols, t: Tree, node: nat, d: nat)
    requires Walking(was, sy, t, node, d)
    ensures node < |sy| == |was| && sy[node].count == was[node].count && sy[node].value == was[node].value
    ensures node in Indices(t)
  {
  }

  lemma Known(was: Symbols, n: nat, trees: Trees, depth: seq<nat>, c: nat, node: nat)
    requires Settled(was, n, trees, depth) && c < n && c < |trees| && node in Indices(trees[c])
    ensures node < |was| && was[node].count > 0
  {
    ContextIs(was, n, trees, depth, c);
  }

  lemma SettledBounds(sy: Symbols, n: nat, trees: Trees, depth: seq<nat>)
    requires Settled(sy, n, trees, depth)
    ensures 0 < n <= |sy| == SYMBOLS && |trees| == |depth| == n && depth[0] == 0
    ensures forall i :: 0 < i < n ==> 1 <= depth[i] <= 3
  {
  }

  lemma SettledForest(sy: Symbols, n: nat, trees: Trees, depth: seq<nat>)
    requires Settled(sy, n, trees, depth)
    ensures Forest(sy, n, trees, depth)
  {
  }

  lemma WalkBounds(was: Symbols, sy: Symbols, t: Tree, node: nat, d: nat)
    requires Walking(was, sy, t, node, d)
    ensures node < |sy|
  {
  }

  lemma RootForest(sy: Symbols)
    requires |sy| == SYMBOLS && sy[0] == S.Fresh(0, 0).(escapes := 1, total := 257)
    ensures Settled(sy, 1, [Leaf], [0])
  {
  }

  lemma HangsWell(was: Symbols, sy: Symbols, n: nat, trees: Trees, depth: seq<nat>, c: nat, node: nat, d: u8,
                  onLeft: bool, value: u8)
    requires Settled(was, n, trees, depth) && c < n < SYMBOLS && depth[c] <= 2 && d == Delta(c)
    requires Walking(was, sy, trees[c], node, d) && if onLeft then sy[node].left == 0 else sy[node].right == 0
    ensures node in Indices(trees[c]) && 0 < node < n < |sy| == SYMBOLS && sy[node].under + d < 0x1_0000
    ensures var t, sy' := Hung(trees[c], node, onLeft, n), HangAt(sy, node, d, onLeft, n, value);
      Learnt(was, n, trees, depth, sy', n + 1, trees[c := t] + [Leaf], depth + [depth[c] + 1], c, n, d)
  {
    hide Linked, Counts, Inside, Apart, Indices, Hung, Learnt;
    ContextIs(was, n, trees, depth, c);
    AtNode(was, sy, trees[c], node, d);
    HungThere(was, sy, trees[c], node, d, onLeft, n, value);
    GrownForest(was, HangAt(sy, node, d, onLeft, n, value), n, trees, depth, c, Hung(trees[c], node, onLeft, n), d,
      value);
  }

  function FirstAt(sy: Symbols, c: nat, symbol: nat, value: u8): (sy': Symbols)
    requires c < symbol < |sy| == SYMBOLS
  {
    var sy1 := sy[symbol := S.Fresh(value, Delta(c))];
    sy1[c := sy1[c].(symbols := symbol - c)]
  }

  lemma FirstFits(sy: Symbols, n: nat, trees: Trees, depth: seq<nat>, c: nat, value: u8)
    requires Settled(sy, n, trees, depth) && c < n < SYMBOLS && depth[c] <= 2 && sy[c].symbols == 0
    ensures c < n < |sy| == SYMBOLS
      && Learnt(sy, n, trees, depth, FirstAt(sy, c, n, value), n + 1, trees[c := Node(Leaf, n, Leaf)] + [Leaf],
                depth + [depth[c] + 1], c, n, Delta(c))
  {
    hide Learnt, Linked, Counts, Inside, Apart, Settled, Forest;
    SettledBounds(sy, n, trees, depth);
    ContextIs(sy, n, trees, depth, c);
    assert trees[c] == Leaf;
    LeafOk(sy, n);
    NewLeaf(FirstAt(sy, c, n, value), n);
    SettledForest(sy, n, trees, depth);
    GrownForest(sy, FirstAt(sy, c, n, value), n, trees, depth, c, Node(Leaf, n, Leaf), Delta(c), value);
  }

  function Bumped(sy: Symbols, node: nat, d: u8): (sy': Symbols)
    requires node < |sy| && sy[node].under + d < 0x1_0000 && sy[node].count + d < 0x100
  {
    sy[node := sy[node].(under := sy[node].under + d, count := sy[node].count + d)]
  }

  lemma CountsWell(was: Symbols, sy: Symbols, n: nat, trees: Trees, depth: seq<nat>, c: nat, node: nat, d: u8)
    requires Settled(was, n, trees, depth) && c < n && d == Delta(c) && Walking(was, sy, trees[c], node, d)
    ensures node < |sy| == SYMBOLS && sy[node].under + d < 0x1_0000 && sy[node].count + d < 0x100
    ensures Learnt(was, n, trees, depth, Bumped(sy, node, d), n, trees, depth, c, node, d)
  {
    hide Linked, Counts, Inside, Apart, Indices, Learnt;
    ContextIs(was, n, trees, depth, c);
    AtNode(was, sy, trees[c], node, d);
    Counted(was, sy, Bumped(sy, node, d), trees[c], node, d);
    CountedForest(was, Bumped(sy, node, d), n, trees, depth, c, node, d);
  }

  /** It does leave the table: of four bytes of 0xFF the first code read is 257, one past the share
      of the last value, so the byte found is 256 cut to 0, and low becomes the last word. */
  lemma PastEveryShare()
    ensures var c := Divided(START, 257);
      && ReadCode(c, WORD - 1) == 257 && (c.low + 257 * c.range) % WORD == WORD - 1
  {
  }
}
