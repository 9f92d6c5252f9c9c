/** The range coder object of toxtun/compress.c: the array of symbols and the macros
    that walk and change it.  `nextSymbol` is a local of both callers in the source and
    a field here because every macro uses it. */
module RangeCoding {
  import opened Words
  import opened RangeInterval
  import opened FrequencyModel
  import opened SymbolTree

  /** What is known at a node of context p: the sums it caches and its subtrees. */
  lemma NodeSums(sy: seq<Symbol>, g: seq<Info>, m: Model, node: nat)
    requires Rep(sy, g, m) && 0 < node < |g|
    ensures var p, s := g[node].home, sy[node];
      && p in m && |m[p].freq| == 256
      && g[node].path == p + [s.value] && s.count > 0
      && g[node].lo <= s.value < g[node].hi <= 256
      && s.under + Sum(m[p].freq, 0, g[node].lo) == Sum(m[p].freq, 0, s.value + 1) <= Sum(m[p].freq, 0, 256)
      && Sum(m[p].freq, 0, s.value + 1) == Sum(m[p].freq, 0, s.value) + s.count
      && m[p].freq[s.value] == s.count
      && (s.left != 0 ==> Subtree(g, node + s.left, p, g[node].lo, s.value))
      && (s.right != 0 ==> Subtree(g, node + s.right, p, s.value + 1, g[node].hi))
  {
    assert NodeRep(sy, g, m, node);
    var f := m[g[node].home].freq;
    SumSplit(f, 0, g[node].lo, sy[node].value + 1);
    SumSplit(f, 0, sy[node].value + 1, 256);
  }

  /** A missing child: its part of the table is empty. */
  lemma NodeGaps(sy: seq<Symbol>, g: seq<Info>, m: Model, p: Path, v: nat, node: nat)
    requires Rep(sy, g, m) && 0 < node < |g| && OnPath(g[node], p, v)
    ensures p in m && |m[p].freq| == 256 && v < 256
    ensures v < sy[node].value && sy[node].left == 0 ==>
              m[p].freq[v] == 0 && Sum(m[p].freq, 0, v) == Sum(m[p].freq, 0, g[node].lo)
                == Sum(m[p].freq, 0, sy[node].value)
    ensures v > sy[node].value && sy[node].right == 0 ==>
              m[p].freq[v] == 0 && Sum(m[p].freq, 0, v) == Sum(m[p].freq, 0, sy[node].value + 1)
  {
    assert NodeRep(sy, g, m, node);
    var f := m[p].freq;
    if v < sy[node].value && sy[node].left == 0 {
      SumSplit(f, 0, g[node].lo, v);
      SumZero(f, g[node].lo, v);
      SumSplit(f, 0, g[node].lo, sy[node].value);
      SumZero(f, g[node].lo, sy[node].value);
    }
    if v > sy[node].value && sy[node].right == 0 {
      SumSplit(f, 0, sy[node].value + 1, v);
      SumZero(f, sy[node].value + 1, v);
    }
  }

  lemma NodeUntouched(sy: seq<Symbol>, sy': seq<Symbol>, g: seq<Info>, p: Path, v: int, d: nat, node: nat)
    requires |g| <= |sy| == |sy'| && 0 < node < |g|
    requires Partly(sy, sy', g, p, v, d, g[node].lo, g[node].hi)
    ensures sy'[node] == sy[node]
  {
  }

  lemma StepPast(sy: seq<Symbol>, g: seq<Info>, p: Path, d: nat, lo: int, hi: int)
    requires |g| <= |sy|
    requires forall i :: 0 < i < |g| ==> g[i].hi <= 256
    ensures Partly(sy, sy, g, p, 256, d, lo, hi)
  {
  }

  /** In a gap every value has a share of exactly one code. */
  lemma GapCodes(sy: seq<Symbol>, g: seq<Info>, m: Model, p: Path, v: nat, code: nat, node: nat)
    requires Rep(sy, g, m) && 0 < node < |g| && OnPath(g[node], p, v) && v < 256
    requires p in m && |m[p].freq| == 256
    requires v < sy[node].value ==> sy[node].left == 0
    requires v > sy[node].value ==> sy[node].right == 0
    requires Holds(m[p].freq, 1, v, code)
    ensures v != sy[node].value ==> code == Cumulative(m[p].freq, 1, v)
    ensures v > sy[node].value ==> code - v == Cumulative(m[p].freq, 1, sy[node].value + 1) - (sy[node].value + 1)
    ensures v < sy[node].value ==> code - v == Cumulative(m[p].freq, 1, sy[node].value) - sy[node].value
  {
    NodeGaps(sy, g, m, p, v, node);
  }

  lemma EnterTree(sy: seq<Symbol>, g: seq<Info>, m: Model, c: nat, v: u8, d: nat)
    requires Rep(sy, g, m) && c < |g| && sy[c].symbols != 0
    ensures var r := c + sy[c].symbols;
            && 0 < r < |g| && OnPath(g[r], g[c].path, v) && g[r].lo == 0 && g[r].hi == 256
            && Partly(sy, sy, g, g[c].path, v, d, 0, 256)
            && (forall i :: 0 < i < |g| ==> g[i].hi <= 256)
  {
    assert ContextRep(sy, g, m, c);
    forall i | 0 < i < |g|
      ensures g[i].hi <= 256
    {
      assert NodeRep(sy, g, m, i);
    }
  }

  lemma EnterEmpty(sy: seq<Symbol>, g: seq<Info>, m: Model, c: nat)
    requires Rep(sy, g, m) && c < |g| && sy[c].symbols == 0
    ensures g[c].path in m && |m[g[c].path].freq| == 256 && Zero(m[g[c].path].freq, 0, 256)
    ensures forall i :: 0 < i < |g| ==> g[i].home != g[c].path
  {
    assert ContextRep(sy, g, m, c);
    forall i | 0 < i < |g|
      ensures g[i].home != g[c].path
    {
      assert NodeRep(sy, g, m, i);
    }
  }

  /** Value v's share of the codes holds code; 256 stands for codes past the table. */
  predicate Holds(f: seq<nat>, minimum: nat, v: nat, code: nat)
    requires |f| == 256
  {
    v <= 256 && Cumulative(f, minimum, v) <= code && (v < 256 ==> code < Cumulative(f, minimum, v + 1))
  }

  lemma HoldsValue(f: seq<nat>, minimum: nat, v: nat, code: nat)
    requires |f| == 256 && Holds(f, minimum, v, code)
    ensures v <= 256
    ensures v < 256 && minimum == 0 ==> f[v] > 0
  {
  }

  lemma {:induction false} CumulativeMonotone(f: seq<nat>, minimum: nat, u: nat, w: nat)
    requires |f| == 256 && u <= w <= 256
    ensures Cumulative(f, minimum, u) <= Cumulative(f, minimum, w)
  {
    SumSplit(f, 0, u, w);
    assert (w - u) * minimum >= 0;
  }

  /** The two comparisons of the decoder's walk, at a node with value u whose context has
      `below` counts under its interval and `own` of the value itself. */
  lemma CodeTests(f: seq<nat>, minimum: nat, v: nat, code: nat, u: nat, below: nat, under: nat, own: nat)
    requires |f| == 256 && u < 256 && minimum <= 1 && Holds(f, minimum, v, code)
    requires under + below == Sum(f, 0, u + 1) <= Sum(f, 0, 256) && Sum(f, 0, u + 1) == Sum(f, 0, u) + own
    ensures var after := below + under + (u + 1) * minimum;
      && own + minimum <= after <= Sum(f, 0, 256) + 256 * minimum
      && (code >= after <==> v > u)
      && (code < after - (own + minimum) <==> v < u)
  {
    CodeSide(f, minimum, v, code, u);
  }

  /** The two comparisons of the decoder's walk find the side v lies on. */
  lemma CodeSide(f: seq<nat>, minimum: nat, v: nat, code: nat, u: nat)
    requires |f| == 256 && u < 256 && Holds(f, minimum, v, code)
    ensures code >= Cumulative(f, minimum, u + 1) <==> v > u
    ensures code < Cumulative(f, minimum, u) <==> v < u
  {
    if v > u {
      CumulativeMonotone(f, minimum, u + 1, v);
      CumulativeMonotone(f, minimum, u, v);
    } else {
      CumulativeMonotone(f, minimum, v + 1, u + 1);
      CumulativeMonotone(f, minimum, v, u);
      if v < u {
        CumulativeMonotone(f, minimum, v + 1, u);
      }
    }
  }

  /** Node i holds the halved counts of its context. */
  predicate ShrunkAt(sy: seq<Symbol>, sy': seq<Symbol>, g: seq<Info>, m: Model, i: nat)
  {
    && 0 < i < |g| <= |sy| && |sy'| == |sy|
    && g[i].home in m && |m[g[i].home].freq| == 256 && g[i].lo <= sy[i].value
    && Shrunk(sy[i], sy'[i], m[g[i].home].freq, g[i].lo)
  }

  /** The halved sums of a node's left part and of the node. */
  lemma ShrinkSums(sy: seq<Symbol>, g: seq<Info>, m: Model, h: seq<nat>, lo: nat, i: nat)
    requires Rep(sy, g, m) && 0 < i < |g| && lo <= g[i].lo <= sy[i].value < g[i].hi <= 256
    requires g[i].home in m && |m[g[i].home].freq| == 256 && h == Halved(m[g[i].home].freq)
    ensures h[sy[i].value] == sy[i].count - sy[i].count / 2
    ensures Sum(h, lo, sy[i].value + 1) == Sum(h, lo, g[i].lo) + Sum(h, g[i].lo, sy[i].value) + h[sy[i].value]
    ensures Sum(h, g[i].lo, sy[i].value + 1) == Sum(h, g[i].lo, sy[i].value) + h[sy[i].value]
    ensures sy[i].left == 0 ==> Sum(h, g[i].lo, sy[i].value) == 0
  {
    var v: nat := sy[i].value;
    assert NodeRep(sy, g, m, i);
    SumSplit(h, lo, g[i].lo, v);
    SumZero(h, g[i].lo, v);
    assert Sum(h, lo, v + 1) == Sum(h, lo, v) + h[v];
  }

  lemma ShrinkRight(sy: seq<Symbol>, g: seq<Info>, m: Model, h: seq<nat>, lo: nat, i: nat)
    requires Rep(sy, g, m) && 0 < i < |g| && lo <= g[i].lo <= sy[i].value < g[i].hi <= 256
    requires g[i].home in m && |m[g[i].home].freq| == 256 && h == Halved(m[g[i].home].freq)
    requires sy[i].right == 0
    ensures Sum(h, lo, g[i].hi) == Sum(h, lo, sy[i].value + 1)
  {
    var v: nat := sy[i].value;
    assert NodeRep(sy, g, m, i);
    SumSplit(h, lo, v + 1, g[i].hi);
    SumZero(h, v + 1, g[i].hi);
  }

  lemma SumInside(h: seq<nat>, a: nat, b: nat)
    requires a <= b <= |h|
    ensures Sum(h, a, b) <= Sum(h, 0, |h|)
  {
    SumSplit(h, 0, a, b);
    SumSplit(h, 0, b, |h|);
  }

  /** From state `from` to state `to`, exactly the nodes of context p within [lo, hi) whose
      interval starts below upTo were rescaled. */
  predicate Progress(sy: seq<Symbol>, from: seq<Symbol>, to: seq<Symbol>, g: seq<Info>, m: Model, p: Path, lo: int,
                     hi: int, upTo: int)
  {
    && |from| == |to| == |sy|
    && forall i :: 0 <= i < |sy| ==>
         if 0 < i < |g| && Within(g[i], p, lo, hi) && g[i].lo < upTo then ShrunkAt(sy, to, g, m, i)
           else to[i] == from[i]
  }

  /** The nodes of context p within [lo, hi) are still as they were. */
  predicate Untouched(sy: seq<Symbol>, from: seq<Symbol>, g: seq<Info>, p: Path, lo: int, hi: int)
  {
    && |from| == |sy|
    && forall i :: 0 < i < |g| && i < |sy| && Within(g[i], p, lo, hi) ==> from[i] == sy[i]
  }

  /** A node and its left subtree: everything that starts at or below the node's value. */
  lemma ProgressNode(sy: seq<Symbol>, from: seq<Symbol>, mid: seq<Symbol>, to: seq<Symbol>, g: seq<Info>, m: Model,
                     p: Path, i: nat)
    requires Rep(sy, g, m) && 0 < i < |g| && g[i].home == p && |from| == |mid| == |sy|
    requires Untouched(sy, from, g, p, g[i].lo, g[i].hi)
    requires if sy[i].left == 0 then mid == from
      else Progress(sy, from[i := mid[i]], mid, g, m, p, g[i].lo, sy[i].value, sy[i].value)
    requires |mid| == |to| == |sy| && (forall j :: 0 <= j < |sy| && j != i ==> to[j] == mid[j])
    requires ShrunkAt(sy, to, g, m, i)
    ensures Progress(sy, from, to, g, m, p, g[i].lo, g[i].hi, sy[i].value + 1)
  {
    NodeSums(sy, g, m, i);
    forall j | 0 <= j < |sy| && j != i
      ensures if 0 < j < |g| && Within(g[j], p, g[i].lo, g[i].hi)
        && g[j].lo < sy[i].value + 1 then ShrunkAt(sy, to, g, m, j) else to[j] == from[j]
    {
      if 0 < j < |g| && Within(g[j], p, g[i].lo, g[i].hi) {
        BelowWithin(sy, g, m, p, i, j);
        NodeSums(sy, g, m, j);
      }
    }
  }

  lemma ProgressChain(sy: seq<Symbol>, a: seq<Symbol>, b: seq<Symbol>, c: seq<Symbol>, g: seq<Info>, m: Model, p: Path,
                      lo: int, mid: int, hi: int, upTo: int)
    requires lo <= mid <= upTo
    requires Progress(sy, a, b, g, m, p, lo, hi, mid) && Progress(sy, b, c, g, m, p, mid, hi, upTo)
    ensures Progress(sy, a, c, g, m, p, lo, hi, upTo)
    ensures forall z :: upTo <= z && Untouched(sy, a, g, p, lo, hi) ==> Untouched(sy, c, g, p, z, hi)
  {
    forall i | 0 <= i < |sy|
      ensures if 0 < i < |g| && Within(g[i], p, lo, hi) && g[i].lo < upTo then ShrunkAt(sy, c, g, m, i)
        else c[i] == a[i]
    {
      if 0 < i < |g| && Within(g[i], p, lo, hi) && g[i].lo < mid {
        assert ShrunkAt(sy, b, g, m, i) && c[i] == b[i];
      }
    }
  }

  /** Changing a node's own count keeps the links, and its left subtree as it was. */
  lemma NodeChanged(sy: seq<Symbol>, from: seq<Symbol>, x: Symbol, g: seq<Info>, m: Model, p: Path, i: nat)
    requires Rep(sy, g, m) && 0 < i < |g| && g[i].home == p
    requires SameLinks(sy, from) && x == from[i].(count := x.count, under := x.under)
    ensures SameLinks(sy, from[i := x])
    ensures Untouched(sy, from, g, p, g[i].lo, g[i].hi) ==>
              from[i] == sy[i] && Untouched(sy, from[i := x], g, p, g[i].lo, sy[i].value)
  {
    NodeSums(sy, g, m, i);
  }

  lemma ProgressStarts(sy: seq<Symbol>, a: seq<Symbol>, g: seq<Info>, m: Model, p: Path, lo: int, hi: int)
    requires |a| == |sy|
    ensures Progress(sy, a, a, g, m, p, lo, hi, lo)
  {
  }

  /** Past a node without right subtree nothing is left to do. */
  lemma ProgressEnds(sy: seq<Symbol>, a: seq<Symbol>, b: seq<Symbol>, g: seq<Info>, m: Model, p: Path, lo: int, hi: int,
                     i: nat)
    requires Rep(sy, g, m) && 0 < i < |g| && g[i].home == p && lo <= g[i].lo && g[i].hi == hi
    requires sy[i].right == 0 && Progress(sy, a, b, g, m, p, lo, hi, sy[i].value + 1)
    ensures Progress(sy, a, b, g, m, p, lo, hi, hi)
  {
    NodeSums(sy, g, m, i);
    forall j | 0 < j < |g| && Within(g[j], p, lo, hi)
      ensures g[j].lo < sy[i].value + 1
    {
      NodeSums(sy, g, m, j);
      if g[j].lo > sy[i].value {
        BelowWithin(sy, g, m, p, i, j);
      }
    }
  }

  lemma ProgressKeeps(sy: seq<Symbol>, a: seq<Symbol>, b: seq<Symbol>, g: seq<Info>, m: Model, p: Path, lo: int,
                      hi: int, upTo: int, i: nat)
    requires Progress(sy, a, b, g, m, p, lo, hi, upTo) && i < |g| <= |sy| && g[i].hi > hi
    ensures b[i] == a[i]
  {
  }

  lemma LinkOf(sy: seq<Symbol>, sy': seq<Symbol>, i: nat)
    requires SameLinks(sy, sy') && i < |sy|
    ensures sy'[i].left == sy[i].left && sy'[i].right == sy[i].right && sy'[i].value == sy[i].value
  {
  }

  predicate SameParents(sy: seq<Symbol>, sy': seq<Symbol>, n: nat)
  {
    |sy| >= n && |sy'| >= n && forall i :: 0 <= i < n ==> sy'[i].parent == sy[i].parent
  }

  lemma SameParentsChain(a: seq<Symbol>, b: seq<Symbol>, c: seq<Symbol>, n: nat)
    requires SameParents(a, b, n) && SameParents(b, c, n)
    ensures SameParents(a, c, n)
  {
  }

  lemma RepBounds(sy: seq<Symbol>, g: seq<Info>, m: Model)
    requires Rep(sy, g, m)
    ensures 0 < |g| <= |sy| == SYMBOLS && |m| == |g| && g[0].path == []
  {
  }

  lemma ContextFields(sy: seq<Symbol>, g: seq<Info>, m: Model, c: nat)
    requires Rep(sy, g, m) && c < |g|
    ensures g[c].path in m && |m[g[c].path].freq| == 256
    ensures sy[c].escapes == m[g[c].path].escapes && sy[c].total == m[g[c].path].total
  {
    assert ContextRep(sy, g, m, c);
  }

  lemma SettleFields(sy: seq<Symbol>, g: seq<Info>, m: Model, m': Model, c: nat, v: u8)
    requires Rep(sy, g, m') && c < |g| && g[c].path in m && |m[g[c].path].freq| == 256
    requires m' == LearnedFrom(m, g[c].path, v)
    ensures sy[c].escapes == m[g[c].path].escapes && sy[c].total == m[g[c].path].total
  {
    ContextFields(sy, g, m', c);
  }

  /** The grown context, rescaled or not, fits its 16-bit fields. */
  lemma SettleBounds(m: Model, p: Path, v: u8)
    requires ModelOk(m) && p in m && |p| <= 2
    ensures |m[p].freq| == 256
    ensures Grown(m[p], p, v).total < 0x1_0000 && Grown(m[p], p, v).escapes <= Grown(m[p], p, v).total
    ensures Rescaled(Grown(m[p], p, v), Minimum(p)).total < 0x1_0000
  {
    TouchedOk(m[p], p, v);
    GrownTotal(m[p], p, v);
    GrownCounts(m[p], p, v);
    GrownEscapes(m[p], p, v);
    RescaledFits(Grown(m[p], p, v), p);
  }

  lemma SettledModel(m: Model, p: Path, v: u8)
    requires p in m && |m[p].freq| == 256
    ensures |Grown(m[p], p, v).freq| == 256 && p in LearnedFrom(m, p, v)
    ensures Grown(m[p], p, v).escapes == m[p].escapes + if p != [] && m[p].freq[v] == 0 then 5 else 0
    ensures Grown(m[p], p, v).total == m[p].total + (if p != [] && m[p].freq[v] == 0 then 5 else 0) + Delta(p)
    ensures var w := WithFields(LearnedFrom(m, p, v), p, Grown(m[p], p, v).escapes, Grown(m[p], p, v).total);
      && p in w && w[p] == Grown(m[p], p, v)
      && (!NeedsRescale(m[p], p, v) ==> w == Touch(m, p, v))
      && (NeedsRescale(m[p], p, v) ==> w[p := Rescaled(Grown(m[p], p, v), Minimum(p))] == Touch(m, p, v))
  {
    hide Rescaled, NeedsRescale, Empty, Grown, LearnedFrom, WithFields, Touch;
    SettledFields(m, p, v);
    TouchIs(m, p, v);
    LastByte(p, v);
  }

  /** The model with the grown context, before any rescaling. */
  lemma SettledFields(m: Model, p: Path, v: u8)
    requires p in m && |m[p].freq| == 256
    ensures |Grown(m[p], p, v).freq| == 256 && p in LearnedFrom(m, p, v)
    ensures Grown(m[p], p, v).escapes == m[p].escapes + if p != [] && m[p].freq[v] == 0 then 5 else 0
    ensures Grown(m[p], p, v).total == m[p].total + (if p != [] && m[p].freq[v] == 0 then 5 else 0) + Delta(p)
    ensures WithFields(LearnedFrom(m, p, v), p, Grown(m[p], p, v).escapes, Grown(m[p], p, v).total)
         == if m[p].freq[v] > 0 then m[p := Grown(m[p], p, v)] else m[p := Grown(m[p], p, v)][p + [v] := Empty()]
  {
    hide Empty;
    LastByte(p, v);
  }

  lemma TouchIs(m: Model, p: Path, v: u8)
    requires p in m && |m[p].freq| == 256
    ensures |Grown(m[p], p, v).freq| == 256
    ensures var c := if NeedsRescale(m[p], p, v) then Rescaled(Grown(m[p], p, v), Minimum(p)) else Grown(m[p], p, v);
      Touch(m, p, v) == if m[p].freq[v] > 0 then m[p := c] else m[p := c][p + [v] := Empty()]
  {
    hide Empty, Rescaled, NeedsRescale;
  }

  lemma RescaleStarts(sy: seq<Symbol>, g: seq<Info>, p: Path)
    ensures SameLinks(sy, sy) && Untouched(sy, sy, g, p, 0, 256)
  {
  }

  /** The whole tree of context p was rescaled; nothing else changed. */
  lemma RescaleDone(sy: seq<Symbol>, to: seq<Symbol>, g: seq<Info>, m: Model, p: Path, c: nat)
    requires Rep(sy, g, m) && c < |g| && g[c].path == p
    requires if sy[c].symbols == 0 then to == sy else Progress(sy, sy, to, g, m, p, 0, 256, 256)
    ensures p in m && |m[p].freq| == 256
    ensures Rep(to, g, m[p := m[p].(freq := Halved(m[p].freq))])
    ensures |to| == |sy| && to[c].escapes == sy[c].escapes && to[c].total == sy[c].total
    ensures SameParents(sy, to, |g|)
  {
    assert ContextRep(sy, g, m, c);
    if sy[c].symbols == 0 {
      EnterEmpty(sy, g, m, c);
    }
    forall i | 0 < i < |g|
      ensures g[i].home == p ==>
        sy[c].symbols != 0 && Within(g[i], p, 0, 256) && g[i].lo < 256 && g[i].lo <= sy[i].value
    {
      NodeSums(sy, g, m, i);
    }
    assert AllShrunk(sy, to, g, p, m[p].freq);
    ShrunkRep(sy, to, g, m, p);
  }

  /** The model after a walk of context p counted value v, creating its symbol if need be. */
  ghost function LearnedBy(m: Model, p: Path, v: u8, d: nat): (r: Model)
    requires p in m && |m[p].freq| == 256
  {
    if m[p].freq[v] > 0 then Learn(m, p, v, d) else WithSymbol(m, p, v, d)
  }

  ghost function LearnedFrom(m: Model, p: Path, v: u8): (r: Model)
    requires p in m && |m[p].freq| == 256
  {
    LearnedBy(m, p, v, Delta(p))
  }

  class RangeCoder {
    const symbols: array<Symbol>
    var nextSymbol: nat
    ghost var info: seq<Info>
    ghost var model: Model

    ghost predicate Valid()
      reads this, symbols
    {
      symbols.Length == SYMBOLS && nextSymbol == |info| && Rep(symbols[..], info, model)
    }

    /** Room for one more count of `update` in context p: no field can overflow. */
    ghost predicate Room(p: Path, value: u8, update: nat, minimum: nat)
      reads this
    {
      && p in model && |model[p].freq| == 256
      && SymbolOk(model, p, value)
      && minimum <= 1
      && Sum(model[p].freq, 0, 256) + 256 * minimum + update < 0x1_0000
      && model[p].freq[value] + update < 0x100
    }

    constructor ()
      ensures fresh(symbols) && symbols.Length == SYMBOLS
    {
      symbols := new Symbol[SYMBOLS](_ => Fresh(0, 0));
      nextSymbol, info, model := 0, [], map[];
    }

    /** ENET_SYMBOL_CREATE and the store of the new symbol's offset in its parent node. */
    method CreateSymbol(q: nat, side: Side, value: u8, update: u8, ghost p: Path, ghost sy: seq<Symbol>)
      returns (symbol: nat)
      requires symbols.Length == SYMBOLS && nextSymbol == |info| && 0 < update
      requires CanCreate(sy, info, model, p, value, q, side)
      requires forall i :: 0 <= i < |info| && i != q ==>
        if 0 < i && OnPath(info[i], p, value) then Bumped(sy[i], symbols[i], value, update) else symbols[i] == sy[i]
      requires side == AtRoot ==> symbols[q] == sy[q]
      requires side != AtRoot ==> Bumped(sy[q], symbols[q], value, update)
      modifies this, symbols
      ensures Valid()
      ensures symbol == old(nextSymbol) && nextSymbol == old(nextSymbol) + 1
      ensures info == old(info) + [GapInfo(sy, old(info), p, value, q, side)]
      ensures model == WithSymbol(old(model), p, value, update)
      ensures symbols[symbol].parent == 0
      ensures SameParents(sy, symbols[..], old(nextSymbol))
    {
      ghost var t := symbols[q];
      symbol := nextSymbol;
      symbols[symbol] := Fresh(value, update);
      nextSymbol := nextSymbol + 1;
      symbols[q] := Linked(symbols[q], side, symbol - q);
      CreatedRep(sy, symbols[..], t, info, model, p, value, update, q, side);
      model := WithSymbol(model, p, value, update);
      info := info + [GapInfo(sy, info, p, value, q, side)];
    }

    /** The branches of the walks that miss a child: on the left the node's cached sum
        grows before the symbol is created. */
    method CreateBelow(node: nat, side: Side, value: u8, update: u8, ghost p: Path, ghost sy: seq<Symbol>)
      returns (symbol: nat)
      requires symbols.Length == SYMBOLS && nextSymbol == |info| && 0 < update && side != AtRoot
      requires node > 0 && CanCreate(sy, info, model, p, value, node, side)
      requires sy[node].under + update < 0x1_0000
      requires Partly(sy, symbols[..], info, p, value, update, info[node].lo, info[node].hi)
      modifies this, symbols
      ensures Valid()
      ensures symbol == old(nextSymbol) && nextSymbol == old(nextSymbol) + 1
      ensures info == old(info) + [GapInfo(sy, old(info), p, value, node, side)]
      ensures model == WithSymbol(old(model), p, value, update)
      ensures symbols[symbol].parent == 0
      ensures SameParents(sy, symbols[..], old(nextSymbol))
    {
      hide Rep, Partly, SameParents;
      ghost var before := symbols[..];
      RepBounds(sy, info, model);
      NodeUntouched(sy, before, info, p, value, update, node);
      if side == AtLeft {
        symbols[node] := symbols[node].(under := symbols[node].under + update);
      }
      assert symbols[..] == before[node := symbols[node]];
      PathDone(sy, before, symbols[node], info, model, p, value, update, node);
      symbol := CreateSymbol(node, side, value, update, p, sy);
    }

    /** The branch of the walks that has reached the symbol itself. */
    method CountSymbol(node: nat, value: u8, update: u8, ghost p: Path, ghost sy: seq<Symbol>)
      requires symbols.Length == SYMBOLS && nextSymbol == |info|
      requires Rep(sy, info, model) && 0 < node < |info|
      requires OnPath(info[node], p, value) && sy[node].value == value
      requires p in model && |model[p].freq| == 256 && model[p].freq[value] == sy[node].count > 0
      requires sy[node].under + update < 0x1_0000 && sy[node].count + update < 0x100
      requires Partly(sy, symbols[..], info, p, value, update, info[node].lo, info[node].hi)
      modifies symbols, `model
      ensures Valid()
      ensures model == Learn(old(model), p, value, update)
      ensures SameParents(sy, symbols[..], nextSymbol)
    {
      ghost var before := symbols[..];
      assert before[node] == sy[node];
      symbols[node] := symbols[node].(under := symbols[node].under + update, count := symbols[node].count + update);
      assert symbols[..] == before[node := symbols[node]];
      PathDone(sy, before, symbols[node], info, model, p, value, update, node);
      FoundRep(sy, symbols[..], info, model, p, value, update);
      assert forall i :: 0 <= i < nextSymbol ==> symbols[..][i].parent == sy[i].parent by {
        hide Rep;
      }
      model := Learn(model, p, value, update);
    }

    /** ENET_CONTEXT_ENCODE: looks value up in the context, counting it, and creates it
        where it is missing. */
    method EncodeSymbol(c: nat, value: u8, update: u8, minimum: nat) returns (symbol: nat, under: u16, count: u16)
      requires Valid() && c < nextSymbol < SYMBOLS && 0 < update
      requires Room(info[c].path, value, update, minimum)
      modifies this, symbols
      ensures Valid()
      ensures model == LearnedBy(old(model), old(info)[c].path, value, update)
      ensures old(info) <= info
      ensures under == old(Cumulative(model[info[c].path].freq, minimum, value))
      ensures count == minimum + old(model[info[c].path].freq[value])
      ensures symbol < nextSymbol && info[symbol].path == old(info[c].path) + [value]
      ensures symbol >= old(nextSymbol) ==> symbols[symbol].parent == 0
      ensures SameParents(old(symbols[..]), symbols[..], old(nextSymbol))
    {
      hide Rep, Sum, Partly, SameParents;
      ghost var p, f, sy := info[c].path, model[info[c].path].freq, symbols[..];
      RepBounds(sy, info, model);
      SumZero(f, 0, 0);
      under := value * minimum;
      count := minimum;
      if symbols[c].symbols == 0 {
        EnterEmpty(sy, info, model, c);
        SumZero(f, 0, value);
        symbol := CreateSymbol(c, AtRoot, value, update, p, sy);
        return;
      }
      var node;
      node, under := Descend(c, value, update, under);
      ghost var before := symbols[..];
      NodeUntouched(sy, before, info, p, value, update, node);
      NodeSums(sy, info, model, node);
      NodeGaps(sy, info, model, p, value, node);
      if value < symbols[node].value {
        symbol := CreateBelow(node, AtLeft, value, update, p, sy);
      } else if value > symbols[node].value {
        under := under + symbols[node].under;
        symbol := CreateBelow(node, AtRight, value, update, p, sy);
      } else {
        count := count + symbols[node].count;
        under := under + symbols[node].under - symbols[node].count;
        CountSymbol(node, value, update, p, sy);
        symbol := node;
      }
    }

    /** The walk shared by the branches above: stops at the node of value, or where the
        child on its side is missing, with the nodes passed on the left updated. */
    method Descend(c: nat, value: u8, update: u8, base: u16) returns (node: nat, under: u16)
      requires Valid() && c < nextSymbol && symbols[c].symbols != 0
      requires info[c].path in model && |model[info[c].path].freq| == 256
      requires base + Sum(model[info[c].path].freq, 0, 256) + update < 0x1_0000
      modifies symbols
      ensures Rep(old(symbols[..]), info, model)
      ensures 0 < node < nextSymbol && OnPath(info[node], info[c].path, value)
      ensures Partly(old(symbols[..]), symbols[..], info, info[c].path, value, update, info[node].lo, info[node].hi)
      ensures value < symbols[node].value ==> symbols[node].left == 0
      ensures value > symbols[node].value ==> symbols[node].right == 0
      ensures under == base + Sum(model[info[c].path].freq, 0, info[node].lo)
    {
      hide Rep, Sum, Partly, SameParents;
      ghost var p, f, sy := info[c].path, model[info[c].path].freq, symbols[..];
      RepBounds(sy, info, model);
      SumZero(f, 0, 0);
      EnterTree(sy, info, model, c, value, update);
      node := c + symbols[c].symbols;
      under := base;
      while true
        invariant 0 < node < nextSymbol && OnPath(info[node], p, value)
        invariant Partly(sy, symbols[..], info, p, value, update, info[node].lo, info[node].hi)
        invariant under == base + Sum(f, 0, info[node].lo)
        decreases nextSymbol - node
      {
        ghost var before := symbols[..];
        NodeUntouched(sy, before, info, p, value, update, node);
        NodeSums(sy, info, model, node);
        if value < symbols[node].value && symbols[node].left != 0 {
          symbols[node] := symbols[node].(under := symbols[node].under + update);
          assert symbols[..] == before[node := symbols[node]];
          StepLeft(sy, before, symbols[node], info, model, p, value, update, node);
          node := node + symbols[node].left;
        } else if value > symbols[node].value && symbols[node].right != 0 {
          under := under + symbols[node].under;
          StepRight(sy, before, info, model, p, value, update, node);
          node := node + symbols[node].right;
        } else {
          return;
        }
      }
    }

    /** The walk of ENET_CONTEXT_DECODE; v is the value whose share holds the code. */
    method DescendCode(c: nat, code: u16, update: u8, minimum: nat, ghost v: nat) returns (node: nat, under: u16)
      requires Valid() && c < nextSymbol && symbols[c].symbols != 0
      requires info[c].path in model && |model[info[c].path].freq| == 256 && minimum <= 1
      requires Sum(model[info[c].path].freq, 0, 256) + 256 * minimum + update < 0x1_0000
      requires Holds(model[info[c].path].freq, minimum, v, code)
      modifies symbols
      ensures Rep(old(symbols[..]), info, model)
      ensures 0 < node < nextSymbol && info[node].home == info[c].path
      ensures if v < 256 then info[node].lo <= v < info[node].hi else symbols[..] == old(symbols[..])
      ensures Partly(old(symbols[..]), symbols[..], info, info[c].path, v, update, info[node].lo, info[node].hi)
      ensures v < symbols[node].value ==> symbols[node].left == 0
      ensures v > symbols[node].value ==> symbols[node].right == 0
      ensures info[node].lo <= 256 && under == Sum(model[info[c].path].freq, 0, info[node].lo)
    {
      hide Rep, Sum, Partly, Holds, Cumulative;
      ghost var p, f, sy := info[c].path, model[info[c].path].freq, symbols[..];
      RepBounds(sy, info, model);
      SumZero(f, 0, 0);
      HoldsValue(f, minimum, v, code);
      EnterTree(sy, info, model, c, 0, update);
      EnterTree(sy, info, model, c, if v < 256 then v else 0, update);
      if v == 256 {
        StepPast(sy, info, p, update, 0, 256);
      }

      node := c + symbols[c].symbols;
      under := 0;
      while true
        invariant 0 < node < nextSymbol && info[node].home == p
        invariant info[node].lo <= v && (v < info[node].hi || v == 256 == info[node].hi)
        invariant v == 256 ==> symbols[..] == sy
        invariant Partly(sy, symbols[..], info, p, v, update, info[node].lo, info[node].hi)
        invariant under == Sum(f, 0, info[node].lo)
        decreases nextSymbol - node
      {
        ghost var before := symbols[..];
        NodeUntouched(sy, before, info, p, v, update, node);
        NodeSums(sy, info, model, node);
        CodeTests(f, minimum, v, code, symbols[node].value, under, symbols[node].under, symbols[node].count);
        var after: u16, own := under + symbols[node].under + (symbols[node].value + 1) * minimum, symbols[node].count
          + minimum;
        if code >= after && symbols[node].right != 0 {
          under := under + symbols[node].under;
          if v < 256 {
            StepRight(sy, before, info, model, p, v, update, node);
          } else {
            StepPast(sy, info, p, update, symbols[node].value + 1, info[node].hi);
          }
          node := node + symbols[node].right;
        } else if code < after - own && symbols[node].left != 0 {
          symbols[node] := symbols[node].(under := symbols[node].under + update);
          assert symbols[..] == before[node := symbols[node]];
          StepLeft(sy, before, symbols[node], info, model, p, v, update, node);
          node := node + symbols[node].left;
        } else {
          return;
        }
      }
    }

    /** ENET_CONTEXT_TRY_DECODE: finds the symbol whose share holds the code and counts
        it; fails, changing nothing, exactly when the code is past the table. */
    method TryDecode(c: nat, code: u16, update: u8, ghost v: nat)
      returns (ok: bool, symbol: nat, value: u8, under: u16, count: u16)
      requires Valid() && c < nextSymbol && 0 < update
      requires info[c].path in model && |model[info[c].path].freq| == 256
      requires Sum(model[info[c].path].freq, 0, 256) + update < 0x1_0000
      requires Holds(model[info[c].path].freq, 0, v, code)
      requires v < 256 ==> model[info[c].path].freq[v] + update < 0x100
      modifies symbols, `model
      ensures Valid() && ok == (v < 256)
      ensures !ok ==> model == old(model) && symbols[..] == old(symbols[..])
      ensures ok ==>
        value == v && old(model)[info[c].path].freq[v] > 0 && model == Learn(old(model), info[c].path, value, update)
      ensures ok ==>
        under == Cumulative(old(model)[info[c].path].freq, 0, v) && count == old(model)[info[c].path].freq[v]
      ensures ok ==> symbol < nextSymbol && info[symbol].path == info[c].path + [value]
      ensures SameParents(old(symbols[..]), symbols[..], nextSymbol)
    {
      hide Rep, Sum, Partly;
      ghost var p, f, sy := info[c].path, model[info[c].path].freq, symbols[..];
      RepBounds(sy, info, model);
      SumZero(f, 0, 0);
      HoldsValue(f, 0, v, code);
      ok, symbol, value, under, count := false, 0, 0, 0, 0;
      if symbols[c].symbols == 0 {
        EnterEmpty(sy, info, model, c);
        SumZero(f, 0, if v < 256 then v + 1 else 256);
        return;
      }
      var node;
      node, under := DescendCode(c, code, update, 0, v);
      NodeUntouched(sy, symbols[..], info, p, v, update, node);
      NodeSums(sy, info, model, node);
      CodeSide(f, 0, v, code, symbols[node].value);
      var after: u16, own := under + symbols[node].under, symbols[node].count;
      if code >= after {
        if v < 256 {
          NodeGaps(sy, info, model, p, v, node);
        }
        return;
      }
      if code < after - own {
        NodeGaps(sy, info, model, p, v, node);
        assert false;
      }
      ok := true;
      value := symbols[node].value;
      count := symbols[node].count;
      under := after - own;
      CountSymbol(node, value, update, p, sy);
      symbol := node;
    }

    /** ENET_CONTEXT_ROOT_DECODE: every value has a share of at least one, so the value is
        found in the tree or computed from its neighbour and created. */
    method RootDecode(c: nat, code: u16, update: u8, ghost v: nat)
      returns (symbol: nat, value: u8, under: u16, count: u16)
      requires Valid() && c < nextSymbol < SYMBOLS && 0 < update
      requires v < 256 && Room(info[c].path, v, update, 1)
      requires Holds(model[info[c].path].freq, 1, v, code)
      modifies this, symbols
      ensures Valid() && value == v
      ensures model == LearnedBy(old(model), old(info)[c].path, v, update)
      ensures old(info) <= info
      ensures under == old(Cumulative(model[info[c].path].freq, 1, v))
      ensures count == 1 + old(model[info[c].path].freq[v])
      ensures symbol < nextSymbol && info[symbol].path == old(info[c].path) + [value]
      ensures symbol >= old(nextSymbol) ==> symbols[symbol].parent == 0
      ensures SameParents(old(symbols[..]), symbols[..], old(nextSymbol))
    {
      hide Rep, Sum, Partly, SameParents;
      ghost var p, f, sy := info[c].path, model[info[c].path].freq, symbols[..];
      RepBounds(sy, info, model);
      SumZero(f, 0, 0);
      count := 1;
      if symbols[c].symbols == 0 {
        EnterEmpty(sy, info, model, c);
        SumZero(f, 0, v + 1);
        SumZero(f, 0, v);
        value := code;
        under := code;
        symbol := CreateSymbol(c, AtRoot, value, update, p, sy);
        return;
      }
      var node;
      node, under := DescendCode(c, code, update, 1, v);
      ghost var before := symbols[..];
      NodeUntouched(sy, before, info, p, v, update, node);
      NodeSums(sy, info, model, node);
      NodeGaps(sy, info, model, p, v, node);
      GapCodes(sy, info, model, p, v, code, node);
      CodeSide(f, 1, v, code, symbols[node].value);
      var after: u16, own := under + symbols[node].under + symbols[node].value + 1, symbols[node].count + 1;
      if code >= after {
        value := symbols[node].value + 1 + (code - after);
        under := code;
        symbol := CreateBelow(node, AtRight, value, update, p, sy);
      } else if code < after - own {
        value := symbols[node].value - 1 - (after - own - code - 1);
        under := code;
        symbol := CreateBelow(node, AtLeft, value, update, p, sy);
      } else {
        value := symbols[node].value;
        count := count + symbols[node].count;
        under := after - own;
        CountSymbol(node, value, update, p, sy);
        symbol := node;
      }
    }

    /** enet_symbol_rescale: halves the counts of a subtree, rebuilding the cached sums on
        the way up, and returns the new sum of its counts. */
    method RescaleSymbols(first: nat, ghost sy: seq<Symbol>, ghost p: Path, ghost h: seq<nat>) returns (total: u16)
      requires symbols.Length == SYMBOLS && nextSymbol == |info| && Rep(sy, info, model)
      requires 0 < first < nextSymbol && info[first].home == p && info[first].lo <= info[first].hi <= 256
      requires p in model && |model[p].freq| == 256 && h == Halved(model[p].freq) && Sum(h, 0, 256) < 0x1_0000
      requires SameLinks(sy, symbols[..]) && Untouched(sy, symbols[..], info, p, info[first].lo, info[first].hi)
      modifies symbols
      ensures SameLinks(sy, symbols[..])
      ensures Progress(sy, old(symbols[..]), symbols[..], info, model, p, info[first].lo, info[first].hi,
        info[first].hi)
      ensures total == Sum(h, info[first].lo, info[first].hi)
      decreases nextSymbol - first
    {
      hide Rep, Sum, SameLinks, Untouched, Progress;
      ghost var lo, hi, start := info[first].lo, info[first].hi, symbols[..];
      var symbol := first;
      total := 0;
      RepBounds(sy, info, model);
      SumZero(h, lo, lo);
      ProgressStarts(sy, start, info, model, p, lo, hi);
      while true
        invariant 0 < symbol < nextSymbol && info[symbol].home == p && info[symbol].hi == hi
          && lo <= info[symbol].lo <= hi
        invariant SameLinks(sy, symbols[..]) && Untouched(sy, symbols[..], info, p, info[symbol].lo, hi)
        invariant Progress(sy, start, symbols[..], info, model, p, lo, hi, info[symbol].lo)
        invariant total == Sum(h, lo, info[symbol].lo)
        decreases nextSymbol - symbol
      {
        ghost var here := symbols[..];
        total := RescaleNode(symbol, total, sy, p, h, lo);
        ProgressChain(sy, start, here, symbols[..], info, model, p, lo, info[symbol].lo, hi, sy[symbol].value + 1);
        NodeSums(sy, info, model, symbol);
        LinkOf(sy, symbols[..], symbol);
        if symbols[symbol].right == 0 {
          ShrinkRight(sy, info, model, h, lo, symbol);
          ProgressEnds(sy, start, symbols[..], info, model, p, lo, hi, symbol);
          return;
        }
        symbol := symbol + symbols[symbol].right;
      }
    }

    /** One round of the loop: a node and, recursively, its left subtree. */
    method RescaleNode(symbol: nat, before: u16, ghost sy: seq<Symbol>, ghost p: Path, ghost h: seq<nat>, ghost lo: nat)
      returns (total: u16)
      requires symbols.Length == SYMBOLS && nextSymbol == |info| && Rep(sy, info, model)
      requires 0 < symbol < nextSymbol && info[symbol].home == p && lo <= info[symbol].lo <= 256
      requires p in model && |model[p].freq| == 256 && h == Halved(model[p].freq) && Sum(h, 0, 256) < 0x1_0000
      requires SameLinks(sy, symbols[..]) && Untouched(sy, symbols[..], info, p, info[symbol].lo, info[symbol].hi)
      requires before == Sum(h, lo, info[symbol].lo)
      modifies symbols
      ensures SameLinks(sy, symbols[..])
      ensures info[symbol].lo <= sy[symbol].value < info[symbol].hi <= 256
      ensures Progress(sy, old(symbols[..]), symbols[..], info, model, p, info[symbol].lo, info[symbol].hi,
        sy[symbol].value + 1)
      ensures total == Sum(h, lo, sy[symbol].value + 1)
      decreases nextSymbol - symbol, 0
    {
      hide Rep, Sum, SameLinks, Untouched, Progress;
      ghost var from := symbols[..];
      RepBounds(sy, info, model);
      NodeSums(sy, info, model, symbol);
      ShrinkSums(sy, info, model, h, lo, symbol);
      SumInside(h, lo, sy[symbol].value + 1);
      LinkOf(sy, from, symbol);
      NodeChanged(sy, from, from[symbol], info, model, p, symbol);
      symbols[symbol] := symbols[symbol].(count := symbols[symbol].count - symbols[symbol].count / 2);
      symbols[symbol] := symbols[symbol].(under := symbols[symbol].count);
      ghost var mid := symbols[..];
      assert mid == from[symbol := mid[symbol]];
      NodeChanged(sy, from, mid[symbol], info, model, p, symbol);
      if symbols[symbol].left != 0 {
        var child := symbol + symbols[symbol].left;
        assert Subtree(info, child, p, info[symbol].lo, sy[symbol].value);
        var left := RescaleSymbols(child, sy, p, h);
        assert Progress(sy, mid, symbols[..], info, model, p, info[symbol].lo, sy[symbol].value, sy[symbol].value);
        ProgressKeeps(sy, mid, symbols[..], info, model, p, info[symbol].lo, sy[symbol].value, sy[symbol].value,
          symbol);
        mid := symbols[..];
        symbols[symbol] := symbols[symbol].(under := symbols[symbol].under + left);
        assert symbols[..] == mid[symbol := symbols[symbol]];
        NodeChanged(sy, mid, symbols[symbol], info, model, p, symbol);
      } else {
        mid := from;
      }
      total := before + symbols[symbol].under;
      assert ShrunkAt(sy, symbols[..], info, model, symbol);
      assert forall j :: 0 <= j < SYMBOLS && j != symbol ==> symbols[..][j] == mid[j];
      ProgressNode(sy, from, mid, symbols[..], info, model, p, symbol);
    }

    /** Stores a context's escapes and total. */
    method SetFields(c: nat, escapes: u16, total: u16)
      requires Valid() && c < nextSymbol
      modifies symbols, `model
      ensures Valid() && info[c].path in old(model)
      ensures model == WithFields(old(model), info[c].path, escapes, total)
      ensures symbols[c] == old(symbols[c]).(escapes := escapes, total := total)
      ensures SameParents(old(symbols[..]), symbols[..], nextSymbol)
    {
      hide Rep;
      RepBounds(symbols[..], info, model);
      FieldsRep(symbols[..], info, model, c, escapes, total);
      ghost var done := symbols[..];
      symbols[c] := symbols[c].(escapes := escapes, total := total);
      assert symbols[..] == done[c := symbols[c]];
      model := WithFields(model, info[c].path, escapes, total);
    }

    /** ENET_CONTEXT_RESCALE. */
    method RescaleContext(c: nat, minimum: nat)
      requires Valid() && c < nextSymbol && minimum <= 1
      requires info[c].path in model && |model[info[c].path].freq| == 256
      requires Rescaled(model[info[c].path], minimum).total < 0x1_0000
      modifies symbols, `model
      ensures Valid()
      ensures model == old(model)[info[c].path := Rescaled(old(model)[info[c].path], minimum)]
      ensures SameParents(old(symbols[..]), symbols[..], nextSymbol)
    {
      hide Rep, Sum, SameParents;
      ghost var p, m, before := info[c].path, model, symbols[..];
      ContextFields(before, info, m, c);
      RepBounds(before, info, m);
      var total := RescaleTree(c);
      ghost var middle := symbols[..];
      var escapes := symbols[c].escapes - symbols[c].escapes / 2;
      SetFields(c, escapes, total + escapes + 256 * minimum);
      SameParentsChain(before, middle, symbols[..], nextSymbol);
    }

    /** The first line of the macro: rescales the context's tree, if it has one. */
    method RescaleTree(c: nat) returns (total: u16)
      requires Valid() && c < nextSymbol
      requires info[c].path in model && |model[info[c].path].freq| == 256
      requires Sum(Halved(model[info[c].path].freq), 0, 256) < 0x1_0000
      modifies symbols, `model
      ensures Valid()
      ensures var p := info[c].path; model == old(model)[p := old(model)[p].(freq := Halved(old(model)[p].freq))]
      ensures total == Sum(Halved(old(model)[info[c].path].freq), 0, 256)
      ensures symbols[c].escapes == old(symbols[c].escapes)
      ensures SameParents(old(symbols[..]), symbols[..], nextSymbol)
    {
      hide Rep, Progress, SameLinks, Untouched, Sum, SameParents, Partly, OnPath;
      ghost var p, m, sy := info[c].path, model, symbols[..];
      ghost var h := Halved(m[p].freq);
      RepBounds(sy, info, m);
      total := 0;
      if symbols[c].symbols != 0 {
        EnterTree(sy, info, m, c, 0, 0);
        RescaleStarts(sy, info, p);
        total := RescaleSymbols(c + symbols[c].symbols, sy, p, h);
      } else {
        EnterEmpty(sy, info, m, c);
        SumZero(h, 0, 256);
      }
      RescaleDone(sy, symbols[..], info, m, p, c);
      model := m[p := m[p].(freq := h)];
    }

    /** What every coder does to a context after its walk: learning an escape for a new
        symbol, growing the total, and rescaling when the symbol's old count or the total
        has become too large.  m is the model before the walk. */
    method Settle(c: nat, value: u8, count: u16, minimum: nat, ghost m: Model)
      requires Valid() && c < nextSymbol
      requires ModelOk(m) && info[c].path in m && |info[c].path| <= 2
      requires minimum == Minimum(info[c].path) && count == minimum + m[info[c].path].freq[value]
      requires model == LearnedFrom(m, info[c].path, value)
      modifies symbols, `model
      ensures Valid() && model == Touch(m, info[c].path, value)
      ensures SameParents(old(symbols[..]), symbols[..], nextSymbol)
    {
      hide Rep, Sum, ModelOk, ContextOk, Touch, LearnedFrom, LearnedBy, Grown, WithFields, Rescaled, SameParents;
      ghost var p, before := info[c].path, symbols[..];
      RepBounds(before, info, model);
      SettleBounds(m, p, value);
      SettleFields(before, info, m, model, c, value);
      SettledModel(m, p, value);
      var delta := if minimum == 1 then 3 else 2;
      var limit := 0xFF - 2 * delta + minimum;
      var learn := if count == 0 then 5 else 0;
      SetFields(c, symbols[c].escapes + learn, symbols[c].total + learn + delta);
      ghost var grown := symbols[..];
      assert symbols[c].total == Grown(m[p], p, value).total;
      if count > limit || symbols[c].total > RESCALE_TOTAL {
        assert NeedsRescale(m[p], p, value);
        RescaleContext(c, minimum);
        SameParentsChain(before, grown, symbols[..], nextSymbol);
      } else {
        assert !NeedsRescale(m[p], p, value);
      }
    }

    /** The store through the source's `parent` pointer. */
    method StoreParent(link: nat, symbol: nat)
      requires Valid() && link < nextSymbol && symbol < nextSymbol
      modifies symbols
      ensures Valid()
      ensures symbols[..] == old(symbols[..])[link := old(symbols[link]).(parent := symbol)]
    {
      ghost var before := symbols[..];
      ParentRep(before, info, model, link, symbol);
      symbols[link] := symbols[link].(parent := symbol);
      assert symbols[..] == before[link := symbols[link]];
    }

    /** nextSymbol = 0 and ENET_CONTEXT_CREATE of the root. */
    method CreateRoot()
      requires symbols.Length == SYMBOLS
      modifies this, symbols
      ensures Valid() && model == map[[] := Root()] && nextSymbol == 1
      ensures info[0].path == [] && Parents(symbols[..], info, -1)
    {
      symbols[0] := Fresh(0, 0).(escapes := 1, total := 257);
      nextSymbol := 1;
      info := [Info([], [], 0, 0)];
      model := map[[] := Root()];
      assert ContextRep(symbols[..], info, model, 0);
    }
  }

  lemma RoomOk(m: Model, p: Path, v: u8)
    requires ModelOk(m) && p in m && |p| <= 2
    ensures |m[p].freq| == 256 && SymbolOk(m, p, v)
    ensures Sum(m[p].freq, 0, 256) + 256 * Minimum(p) + Delta(p) < 0x1_0000
    ensures m[p].freq[v] + Delta(p) < 0x100
  {
  }
}
