/** The array of symbols behind the model: every context owns a binary search tree of
    its symbols, linked by relative offsets, in which each node caches the counts of
    its left subtree plus its own.

    The representation invariant is local to a node.  Ghost information gives every
    node the context it belongs to and the interval [lo, hi) of values its subtree
    may hold; a missing child means that part of the frequency table is empty. */
module SymbolTree {
  import opened Words
  import opened RangeInterval
  import opened FrequencyModel

  datatype Symbol = Symbol(value: u8, count: u8, under: u16, left: u16, right: u16,
                           symbols: u16, escapes: u16, total: u16, parent: u16)

  datatype Info = Info(path: Path, home: Path, lo: nat, hi: nat)

  function Fresh(value: u8, count: u8): (s: Symbol)
  {
    Symbol(value, count, count, 0, 0, 0, 0, 0, 0)
  }

  // ---------- The representation invariant ----------

  /** The subtree at index r of context p covers the values [lo, hi). */
  predicate Subtree(g: seq<Info>, r: int, p: Path, lo: int, hi: int)
  {
    0 < r < |g| && g[r].home == p && g[r].lo == lo && g[r].hi == hi
  }

  predicate ContextRep(sy: seq<Symbol>, g: seq<Info>, m: Model, i: nat)
    requires i < |g| <= |sy|
  {
    var s, p := sy[i], g[i].path;
    && p in m && |m[p].freq| == 256
    && s.escapes == m[p].escapes && s.total == m[p].total
    && (if s.symbols == 0 then Zero(m[p].freq, 0, 256) else Subtree(g, i + s.symbols, p, 0, 256))
  }

  predicate NodeRep(sy: seq<Symbol>, g: seq<Info>, m: Model, i: nat)
    requires i < |g| <= |sy|
  {
    var s, n := sy[i], g[i];
    && n.home in m && |m[n.home].freq| == 256
    && n.path == n.home + [s.value]
    && n.lo <= s.value < n.hi <= 256
    && s.count == m[n.home].freq[s.value] > 0
    && s.under == Sum(m[n.home].freq, n.lo, s.value + 1)
    && (if s.left == 0 then Zero(m[n.home].freq, n.lo, s.value) else Subtree(g, i + s.left, n.home, n.lo, s.value))
    && (if s.right == 0 then Zero(m[n.home].freq, s.value + 1, n.hi)
       else Subtree(g, i + s.right, n.home, s.value + 1, n.hi))
  }

  /** Node j lies in the left or the right part of node i. */
  predicate Below(sy: seq<Symbol>, g: seq<Info>, i: nat, j: nat)
    requires i < |g| <= |sy| && j < |g|
  {
    (g[i].lo <= g[j].lo && g[j].hi <= sy[i].value) || (sy[i].value < g[j].lo && g[j].hi <= g[i].hi)
  }

  /** Two nodes of one context have disjoint intervals, or one lies below the other. */
  predicate Laminar(sy: seq<Symbol>, g: seq<Info>, i: nat, j: nat)
    requires i < |g| <= |sy| && j < |g|
  {
    i != j && g[i].home == g[j].home && g[i].lo < g[j].hi && g[j].lo < g[i].hi ==>
      Below(sy, g, i, j) || Below(sy, g, j, i)
  }

  predicate Contexts(sy: seq<Symbol>, g: seq<Info>, m: Model)
    requires |g| <= |sy|
  {
    forall i {:trigger ContextRep(sy, g, m, i)} :: 0 <= i < |g| ==> ContextRep(sy, g, m, i)
  }

  predicate Nodes(sy: seq<Symbol>, g: seq<Info>, m: Model)
    requires |g| <= |sy|
  {
    forall i {:trigger NodeRep(sy, g, m, i)} :: 0 < i < |g| ==> NodeRep(sy, g, m, i)
  }

  predicate AllLaminar(sy: seq<Symbol>, g: seq<Info>)
    requires |g| <= |sy|
  {
    forall i, j {:trigger Laminar(sy, g, i, j)} :: 0 < i < |g| && 0 < j < |g| ==> Laminar(sy, g, i, j)
  }

  predicate Distinct(g: seq<Info>)
  {
    forall i, j :: 0 <= i < j < |g| ==> g[i].path != g[j].path
  }

  predicate Rep(sy: seq<Symbol>, g: seq<Info>, m: Model)
  {
    && |sy| == SYMBOLS
    && 0 < |g| <= SYMBOLS
    && g[0].path == []
    && |m| == |g|
    && Distinct(g)
    && Contexts(sy, g, m)
    && Nodes(sy, g, m)
    && AllLaminar(sy, g)
  }

  /** Every symbol's parent is the same symbol one order lower; `pending` is the symbol
      just created whose parent is not linked yet. */
  predicate Parents(sy: seq<Symbol>, g: seq<Info>, pending: int)
    requires |g| <= |sy|
  {
    forall i :: 0 < i < |g| && i != pending ==>
      sy[i].parent < |g| && g[i].path != [] && g[sy[i].parent].path == g[i].path[1..]
  }

  // ---------- Growing a count ----------

  /** The frequency table after value v of context p gained d. */
  function Learn(m: Model, p: Path, v: u8, d: nat): (r: Model)
    requires p in m && |m[p].freq| == 256
  {
    m[p := m[p].(freq := m[p].freq[v := m[p].freq[v] + d])]
  }

  /** Value v falls in the subtree of the node. */
  predicate OnPath(n: Info, p: Path, v: int)
  {
    n.home == p && n.lo <= v < n.hi
  }

  predicate Bumped(s: Symbol, t: Symbol, v: int, d: nat)
  {
    if v > s.value then t == s
    else
      && s.under + d < 0x1_0000
      && (v == s.value ==> s.count + d < 0x100)
      && t == s.(under := s.under + d, count := if v == s.value then s.count + d else s.count)
  }

  /** The nodes above [lo, hi) on the way to v are updated, the others are not. */
  predicate Partly(sy: seq<Symbol>, sy': seq<Symbol>, g: seq<Info>, p: Path, v: int, d: nat, lo: int, hi: int)
    requires |g| <= |sy| == |sy'|
  {
    forall i :: 0 <= i < |sy| ==>
      if 0 < i < |g| && OnPath(g[i], p, v) && (g[i].lo < lo || hi < g[i].hi)
      then Bumped(sy[i], sy'[i], v, d) else sy'[i] == sy[i]
  }

  predicate Fully(sy: seq<Symbol>, sy': seq<Symbol>, g: seq<Info>, p: Path, v: int, d: nat)
    requires |g| <= |sy| == |sy'|
  {
    forall i :: 0 <= i < |sy| ==>
      if 0 < i < |g| && OnPath(g[i], p, v) then Bumped(sy[i], sy'[i], v, d) else sy'[i] == sy[i]
  }

  lemma StepLeft(sy: seq<Symbol>, sy': seq<Symbol>, t: Symbol, g: seq<Info>, m: Model, p: Path, v: int, d: nat,
                 node: nat)
    requires Rep(sy, g, m) && |sy'| == |sy| && 0 < node < |g|
    requires OnPath(g[node], p, v) && v < sy[node].value
    requires Partly(sy, sy', g, p, v, d, g[node].lo, g[node].hi)
    requires Bumped(sy[node], t, v, d)
    ensures Partly(sy, sy'[node := t], g, p, v, d, g[node].lo, sy[node].value)
  {
    assert NodeRep(sy, g, m, node);
    forall i | 0 < i < |g| && i != node && OnPath(g[i], p, v)
      ensures g[i].lo < g[node].lo || g[node].hi < g[i].hi <==> g[i].lo < g[node].lo || sy[node].value < g[i].hi
    {
      assert NodeRep(sy, g, m, i);
      assert Laminar(sy, g, node, i);
    }
  }

  lemma StepRight(sy: seq<Symbol>, sy': seq<Symbol>, g: seq<Info>, m: Model, p: Path, v: int, d: nat, node: nat)
    requires Rep(sy, g, m) && |sy'| == |sy| && 0 < node < |g|
    requires OnPath(g[node], p, v) && v > sy[node].value
    requires Partly(sy, sy', g, p, v, d, g[node].lo, g[node].hi)
    ensures Partly(sy, sy', g, p, v, d, sy[node].value + 1, g[node].hi)
  {
    assert NodeRep(sy, g, m, node);
    forall i | 0 < i < |g| && i != node && OnPath(g[i], p, v)
      ensures g[i].lo < g[node].lo || g[node].hi < g[i].hi <==> g[i].lo < sy[node].value + 1 || g[node].hi < g[i].hi
    {
      assert NodeRep(sy, g, m, i);
      assert Laminar(sy, g, node, i);
    }
  }

  /** At the node of v itself, or above a gap that holds v, the whole path is done. */
  lemma PathDone(sy: seq<Symbol>, sy': seq<Symbol>, t: Symbol, g: seq<Info>, m: Model, p: Path, v: int, d: nat,
                 node: nat)
    requires Rep(sy, g, m) && |sy'| == |sy| && 0 < node < |g|
    requires OnPath(g[node], p, v)
    requires v < sy[node].value ==> sy[node].left == 0
    requires v > sy[node].value ==> sy[node].right == 0
    requires Partly(sy, sy', g, p, v, d, g[node].lo, g[node].hi)
    requires Bumped(sy[node], t, v, d)
    ensures Fully(sy, sy'[node := t], g, p, v, d)
  {
    forall i | 0 < i < |g| && i != node && OnPath(g[i], p, v)
      ensures g[i].lo < g[node].lo || g[node].hi < g[i].hi
    {
      assert NodeRep(sy, g, m, node) && NodeRep(sy, g, m, i);
      assert Laminar(sy, g, node, i);
    }
  }

  // ---------- What a finished update represents ----------

  lemma SumLearn(f: seq<nat>, v: nat, d: nat, lo: nat, hi: nat)
    requires v < |f| && lo <= hi <= |f|
    ensures Sum(f[v := f[v] + d], lo, hi) == Sum(f, lo, hi) + if lo <= v < hi then d else 0
  {
    SumUpdate(f, v, f[v] + d, lo, hi);
  }

  /** One node whose links did not change. */
  lemma NodeLearns(sy: seq<Symbol>, sy': seq<Symbol>, g: seq<Info>, g': seq<Info>, m: Model, m': Model, p: Path, v: u8,
                   d: nat, i: nat)
    requires i < |g| <= |g'| && |g| <= |sy| && |g'| <= |sy'| && g == g'[..|g|]
    requires p in m && |m[p].freq| == 256 && m' == Learn(m, p, v, d)
    requires m[p].freq[v] > 0
    requires NodeRep(sy, g, m, i)
    requires if OnPath(g[i], p, v) then Bumped(sy[i], sy'[i], v, d) else sy'[i] == sy[i]
    ensures NodeRep(sy', g', m', i)
  {
    var f := m[g[i].home].freq;
    SumLearn(f, v, d, g[i].lo, sy[i].value + 1);
    assert g'[i] == g[i];
  }

  lemma ContextLearns(sy: seq<Symbol>, sy': seq<Symbol>, g: seq<Info>, m: Model, p: Path, v: u8, d: nat, i: nat)
    requires i < |g| <= |sy| && |g| <= |sy'|
    requires p in m && |m[p].freq| == 256
    requires m[p].freq[v] > 0
    requires ContextRep(sy, g, m, i)
    requires sy'[i].symbols == sy[i].symbols && sy'[i].escapes == sy[i].escapes && sy'[i].total == sy[i].total
    ensures ContextRep(sy', g, Learn(m, p, v, d), i)
  {
  }

  /** The symbol existed: its count and the cached sums above it have grown. */
  lemma FoundRep(sy: seq<Symbol>, sy': seq<Symbol>, g: seq<Info>, m: Model, p: Path, v: u8, d: nat)
    requires Rep(sy, g, m) && |sy'| == |sy|
    requires p in m && |m[p].freq| == 256 && m[p].freq[v] > 0
    requires Fully(sy, sy', g, p, v, d)
    ensures Rep(sy', g, Learn(m, p, v, d))
  {
    var m' := Learn(m, p, v, d);
    assert m'.Keys == m.Keys;
    assert |m'| == |m'.Keys| && |m| == |m.Keys|;
    forall i | 0 <= i < |g|
      ensures ContextRep(sy', g, m', i)
    {
      assert ContextRep(sy, g, m, i);
      ContextLearns(sy, sy', g, m, p, v, d, i);
    }
    forall i | 0 < i < |g|
      ensures NodeRep(sy', g, m', i)
    {
      assert NodeRep(sy, g, m, i);
      NodeLearns(sy, sy', g, g, m, m', p, v, d, i);
    }
    forall i, j | 0 < i < |g| && 0 < j < |g|
      ensures Laminar(sy', g, i, j)
    {
      assert Laminar(sy, g, i, j);
    }
  }

  // ---------- Creating a symbol ----------

  datatype Side = AtRoot | AtLeft | AtRight

  /** Where the new node hangs: below node q, or as the first symbol of context q. */
  predicate Hangs(sy: seq<Symbol>, g: seq<Info>, p: Path, v: u8, q: nat, side: Side)
    requires q < |g| <= |sy|
  {
    match side
    case AtRoot => g[q].path == p && sy[q].symbols == 0
    case AtLeft => q > 0 && OnPath(g[q], p, v) && v < sy[q].value && sy[q].left == 0
    case AtRight => q > 0 && OnPath(g[q], p, v) && v > sy[q].value && sy[q].right == 0
  }

  function GapInfo(sy: seq<Symbol>, g: seq<Info>, p: Path, v: u8, q: nat, side: Side): (r: Info)
    requires q < |g| <= |sy|
  {
    match side
    case AtRoot => Info(p + [v], p, 0, 256)
    case AtLeft => Info(p + [v], p, g[q].lo, sy[q].value)
    case AtRight => Info(p + [v], p, sy[q].value + 1, g[q].hi)
  }

  function Linked(s: Symbol, side: Side, offset: u16): (t: Symbol)
  {
    match side
    case AtRoot => s.(symbols := offset)
    case AtLeft => s.(left := offset)
    case AtRight => s.(right := offset)
  }

  function WithSymbol(m: Model, p: Path, v: u8, d: nat): (r: Model)
    requires p in m && |m[p].freq| == 256
  {
    Learn(m, p, v, d)[p + [v] := Empty()]
  }

  predicate CanCreate(sy: seq<Symbol>, g: seq<Info>, m: Model, p: Path, v: u8, q: nat, side: Side)
  {
    && Rep(sy, g, m) && |g| < SYMBOLS && q < |g|
    && p in m && |m[p].freq| == 256 && m[p].freq[v] == 0 && p + [v] !in m
    && Hangs(sy, g, p, v, q, side)
  }

  /** The gap the new node fills is empty in the table and lies apart from, or below,
      every other node of the context. */
  lemma GapIsEmpty(sy: seq<Symbol>, g: seq<Info>, m: Model, p: Path, v: u8, q: nat, side: Side)
    requires CanCreate(sy, g, m, p, v, q, side)
    ensures var n := GapInfo(sy, g, p, v, q, side);
            n.lo <= v < n.hi <= 256 && Zero(m[p].freq, n.lo, n.hi)
  {
    assert ContextRep(sy, g, m, q);
    if side != AtRoot {
      assert NodeRep(sy, g, m, q);
    }
  }

  lemma GapApart(sy: seq<Symbol>, g: seq<Info>, m: Model, p: Path, v: u8, q: nat, side: Side, i: nat)
    requires CanCreate(sy, g, m, p, v, q, side)
    requires 0 < i < |g| && g[i].home == p
    ensures side != AtRoot
    ensures var n := GapInfo(sy, g, p, v, q, side);
            && (n.lo < g[i].hi && g[i].lo < n.hi ==>
                 (g[i].lo <= n.lo && n.hi <= sy[i].value) || (sy[i].value < n.lo && n.hi <= g[i].hi))
            && (i != q && g[i].lo <= v < sy[i].value ==> sy[i].left != 0)
            && (i != q && sy[i].value < v < g[i].hi ==> sy[i].right != 0)
  {
    GapIsEmpty(sy, g, m, p, v, q, side);
    assert NodeRep(sy, g, m, i);
    if side != AtRoot {
      assert NodeRep(sy, g, m, q);
      assert Laminar(sy, g, q, i);
    }
  }

  lemma NodeKeeps(sy: seq<Symbol>, sy': seq<Symbol>, g: seq<Info>, m: Model, p: Path, v: u8, d: nat, q: nat, side: Side,
                  i: nat)
    requires CanCreate(sy, g, m, p, v, q, side) && |sy'| == |sy| && d > 0
    requires 0 < i < |g| && i != q
    requires if OnPath(g[i], p, v) then Bumped(sy[i], sy'[i], v, d) else sy'[i] == sy[i]
    ensures NodeRep(sy', g + [GapInfo(sy, g, p, v, q, side)], WithSymbol(m, p, v, d), i)
  {
    assert NodeRep(sy, g, m, i);
    var f := m[g[i].home].freq;
    if g[i].home == p {
      GapApart(sy, g, m, p, v, q, side, i);
      SumLearn(f, v, d, g[i].lo, sy[i].value + 1);
      GapIsEmpty(sy, g, m, p, v, q, side);
    }
  }

  lemma NodeLinks(sy: seq<Symbol>, sy': seq<Symbol>, t: Symbol, g: seq<Info>, m: Model, p: Path, v: u8, d: nat, q: nat,
                  side: Side)
    requires CanCreate(sy, g, m, p, v, q, side) && |sy'| == |sy| && d > 0
    requires q > 0
    requires side == AtRoot ==> t == sy[q]
    requires side != AtRoot ==> Bumped(sy[q], t, v, d)
    requires sy'[q] == Linked(t, side, |g| - q)
    ensures NodeRep(sy', g + [GapInfo(sy, g, p, v, q, side)], WithSymbol(m, p, v, d), q)
  {
    assert NodeRep(sy, g, m, q);
    assert ContextRep(sy, g, m, q);
    var f := m[g[q].home].freq;
    if side != AtRoot {
      SumLearn(f, v, d, g[q].lo, sy[q].value + 1);
    } else {
      assert |g[q].home| < |p|;
    }
  }

  lemma NewNode(sy: seq<Symbol>, sy': seq<Symbol>, g: seq<Info>, m: Model, p: Path, v: u8, d: nat, q: nat, side: Side)
    requires CanCreate(sy, g, m, p, v, q, side) && |sy'| == |sy| && 0 < d < 256
    requires sy'[|g|] == Fresh(v, d)
    ensures NodeRep(sy', g + [GapInfo(sy, g, p, v, q, side)], WithSymbol(m, p, v, d), |g|)
    ensures ContextRep(sy', g + [GapInfo(sy, g, p, v, q, side)], WithSymbol(m, p, v, d), |g|)
  {
    var n := GapInfo(sy, g, p, v, q, side);
    GapIsEmpty(sy, g, m, p, v, q, side);
    SumLearn(m[p].freq, v, d, n.lo, v + 1);
    SumZero(m[p].freq, n.lo, v + 1);
    EmptyIsOk(p + [v]);
    hide Sum;
  }

  lemma SubtreeStays(g: seq<Info>, n: Info, r: int, p: Path, lo: int, hi: int)
    requires Subtree(g, r, p, lo, hi)
    ensures Subtree(g + [n], r, p, lo, hi)
  {
  }

  /** A context the new symbol does not belong to. */
  lemma OtherContextKeeps(sy: seq<Symbol>, sy': seq<Symbol>, g: seq<Info>, n: Info, m: Model, p: Path, v: u8, d: nat,
                          i: nat)
    requires i < |g| < |sy| == |sy'| && p in m && |m[p].freq| == 256 && ContextRep(sy, g, m, i)
    requires g[i].path != p && p + [v] !in m
    requires sy'[i].escapes == sy[i].escapes && sy'[i].total == sy[i].total && sy'[i].symbols == sy[i].symbols
    ensures ContextRep(sy', g + [n], WithSymbol(m, p, v, d), i)
  {
    hide Subtree;
    var q := g[i].path;
    assert (g + [n])[i] == g[i] && WithSymbol(m, p, v, d)[q] == m[q];
    if sy[i].symbols != 0 {
      SubtreeStays(g, n, i + sy[i].symbols, q, 0, 256);
    }
  }

  /** The context the new symbol belongs to, when that is not empty: its root stays. */
  lemma OwnContextKeeps(sy: seq<Symbol>, sy': seq<Symbol>, g: seq<Info>, n: Info, m: Model, p: Path, v: u8, d: nat,
                        q: nat, i: nat)
    requires i < |g| < |sy| == |sy'| && p in m && |m[p].freq| == 256 && ContextRep(sy, g, m, i)
    requires 0 < q < |g| && NodeRep(sy, g, m, q) && g[q].home == p && g[i].path == p
    requires sy'[i].escapes == sy[i].escapes && sy'[i].total == sy[i].total && sy'[i].symbols == sy[i].symbols
    ensures ContextRep(sy', g + [n], WithSymbol(m, p, v, d), i)
  {
    hide Subtree;
    assert m[p].freq[sy[q].value] > 0;
    assert sy[i].symbols != 0;
    SubtreeStays(g, n, i + sy[i].symbols, p, 0, 256);
    assert p != p + [v];
  }

  /** The context the new symbol belongs to, when the symbol is its first. */
  lemma FirstContextKeeps(sy: seq<Symbol>, sy': seq<Symbol>, g: seq<Info>, m: Model, p: Path, v: u8, d: nat, q: nat)
    requires q < |g| < |sy| == |sy'| && p in m && |m[p].freq| == 256 && ContextRep(sy, g, m, q) && g[q].path == p
    requires sy'[q].escapes == sy[q].escapes && sy'[q].total == sy[q].total && sy'[q].symbols == |g| - q
    ensures ContextRep(sy', g + [GapInfo(sy, g, p, v, q, AtRoot)], WithSymbol(m, p, v, d), q)
  {
    assert p != p + [v];
  }

  lemma ContextKeeps(sy: seq<Symbol>, sy': seq<Symbol>, g: seq<Info>, m: Model, p: Path, v: u8, d: nat, q: nat,
                     side: Side, i: nat)
    requires CanCreate(sy, g, m, p, v, q, side) && |sy'| == |sy| && d > 0
    requires i < |g|
    requires sy'[i].escapes == sy[i].escapes && sy'[i].total == sy[i].total
    requires sy'[i].symbols == if i == q && side == AtRoot then |g| - q else sy[i].symbols
    ensures ContextRep(sy', g + [GapInfo(sy, g, p, v, q, side)], WithSymbol(m, p, v, d), i)
  {
    hide ContextRep, NodeRep, AllLaminar, WithSymbol, GapInfo;
    assert ContextRep(sy, g, m, i);
    var n := GapInfo(sy, g, p, v, q, side);
    if g[i].path != p {
      OtherContextKeeps(sy, sy', g, n, m, p, v, d, i);
    } else if side == AtRoot {
      assert i == q;
      FirstContextKeeps(sy, sy', g, m, p, v, d, q);
    } else {
      assert NodeRep(sy, g, m, q);
      OwnContextKeeps(sy, sy', g, n, m, p, v, d, q, i);
    }
  }

  lemma CreatedLaminar(sy: seq<Symbol>, sy': seq<Symbol>, g: seq<Info>, m: Model, p: Path, v: u8, q: nat, side: Side)
    requires CanCreate(sy, g, m, p, v, q, side) && |sy'| == |sy|
    requires forall i :: 0 <= i < |g| ==> sy'[i].value == sy[i].value
    ensures AllLaminar(sy', g + [GapInfo(sy, g, p, v, q, side)])
  {
    var g' := g + [GapInfo(sy, g, p, v, q, side)];
    forall i, j | 0 < i < |g'| && 0 < j < |g'|
      ensures Laminar(sy', g', i, j)
    {
      if i < |g| && j < |g| {
        assert Laminar(sy, g, i, j);
      } else if i < |g| && g[i].home == p {
        GapApart(sy, g, m, p, v, q, side, i);
      } else if j < |g| && g[j].home == p {
        GapApart(sy, g, m, p, v, q, side, j);
      }
    }
  }

  /** Creating a node changes no value and no context field but the new root's link. */
  lemma OtherFields(sy: seq<Symbol>, sy': seq<Symbol>, t: Symbol, g: seq<Info>, p: Path, v: u8, d: nat, q: nat,
                    side: Side)
    requires |g| < |sy| == |sy'| == SYMBOLS && q < |g|
    requires forall i :: 0 <= i < |g| && i != q ==>
      if 0 < i && OnPath(g[i], p, v) then Bumped(sy[i], sy'[i], v, d) else sy'[i] == sy[i]
    requires side == AtRoot ==> t == sy[q]
    requires side != AtRoot ==> Bumped(sy[q], t, v, d)
    requires sy'[q] == Linked(t, side, |g| - q)
    ensures forall i :: 0 <= i < |g| ==>
      && sy'[i].value == sy[i].value && sy'[i].escapes == sy[i].escapes && sy'[i].total == sy[i].total
      && sy'[i].symbols == if i == q && side == AtRoot then |g| - q else sy[i].symbols
  {
  }

  /** An old symbol still stands for its part of the model. */
  lemma CreatedEntry(sy: seq<Symbol>, sy': seq<Symbol>, t: Symbol, g: seq<Info>, m: Model, p: Path, v: u8, d: nat,
                     q: nat, side: Side, i: nat)
    requires CanCreate(sy, g, m, p, v, q, side) && |sy'| == |sy| && 0 < d < 256 && i < |g|
    requires forall i :: 0 <= i < |g| && i != q ==>
      if 0 < i && OnPath(g[i], p, v) then Bumped(sy[i], sy'[i], v, d) else sy'[i] == sy[i]
    requires side == AtRoot ==> t == sy[q]
    requires side != AtRoot ==> Bumped(sy[q], t, v, d)
    requires sy'[q] == Linked(t, side, |g| - q)
    ensures ContextRep(sy', g + [GapInfo(sy, g, p, v, q, side)], WithSymbol(m, p, v, d), i)
    ensures i > 0 ==> NodeRep(sy', g + [GapInfo(sy, g, p, v, q, side)], WithSymbol(m, p, v, d), i)
  {
    hide ContextRep, NodeRep, Laminar, Distinct, Bumped, OnPath, Linked, GapInfo, WithSymbol;
    OtherFields(sy, sy', t, g, p, v, d, q, side);
    ContextKeeps(sy, sy', g, m, p, v, d, q, side, i);
    if i == q && q > 0 {
      NodeLinks(sy, sy', t, g, m, p, v, d, q, side);
    } else if i > 0 {
      NodeKeeps(sy, sy', g, m, p, v, d, q, side, i);
    }
  }

  lemma CreatedRep(sy: seq<Symbol>, sy': seq<Symbol>, t: Symbol, g: seq<Info>, m: Model, p: Path, v: u8, d: nat, q: nat,
                   side: Side)
    requires CanCreate(sy, g, m, p, v, q, side) && |sy'| == |sy| && 0 < d < 256
    requires forall i :: 0 <= i < |g| && i != q ==>
      if 0 < i && OnPath(g[i], p, v) then Bumped(sy[i], sy'[i], v, d) else sy'[i] == sy[i]
    requires side == AtRoot ==> t == sy[q]
    requires side != AtRoot ==> Bumped(sy[q], t, v, d)
    requires sy'[q] == Linked(t, side, |g| - q)
    requires sy'[|g|] == Fresh(v, d)
    ensures Rep(sy', g + [GapInfo(sy, g, p, v, q, side)], WithSymbol(m, p, v, d))
  {
    hide ContextRep, NodeRep, Laminar, Distinct, Bumped, OnPath, Linked, Fresh, GapInfo, Hangs, CanCreate, AllLaminar,
      WithSymbol, Rep;
    CreatedSizes(sy, g, m, p, v, d, q, side);
    var g', m' := g + [GapInfo(sy, g, p, v, q, side)], WithSymbol(m, p, v, d);
    NewNode(sy, sy', g, m, p, v, d, q, side);
    forall i | 0 <= i < |g|
      ensures ContextRep(sy', g', m', i)
      ensures i > 0 ==> NodeRep(sy', g', m', i)
    {
      CreatedEntry(sy, sy', t, g, m, p, v, d, q, side, i);
    }
    CreatedApart(sy, sy', t, g, m, p, v, d, q, side);
    NewPath(sy, g, m, p, v, q, side);
    RepOf(sy', g', m');
  }

  lemma CreatedSizes(sy: seq<Symbol>, g: seq<Info>, m: Model, p: Path, v: u8, d: nat, q: nat, side: Side)
    requires CanCreate(sy, g, m, p, v, q, side)
    ensures q < |g| <= |sy| && p in m && |m[p].freq| == 256
    ensures var g' := g + [GapInfo(sy, g, p, v, q, side)];
      |sy| == SYMBOLS && q < |g| < |g'| <= SYMBOLS && g'[0].path == [] && |WithSymbol(m, p, v, d)| == |g'|
  {
    hide ContextRep, NodeRep, Laminar, Distinct;
    KeysGrow(m, WithSymbol(m, p, v, d), p + [v]);
  }

  lemma CreatedApart(sy: seq<Symbol>, sy': seq<Symbol>, t: Symbol, g: seq<Info>, m: Model, p: Path, v: u8, d: nat,
                     q: nat, side: Side)
    requires CanCreate(sy, g, m, p, v, q, side) && |sy'| == |sy|
    requires forall i :: 0 <= i < |g| && i != q ==>
      if 0 < i && OnPath(g[i], p, v) then Bumped(sy[i], sy'[i], v, d) else sy'[i] == sy[i]
    requires side == AtRoot ==> t == sy[q]
    requires side != AtRoot ==> Bumped(sy[q], t, v, d)
    requires sy'[q] == Linked(t, side, |g| - q)
    ensures AllLaminar(sy', g + [GapInfo(sy, g, p, v, q, side)])
  {
    hide ContextRep, NodeRep, Laminar, Distinct, Bumped, OnPath, Linked, GapInfo, AllLaminar;
    OtherFields(sy, sy', t, g, p, v, d, q, side);
    CreatedLaminar(sy, sy', g, m, p, v, q, side);
  }

  lemma RepOf(sy: seq<Symbol>, g: seq<Info>, m: Model)
    requires |sy| == SYMBOLS && 0 < |g| <= SYMBOLS && g[0].path == [] && |m| == |g| && Distinct(g)
    requires forall i :: 0 <= i < |g| ==> ContextRep(sy, g, m, i) && (i > 0 ==> NodeRep(sy, g, m, i))
    requires AllLaminar(sy, g)
    ensures Rep(sy, g, m)
  {
    hide ContextRep, NodeRep, Distinct, AllLaminar;
  }

  lemma NewPath(sy: seq<Symbol>, g: seq<Info>, m: Model, p: Path, v: u8, q: nat, side: Side)
    requires CanCreate(sy, g, m, p, v, q, side)
    ensures Distinct(g + [GapInfo(sy, g, p, v, q, side)])
  {
    var n := GapInfo(sy, g, p, v, q, side);
    forall i | 0 <= i < |g|
      ensures g[i].path != n.path
    {
      assert ContextRep(sy, g, m, i);
    }
  }

  // ---------- The fields of a context ----------

  function WithFields(m: Model, p: Path, escapes: nat, total: nat): (r: Model)
    requires p in m
  {
    m[p := m[p].(escapes := escapes, total := total)]
  }

  lemma FieldsRep(sy: seq<Symbol>, g: seq<Info>, m: Model, i: nat, escapes: u16, total: u16)
    requires Rep(sy, g, m) && i < |g|
    ensures g[i].path in m
    ensures Rep(sy[i := sy[i].(escapes := escapes, total := total)], g, WithFields(m, g[i].path, escapes, total))
  {
    assert ContextRep(sy, g, m, i);
    var sy' := sy[i := sy[i].(escapes := escapes, total := total)];
    var m' := WithFields(m, g[i].path, escapes, total);
    assert m'.Keys == m.Keys && |m'| == |m'.Keys| && |m| == |m.Keys|;
    forall j | 0 <= j < |g|
      ensures ContextRep(sy', g, m', j)
    {
      assert ContextRep(sy, g, m, j);
    }
    forall j | 0 < j < |g|
      ensures NodeRep(sy', g, m', j)
    {
      assert NodeRep(sy, g, m, j);
    }
    forall j, k | 0 < j < |g| && 0 < k < |g|
      ensures Laminar(sy', g, j, k)
    {
      assert Laminar(sy, g, j, k);
    }
  }

  lemma ParentRep(sy: seq<Symbol>, g: seq<Info>, m: Model, i: nat, parent: u16)
    requires Rep(sy, g, m) && i < |g|
    ensures Rep(sy[i := sy[i].(parent := parent)], g, m)
  {
    var sy' := sy[i := sy[i].(parent := parent)];
    forall j | 0 <= j < |g|
      ensures ContextRep(sy', g, m, j)
    {
      assert ContextRep(sy, g, m, j);
    }
    forall j | 0 < j < |g|
      ensures NodeRep(sy', g, m, j)
    {
      assert NodeRep(sy, g, m, j);
    }
    forall j, k | 0 < j < |g| && 0 < k < |g|
      ensures Laminar(sy', g, j, k)
    {
      assert Laminar(sy, g, j, k);
    }
  }

  // ---------- Rescaling ----------

  predicate Within(n: Info, p: Path, lo: int, hi: int)
  {
    n.home == p && lo <= n.lo && n.hi <= hi
  }

  predicate Shrunk(s: Symbol, t: Symbol, f: seq<nat>, lo: nat)
    requires lo <= s.value < |f|
  {
    && t.count == s.count - s.count / 2
    && t.under == Sum(Halved(f), lo, s.value + 1)
    && t == s.(count := t.count, under := t.under)
  }

  predicate SameLinks(sy: seq<Symbol>, sy': seq<Symbol>)
  {
    |sy| == |sy'| && forall i :: 0 <= i < |sy| ==> sy'[i] == sy[i].(count := sy'[i].count, under := sy'[i].under)
  }

  lemma BelowWithin(sy: seq<Symbol>, g: seq<Info>, m: Model, p: Path, i: nat, j: nat)
    requires Rep(sy, g, m) && 0 < i < |g| && 0 < j < |g| && i != j
    requires g[i].home == p && Within(g[j], p, g[i].lo, g[i].hi)
    ensures Below(sy, g, i, j)
    ensures g[j].lo < sy[i].value ==> sy[i].left != 0
    ensures g[j].lo > sy[i].value ==> sy[i].right != 0
  {
    assert NodeRep(sy, g, m, i) && NodeRep(sy, g, m, j);
    assert Laminar(sy, g, i, j);
  }

  /** All nodes of context p hold the halved counts. */
  predicate AllShrunk(sy: seq<Symbol>, sy': seq<Symbol>, g: seq<Info>, p: Path, f: seq<nat>)
  {
    && |f| == 256 && |sy| == |sy'| >= |g|
    && (forall i :: 0 <= i < |sy| && !(0 < i < |g| && g[i].home == p) ==> sy'[i] == sy[i])
    && (forall i :: 0 < i < |g| && g[i].home == p ==> g[i].lo <= sy[i].value && Shrunk(sy[i], sy'[i], f, g[i].lo))
  }

  lemma ShrunkContext(sy: seq<Symbol>, sy': seq<Symbol>, g: seq<Info>, m: Model, p: Path, j: nat)
    requires p in m && |m[p].freq| == 256 && AllShrunk(sy, sy', g, p, m[p].freq)
    requires j < |g| && ContextRep(sy, g, m, j)
    ensures ContextRep(sy', g, m[p := m[p].(freq := Halved(m[p].freq))], j)
  {
  }

  lemma ShrunkNode(sy: seq<Symbol>, sy': seq<Symbol>, g: seq<Info>, m: Model, p: Path, j: nat)
    requires p in m && |m[p].freq| == 256 && AllShrunk(sy, sy', g, p, m[p].freq)
    requires 0 < j < |g| && NodeRep(sy, g, m, j)
    ensures NodeRep(sy', g, m[p := m[p].(freq := Halved(m[p].freq))], j)
  {
  }

  lemma ShrunkLaminar(sy: seq<Symbol>, sy': seq<Symbol>, g: seq<Info>, p: Path, f: seq<nat>, j: nat, k: nat)
    requires AllShrunk(sy, sy', g, p, f) && 0 < j < |g| && 0 < k < |g| && Laminar(sy, g, j, k)
    ensures Laminar(sy', g, j, k)
  {
  }

  lemma ShrunkRep(sy: seq<Symbol>, sy': seq<Symbol>, g: seq<Info>, m: Model, p: Path)
    requires Rep(sy, g, m) && p in m && |m[p].freq| == 256
    requires AllShrunk(sy, sy', g, p, m[p].freq)
    ensures Rep(sy', g, m[p := m[p].(freq := Halved(m[p].freq))])
  {
    hide ContextRep, NodeRep, Laminar, Halved;
    var m' := m[p := m[p].(freq := Halved(m[p].freq))];
    assert m'.Keys == m.Keys && |m'| == |m'.Keys| && |m| == |m.Keys|;
    forall j | 0 <= j < |g|
      ensures ContextRep(sy', g, m', j)
    {
      ShrunkContext(sy, sy', g, m, p, j);
    }
    forall j | 0 < j < |g|
      ensures NodeRep(sy', g, m', j)
    {
      ShrunkNode(sy, sy', g, m, p, j);
    }
    forall j, k | 0 < j < |g| && 0 < k < |g|
      ensures Laminar(sy', g, j, k)
    {
      ShrunkLaminar(sy, sy', g, p, m[p].freq, j, k);
    }
  }
}
