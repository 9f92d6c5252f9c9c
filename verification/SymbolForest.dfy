/** The symbol table of toxtun/compress.c when the decoder is given any bytes at all, so that the
    values in it may be in any order: every context owns a tree of symbols, linked forwards, in
    which each node caches the counts of its left part plus its own. */
module SymbolForest {
  import opened Words
  import F = FrequencyModel
  import S = SymbolTree

  type Symbols = seq<S.Symbol>

  // ---------- One tree ----------

  datatype Tree = Leaf | Node(left: Tree, index: nat, right: Tree)

  function Indices(t: Tree): (s: set<nat>)
  {
    match t
    case Leaf => {}
    case Node(l, i, r) => Indices(l) + {i} + Indices(r)
  }

  /** No index occurs twice. */
  predicate Apart(t: Tree)
  {
    match t
    case Leaf => true
    case Node(l, i, r) => i !in Indices(l) && i !in Indices(r) && Indices(l) !! Indices(r) && Apart(l) && Apart(r)
  }

  predicate Inside(t: Tree, n: nat)
  {
    match t
    case Leaf => true
    case Node(l, i, r) => 0 < i < n && Inside(l, n) && Inside(r, n)
  }

  lemma {:induction false} InsideBounds(t: Tree, n: nat)
    requires Inside(t, n)
    ensures forall i :: i in Indices(t) ==> 0 < i < n
    decreases t
  {
    if t.Node? {
      InsideBounds(t.left, n);
      InsideBounds(t.right, n);
    }
  }

  lemma {:induction false} InsideFrom(t: Tree, n: nat)
    requires forall i :: i in Indices(t) ==> 0 < i < n
    ensures Inside(t, n)
    decreases t
  {
    if t.Node? {
      assert t.index in Indices(t);
      InsideFrom(t.left, n);
      InsideFrom(t.right, n);
    }
  }

  function Counts(sy: Symbols, t: Tree): (c: nat)
    requires Inside(t, |sy|)
  {
    match t
    case Leaf => 0
    case Node(l, i, r) => Counts(sy, l) + sy[i].count + Counts(sy, r)
  }

  /** The offset stored at symbol i leads to the tree. */
  predicate LinkTo(i: nat, offset: u16, t: Tree)
  {
    if t.Leaf? then offset == 0 else offset > 0 && t.index == i + offset
  }

  /** The symbols are linked as in t, and their cached sums are right; while a walk that counts d is
      at node `at`, the sums of the nodes it went left from are d more. */
  predicate Linked(sy: Symbols, t: Tree, at: nat, d: nat)
    requires Inside(t, |sy|)
  {
    match t
    case Leaf => true
    case Node(l, i, r) =>
      && LinkTo(i, sy[i].left, l) && LinkTo(i, sy[i].right, r)
      && sy[i].under == sy[i].count + Counts(sy, l) + (if at in Indices(l) then d else 0)
      && Linked(sy, l, at, d) && Linked(sy, r, at, d)
  }

  /** The part of t below index i. */
  function Find(t: Tree, i: nat): (s: Tree)
    requires i in Indices(t)
    ensures s.Node? && s.index == i && Indices(s) <= Indices(t)
  {
    if t.index == i then t else if i in Indices(t.left) then Find(t.left, i) else Find(t.right, i)
  }

  function Replace(t: Tree, i: nat, s: Tree): (r: Tree)
    requires i in Indices(t)
  {
    if t.index == i then s
    else if i in Indices(t.left) then Node(Replace(t.left, i, s), t.index, t.right)
    else Node(t.left, t.index, Replace(t.right, i, s))
  }

  /** What counts and links of t depend on. */
  predicate SameOn(sy: Symbols, sy': Symbols, t: Tree)
  {
    |sy| <= |sy'| && forall i :: i in Indices(t) && i < |sy| ==>
      && sy'[i].count == sy[i].count && sy'[i].under == sy[i].under
      && sy'[i].left == sy[i].left && sy'[i].right == sy[i].right
  }

  lemma {:induction false} CountsSame(sy: Symbols, sy': Symbols, t: Tree)
    requires Inside(t, |sy|) && |sy| <= |sy'|
    requires forall i :: i in Indices(t) && i < |sy| ==> sy'[i].count == sy[i].count
    ensures Inside(t, |sy'|) && Counts(sy', t) == Counts(sy, t)
    decreases t
  {
    if t.Node? {
      CountsSame(sy, sy', t.left);
      CountsSame(sy, sy', t.right);
    }
  }

  lemma {:induction false} LinkedSame(sy: Symbols, sy': Symbols, t: Tree, at: nat, at': nat, d: nat)
    requires Inside(t, |sy|) && SameOn(sy, sy', t) && Linked(sy, t, at, d)
    requires at == at' || (at !in Indices(t) && at' !in Indices(t))
    ensures Inside(t, |sy'|) && Linked(sy', t, at', d) && Counts(sy', t) == Counts(sy, t)
    decreases t
  {
    CountsSame(sy, sy', t);
    if t.Node? {
      LinkedSame(sy, sy', t.left, at, at', d);
      LinkedSame(sy, sy', t.right, at, at', d);
    }
  }

  lemma {:induction false} FindApart(t: Tree, i: nat)
    requires i in Indices(t) && Apart(t)
    ensures Apart(Find(t, i)) && Replace(t, i, Find(t, i)) == t
    decreases t
  {
    if t.index != i {
      FindApart(if i in Indices(t.left) then t.left else t.right, i);
    }
  }

  /** The part below a child. */
  lemma {:induction false} FindChild(t: Tree, i: nat, j: nat)
    requires i in Indices(t) && Apart(t)
    requires var s := Find(t, i);
      (s.left.Node? && j == s.left.index) || (s.right.Node? && j == s.right.index)
    ensures j in Indices(t) && j != i
    ensures Find(t, j) == if Find(t, i).left.Node? && j == Find(t, i).left.index then Find(t, i).left
      else Find(t, i).right
    decreases t
  {
    if t.index != i {
      FindChild(if i in Indices(t.left) then t.left else t.right, i, j);
    }
  }

  lemma {:induction false} FindLinked(sy: Symbols, t: Tree, i: nat, at: nat, d: nat)
    requires Inside(t, |sy|) && i in Indices(t) && Linked(sy, t, at, d)
    ensures Inside(Find(t, i), |sy|) && Linked(sy, Find(t, i), at, d) && Counts(sy, Find(t, i)) <= Counts(sy, t)
    decreases t
  {
    if t.index != i {
      FindLinked(sy, if i in Indices(t.left) then t.left else t.right, i, at, d);
    }
  }

  lemma SomeNode(t: Tree, i: nat)
    requires i in Indices(t)
    ensures t.Node?
  {
  }

  // ---------- Walks ----------

  /** A walk that counts d goes from node cur on to a node below it. */
  lemma {:induction false} Moved(sy: Symbols, sy': Symbols, t: Tree, cur: nat, next: nat, d: nat)
    requires Inside(t, |sy|) && |sy'| == |sy| && Apart(t) && cur in Indices(t) && Linked(sy, t, cur, d)
    requires cur < |sy| && sy' == sy[cur := sy'[cur]] && sy'[cur].count == sy[cur].count
    requires next in Indices(Find(t, cur)) && Inside(Find(t, cur), |sy|) && Linked(sy', Find(t, cur), next, d)
    ensures Linked(sy', t, next, d) && Counts(sy', t) == Counts(sy, t)
    decreases t
  {
    hide Linked, Counts, Inside, Apart, Indices;
    SomeNode(t, cur);
    ApartNode(t);
    Unfold(sy, t, cur, d);
    Unfold(sy', t, next, d);
    CountsSame(sy, sy', t);
    if t.index == cur {
    } else if cur in Indices(t.left) {
      Moved(sy, sy', t.left, cur, next, d);
      LinkedSame(sy, sy', t.right, cur, next, d);
    } else {
      Moved(sy, sy', t.right, cur, next, d);
      LinkedSame(sy, sy', t.left, cur, next, d);
    }
  }

  /** The walk ends at node cur, where s takes the place of what was there. */
  lemma {:induction false} Finished(sy: Symbols, sy': Symbols, t: Tree, cur: nat, s: Tree, d: nat)
    requires Inside(t, |sy|) && |sy'| == |sy| && Apart(t) && cur in Indices(t) && Linked(sy, t, cur, d)
    requires s.Node? && s.index == cur && Inside(s, |sy|) && Linked(sy', s, 0, 0)
    requires forall j :: j in Indices(t) && j !in Indices(Find(t, cur)) && j < |sy| ==> sy'[j] == sy[j]
    requires Inside(Find(t, cur), |sy|) && Counts(sy', s) == Counts(sy, Find(t, cur)) + d
    ensures Indices(Replace(t, cur, s)) <= Indices(t) + Indices(s) && Inside(Replace(t, cur, s), |sy|)
    ensures Replace(t, cur, s).Node? && Replace(t, cur, s).index == t.index
    ensures Linked(sy', Replace(t, cur, s), 0, 0) && Counts(sy', Replace(t, cur, s)) == Counts(sy, t) + d
    decreases t
  {
    hide Linked, Counts, Inside, Apart, Indices;
    SomeNode(t, cur);
    ApartNode(t);
    Unfold(sy, t, cur, d);
    InsideBounds(t, |sy|);
    if t.index == cur {
    } else if cur in Indices(t.left) {
      SomeNode(t.left, cur);
      Finished(sy, sy', t.left, cur, s, d);
      LinkedSame(sy, sy', t.right, cur, 0, d);
      NothingAt(sy', t.right, d);
      Rebuilt(sy', Node(Replace(t.left, cur, s), t.index, t.right));
    } else {
      SomeNode(t.right, cur);
      Finished(sy, sy', t.right, cur, s, d);
      LinkedSame(sy, sy', t.left, cur, 0, d);
      NothingAt(sy', t.left, d);
      Rebuilt(sy', Node(t.left, t.index, Replace(t.right, cur, s)));
    }
  }

  /** A node above the place where the walk ended. */
  lemma Rebuilt(sy: Symbols, t: Tree)
    requires t.Node? && 0 < t.index < |sy| && Inside(t.left, |sy|) && Inside(t.right, |sy|)
    ensures Inside(t, |sy|) && Indices(t) == Indices(t.left) + {t.index} + Indices(t.right)
    ensures Counts(sy, t) == Counts(sy, t.left) + sy[t.index].count + Counts(sy, t.right)
    ensures Linked(sy, t, 0, 0) <==>
      && LinkTo(t.index, sy[t.index].left, t.left) && LinkTo(t.index, sy[t.index].right, t.right)
      && sy[t.index].under == sy[t.index].count + Counts(sy, t.left)
      && Linked(sy, t.left, 0, 0) && Linked(sy, t.right, 0, 0)
  {
  }

  /** No walk is at index 0. */
  lemma {:induction false} NothingAt(sy: Symbols, t: Tree, d: nat)
    requires Inside(t, |sy|) && Linked(sy, t, 0, d)
    ensures Linked(sy, t, 0, 0)
    decreases t
  {
    if t.Node? {
      InsideBounds(t.left, |sy|);
      assert 0 !in Indices(t.left);
      NothingAt(sy, t.left, d);
      NothingAt(sy, t.right, d);
    }
  }

  lemma {:induction false} ReplaceApart(t: Tree, cur: nat, s: Tree)
    requires Apart(t) && cur in Indices(t) && Apart(s)
    requires forall j :: j in Indices(s) && j in Indices(t) ==> j in Indices(Find(t, cur))
    requires Indices(Find(t, cur)) <= Indices(s)
    ensures Apart(Replace(t, cur, s)) && Indices(Replace(t, cur, s)) == Indices(t) + Indices(s)
    decreases t
  {
    if t.index != cur {
      ReplaceApart(if cur in Indices(t.left) then t.left else t.right, cur, s);
    }
  }

  // ---------- Where a walk is ----------

  /** From `was` on, a walk that counts d has come to node cur of t, having changed nothing but
      cached sums. */
  predicate Walking(was: Symbols, sy: Symbols, t: Tree, cur: nat, d: nat)
  {
    && |was| == |sy| && Inside(t, |sy|) && Apart(t) && cur in Indices(t) && cur < |sy|
    && Linked(sy, t, cur, d) && Counts(sy, t) == Counts(was, t)
    && OnlySums(was, sy, t)
  }

  predicate OnlySums(was: Symbols, sy: Symbols, t: Tree)
    requires |was| == |sy|
  {
    forall j :: 0 <= j < |sy| ==>
      sy[j] == was[j].(under := sy[j].under) && (j !in Indices(t) ==> sy[j] == was[j])
  }

  lemma WalkStarts(sy: Symbols, c: nat, t: Tree, d: nat)
    requires Inside(t, |sy|) && Apart(t) && Linked(sy, t, 0, 0) && c < |sy| && LinkTo(c, sy[c].symbols, t)
    requires sy[c].symbols != 0
    ensures Walking(sy, sy, t, c + sy[c].symbols, d)
  {
    InsideBounds(t, |sy|);
    NotBelow(sy, t, d);
  }

  /** The root of a tree is not below any of its nodes. */
  lemma NotBelow(sy: Symbols, t: Tree, d: nat)
    requires Inside(t, |sy|) && Apart(t) && t.Node? && Linked(sy, t, 0, 0)
    ensures Linked(sy, t, t.index, d)
  {
    InsideBounds(t, |sy|);
    NotHere(sy, t.left, t.index, d);
    NotHere(sy, t.right, t.index, d);
  }

  lemma {:induction false} NotHere(sy: Symbols, t: Tree, at: nat, d: nat)
    requires Inside(t, |sy|) && Linked(sy, t, 0, 0) && at !in Indices(t)
    ensures Linked(sy, t, at, d)
    decreases t
  {
    if t.Node? {
      InsideBounds(t.left, |sy|);
      assert 0 !in Indices(t.left);
      NotHere(sy, t.left, at, d);
      NotHere(sy, t.right, at, d);
    }
  }

  /** What a walk finds at its node. */
  lemma AtNode(was: Symbols, sy: Symbols, t: Tree, cur: nat, d: nat)
    requires Walking(was, sy, t, cur, d)
    ensures var s := Find(t, cur);
      && 0 < cur < |sy| && Apart(s) && Inside(s, |sy|) && Linked(sy, s, cur, d)
      && LinkTo(cur, sy[cur].left, s.left) && LinkTo(cur, sy[cur].right, s.right)
      && sy[cur].under == sy[cur].count + Counts(sy, s.left) <= Counts(was, t)
  {
    InsideBounds(t, |sy|);
    FindApart(t, cur);
    FindLinked(sy, t, cur, cur, d);
  }

  lemma Unfold(sy: Symbols, t: Tree, at: nat, d: nat)
    requires t.Node? && Inside(t, |sy|)
    ensures Inside(t.left, |sy|) && Inside(t.right, |sy|) && 0 < t.index < |sy|
    ensures Linked(sy, t, at, d) <==>
      && LinkTo(t.index, sy[t.index].left, t.left) && LinkTo(t.index, sy[t.index].right, t.right)
      && sy[t.index].under == sy[t.index].count + Counts(sy, t.left) + (if at in Indices(t.left) then d else 0)
      && Linked(sy, t.left, at, d) && Linked(sy, t.right, at, d)
    ensures Counts(sy, t) == Counts(sy, t.left) + sy[t.index].count + Counts(sy, t.right)
  {
  }

  lemma ApartNode(t: Tree)
    requires t.Node? && Apart(t)
    ensures t.index !in Indices(t.left) && t.index !in Indices(t.right) && Indices(t.left) !! Indices(t.right)
    ensures Apart(t.left) && Apart(t.right) && Indices(t) == Indices(t.left) + {t.index} + Indices(t.right)
    ensures t.left.Node? ==> t.left.index in Indices(t.left)
    ensures t.right.Node? ==> t.right.index in Indices(t.right)
  {
  }

  /** The walk moves on to the right child. */
  lemma NewRight(sy: Symbols, s: Tree, d: nat)
    requires s.Node? && s.right.Node? && Inside(s, |sy|) && Apart(s) && Linked(sy, s, s.index, d)
    ensures Linked(sy, s, s.right.index, d)
  {
    hide Linked, Counts, Inside, Apart, Indices;
    var next := s.right.index;
    ApartNode(s);
    Unfold(sy, s, s.index, d);
    Unfold(sy, s, next, d);
    LinkedSame(sy, sy, s.left, s.index, next, d);
    Unwalked(sy, s.right, s.index, d);
    NotBelow(sy, s.right, d);
  }

  /** The walk moves on to the left child. */
  lemma NewLeft(sy: Symbols, sy': Symbols, s: Tree, d: nat)
    requires s.Node? && s.left.Node? && Inside(s, |sy|) && Apart(s) && Linked(sy, s, s.index, d)
    requires sy[s.index].under + d < 0x1_0000 && sy' == sy[s.index := sy[s.index].(under := sy[s.index].under + d)]
    ensures Linked(sy', s, s.left.index, d)
  {
    hide Linked, Counts, Inside, Apart, Indices;
    var next := s.left.index;
    ApartNode(s);
    Unfold(sy, s, s.index, d);
    Unfold(sy', s, next, d);
    LinkedSame(sy, sy', s.left, s.index, s.index, d);
    LinkedSame(sy, sy', s.right, s.index, next, d);
    Unwalked(sy', s.left, s.index, d);
    NotBelow(sy', s.left, d);
  }

  /** The walk ends at s, which is counted. */
  lemma NewCount(sy: Symbols, sy': Symbols, s: Tree, d: nat)
    requires s.Node? && Inside(s, |sy|) && Apart(s) && Linked(sy, s, s.index, d)
    requires sy[s.index].under + d < 0x1_0000 && sy[s.index].count + d < 0x100
    requires sy' == sy[s.index := sy[s.index].(under := sy[s.index].under + d, count := sy[s.index].count + d)]
    ensures Linked(sy', s, 0, 0) && Counts(sy', s) == Counts(sy, s) + d
  {
    hide Linked, Counts, Inside, Apart, Indices;
    ApartNode(s);
    Unfold(sy, s, s.index, d);
    Unfold(sy', s, 0, 0);
    Unwalked(sy, s.left, s.index, d);
    Unwalked(sy, s.right, s.index, d);
    LinkedSame(sy, sy', s.left, 0, 0, 0);
    LinkedSame(sy, sy', s.right, 0, 0, 0);
    Unfold(sy, s, 0, 0);
  }

  /** Below a node the walk is at, nothing was walked. */
  lemma {:induction false} Unwalked(sy: Symbols, t: Tree, at: nat, d: nat)
    requires Inside(t, |sy|) && Linked(sy, t, at, d) && at !in Indices(t)
    ensures Linked(sy, t, 0, 0)
    decreases t
  {
    if t.Node? {
      InsideBounds(t.left, |sy|);
      assert 0 !in Indices(t.left);
      Unwalked(sy, t.left, at, d);
      Unwalked(sy, t.right, at, d);
    }
  }

  lemma StepRight(was: Symbols, sy: Symbols, t: Tree, cur: nat, d: nat)
    requires Walking(was, sy, t, cur, d) && sy[cur].right != 0
    ensures cur + sy[cur].right < |sy| && Walking(was, sy, t, cur + sy[cur].right, d)
  {
    hide Linked, Counts, Inside, Apart, Indices, Find, OnlySums;
    AtNode(was, sy, t, cur, d);
    var s := Find(t, cur);
    FindChild(t, cur, s.right.index);
    InsideBounds(t, |sy|);
    ApartNode(s);
    NewRight(sy, s, d);
    Moved(sy, sy, t, cur, s.right.index, d);
  }

  lemma StepLeft(was: Symbols, sy: Symbols, sy': Symbols, t: Tree, cur: nat, d: nat)
    requires Walking(was, sy, t, cur, d) && sy[cur].left != 0
    requires sy[cur].under + d < 0x1_0000 && sy' == sy[cur := sy[cur].(under := sy[cur].under + d)]
    ensures cur + sy[cur].left < |sy| && Walking(was, sy', t, cur + sy[cur].left, d)
  {
    hide Linked, Counts, Inside, Apart, Indices, Find;
    AtNode(was, sy, t, cur, d);
    var s := Find(t, cur);
    FindChild(t, cur, s.left.index);
    InsideBounds(t, |sy|);
    ApartNode(s);
    NewLeft(sy, sy', s, d);
    Moved(sy, sy', t, cur, s.left.index, d);
  }

  /** The walk ends at a symbol, which is counted. */
  lemma Counted(was: Symbols, sy: Symbols, sy': Symbols, t: Tree, cur: nat, d: nat)
    requires Walking(was, sy, t, cur, d) && sy[cur].under + d < 0x1_0000 && sy[cur].count + d < 0x100
    requires sy' == sy[cur := sy[cur].(under := sy[cur].under + d, count := sy[cur].count + d)]
    ensures Linked(sy', t, 0, 0) && Counts(sy', t) == Counts(was, t) + d
  {
    hide Linked, Counts, Inside, Apart, Indices, Find, OnlySums;
    AtNode(was, sy, t, cur, d);
    var s := Find(t, cur);
    ApartNode(s);
    FindApart(t, cur);
    NewCount(sy, sy', s, d);
    Finished(sy, sy', t, cur, s, d);
  }

  /** The part below node s.index with a new symbol where the node had no child. */
  function Extended(s: Tree, onLeft: bool, symbol: nat): (r: Tree)
    requires s.Node?
  {
    var x := Node(Leaf, symbol, Leaf);
    if onLeft then Node(x, s.index, s.right) else Node(s.left, s.index, x)
  }

  function Hung(t: Tree, cur: nat, onLeft: bool, symbol: nat): (r: Tree)
    requires cur in Indices(t)
  {
    Replace(t, cur, Extended(Find(t, cur), onLeft, symbol))
  }

  /** What the code writes there. */
  function HangAt(sy: Symbols, cur: nat, d: u8, onLeft: bool, symbol: nat, value: u8): (sy': Symbols)
    requires cur < symbol < |sy| && symbol - cur < 0x1_0000 && sy[cur].under + d < 0x1_0000
  {
    sy[symbol := S.Fresh(value, d)][cur :=
      if onLeft then sy[cur].(under := sy[cur].under + d, left := symbol - cur) else sy[cur].(right := symbol - cur)]
  }

  lemma ExtendedApart(s: Tree, onLeft: bool, symbol: nat)
    requires s.Node? && Apart(s) && symbol !in Indices(s) && if onLeft then s.left.Leaf? else s.right.Leaf?
    ensures Apart(Extended(s, onLeft, symbol)) && Indices(Extended(s, onLeft, symbol)) == Indices(s) + {symbol}
  {
  }

  lemma ExtendedLinked(sy: Symbols, s: Tree, d: u8, onLeft: bool, symbol: nat, value: u8)
    requires s.Node? && Apart(s) && Inside(s, symbol) && symbol < |sy| && symbol - s.index < 0x1_0000
    requires Inside(s, |sy|) && Linked(sy, s, s.index, d) && sy[s.index].under + d < 0x1_0000
    requires if onLeft then s.left.Leaf? else s.right.Leaf?
    ensures var s', sy' := Extended(s, onLeft, symbol), HangAt(sy, s.index, d, onLeft, symbol, value);
      Inside(s', |sy|) && Linked(sy', s', 0, 0) && Counts(sy', s') == Counts(sy, s) + d
  {
    hide Linked, Counts, Inside, Apart, Indices;
    ApartNode(s);
    InsideBounds(s, symbol);
    var sy', s' := HangAt(sy, s.index, d, onLeft, symbol, value), Extended(s, onLeft, symbol);
    Unfold(sy, s, s.index, d);
    Unwalked(sy, s.left, s.index, d);
    Unwalked(sy, s.right, s.index, d);
    LinkedSame(sy, sy', s.left, 0, 0, 0);
    LinkedSame(sy, sy', s.right, 0, 0, 0);
    NewLeaf(sy', symbol);
    LeafOk(sy, symbol);
    InsideNode(s', |sy|);
    Unfold(sy', s', 0, 0);
    ZeroNowhere(s'.left, |sy|);
  }

  lemma NewLeaf(sy: Symbols, symbol: nat)
    requires 0 < symbol < |sy| && sy[symbol].left == sy[symbol].right == 0 && sy[symbol].under == sy[symbol].count
    ensures var x := Node(Leaf, symbol, Leaf);
      && Inside(x, |sy|) && Linked(sy, x, 0, 0) && Counts(sy, x) == sy[symbol].count && Apart(x)
      && Indices(x) == {symbol}
  {
  }

  lemma InsideNode(t: Tree, n: nat)
    requires t.Node? && 0 < t.index < n && Inside(t.left, n) && Inside(t.right, n)
    ensures Inside(t, n)
  {
  }

  lemma ZeroNowhere(t: Tree, n: nat)
    requires Inside(t, n)
    ensures 0 !in Indices(t)
  {
    InsideBounds(t, n);
  }

  lemma {:induction false} Wider(t: Tree, n: nat, n': nat)
    requires Inside(t, n) && n <= n'
    ensures Inside(t, n')
    decreases t
  {
    if t.Node? {
      Wider(t.left, n, n');
      Wider(t.right, n, n');
    }
  }

  /** The walk ends where a child is missing, and a new symbol is hung there. */
  lemma HungThere(was: Symbols, sy: Symbols, t: Tree, cur: nat, d: u8, onLeft: bool, symbol: nat, value: u8)
    requires Walking(was, sy, t, cur, d) && sy[cur].under + d < 0x1_0000
    requires Inside(t, symbol) && cur < symbol < |sy| && symbol - cur < 0x1_0000
    requires if onLeft then sy[cur].left == 0 else sy[cur].right == 0
    ensures var t', sy' := Hung(t, cur, onLeft, symbol), HangAt(sy, cur, d, onLeft, symbol, value);
      && Indices(t') == Indices(t) + {symbol} && Inside(t', |sy|) && Apart(t')
      && t'.Node? && t'.index == t.index
      && Linked(sy', t', 0, 0) && Counts(sy', t') == Counts(was, t) + d
  {
    hide Linked, Counts, Extended, Inside, Apart, Indices, Find, OnlySums;
    AtNode(was, sy, t, cur, d);
    InsideBounds(t, symbol);
    InsideFrom(Find(t, cur), symbol);
    FindApart(t, cur);
    var s := Find(t, cur);
    var s', sy' := Extended(s, onLeft, symbol), HangAt(sy, cur, d, onLeft, symbol, value);
    ApartNode(s);
    ExtendedApart(s, onLeft, symbol);
    ExtendedLinked(sy, s, d, onLeft, symbol, value);
    ExtendedIndex(s, onLeft, symbol);
    Finished(sy, sy', t, cur, s', d);
    ReplaceApart(t, cur, s');
  }

  lemma ExtendedIndex(s: Tree, onLeft: bool, symbol: nat)
    requires s.Node?
    ensures Extended(s, onLeft, symbol).Node? && Extended(s, onLeft, symbol).index == s.index
  {
  }

  // ---------- All contexts ----------

  const SYMBOLS := F.SYMBOLS

  type Trees = seq<Tree>

  /** The tree of context c; its symbols are contexts one order higher. */
  ghost predicate TreeOk(sy: Symbols, n: nat, trees: Trees, depth: seq<nat>, c: nat)
    requires c < n <= |sy| && |trees| == |depth| == n
  {
    && Inside(trees[c], n) && Apart(trees[c]) && Inside(trees[c], |sy|) && Linked(sy, trees[c], 0, 0)
    && LinkTo(c, sy[c].symbols, trees[c])
    && forall i :: i in Indices(trees[c]) && i < n ==> depth[i] == depth[c] + 1 && sy[i].count > 0
  }

  /** The first n symbols are a forest of such trees, of contexts of order 0 to 3. */
  ghost predicate Forest(sy: Symbols, n: nat, trees: Trees, depth: seq<nat>)
  {
    && 0 < n <= |sy| == SYMBOLS && |trees| == |depth| == n && depth[0] == 0
    && (forall i :: 0 < i < n ==> 1 <= depth[i] <= 3)
    && (forall c :: 0 <= c < n ==> TreeOk(sy, n, trees, depth, c))
    && (forall c, e :: 0 <= c < e < n ==> Indices(trees[c]) !! Indices(trees[e]))
  }

  /** What the root adds for each value, counted or not. */
  function Least(c: nat): (m: nat)
  {
    if c == 0 then 1 else 0
  }

  function Delta(c: nat): (d: u8)
  {
    if c == 0 then 3 else 2
  }

  /** The total of context c is the sum of its escapes, its counts and the minimum of the values,
      but for what is still owed. */
  ghost predicate Adds(sy: Symbols, trees: Trees, c: nat, owed: nat)
    requires c < |trees| && c < |sy| && Inside(trees[c], |sy|)
  {
    sy[c].total + owed == sy[c].escapes + Counts(sy, trees[c]) + 256 * Least(c)
  }

  /** No total and no count of it can overflow at the next update. */
  ghost predicate Limits(sy: Symbols, trees: Trees, c: nat)
    requires c < |trees| && c < |sy| && Inside(trees[c], |sy|)
  {
    sy[c].total <= F.RESCALE_TOTAL && forall i :: i in Indices(trees[c]) && i < |sy| ==> sy[i].count <= 0xFF - Delta(c)
  }

  ghost predicate Settled(sy: Symbols, n: nat, trees: Trees, depth: seq<nat>)
  {
    && Forest(sy, n, trees, depth)
    && forall c :: 0 <= c < n ==> Inside(trees[c], |sy|) && Adds(sy, trees, c, 0) && Limits(sy, trees, c)
  }

  /** Context c has counted d for one symbol, old or new; nothing else has changed. */
  ghost predicate Learnt(was: Symbols, n: nat, trees: Trees, depth: seq<nat>,
                         sy: Symbols, n': nat, trees': Trees, depth': seq<nat>, c: nat, symbol: nat, d: nat)
  {
    && Forest(was, n, trees, depth) && Forest(sy, n', trees', depth') && c < n <= n' <= n + 1
    && depth <= depth' && (forall e :: 0 <= e < n && e != c ==> trees'[e] == trees[e])
    && Indices(trees'[c]) == Indices(trees[c]) + {symbol} && Inside(trees[c], |was|) && Inside(trees'[c], |sy|)
    && Counts(sy, trees'[c]) == Counts(was, trees[c]) + d
    && 0 < symbol < n'
    && (forall i :: 0 <= i < n ==>
         && sy[i].escapes == was[i].escapes && sy[i].total == was[i].total
         && sy[i].parent == was[i].parent && sy[i].value == was[i].value
         && sy[i].count == was[i].count + if i == symbol then d else 0)
    && (n' > n ==> symbol == n && trees'[n] == Leaf && sy[n].count == d && sy[n].escapes == sy[n].total == 0
                   && sy[n].parent == 0)
  }

  /** A symbol was found and counted. */
  lemma CountedForest(was: Symbols, sy: Symbols, n: nat, trees: Trees, depth: seq<nat>, c: nat, cur: nat, d: nat)
    requires Forest(was, n, trees, depth) && c < n && |sy| == |was| && cur in Indices(trees[c]) && d > 0
    requires forall j :: 0 <= j < |sy| ==>
      && sy[j] == was[j].(under := sy[j].under, count := sy[j].count)
      && sy[j].count == was[j].count + (if j == cur then d else 0)
      && (j !in Indices(trees[c]) ==> sy[j] == was[j])
    requires Inside(trees[c], |sy|) && Linked(sy, trees[c], 0, 0) && Counts(sy, trees[c]) == Counts(was, trees[c]) + d
    ensures Learnt(was, n, trees, depth, sy, n, trees, depth, c, cur, d)
  {
    hide Linked, Counts, Inside, Apart, Indices;
    assert TreeOk(was, n, trees, depth, c);
    InsideBounds(trees[c], n);
    forall e: nat | e < n
      ensures TreeOk(sy, n, trees, depth, e)
    {
      assert TreeOk(was, n, trees, depth, e);
      if e != c {
        OtherTree(was, sy, n, trees, depth, c, e);
      }
    }
  }

  /** Contexts other than c do not notice what happens to its tree. */
  lemma OtherTree(was: Symbols, sy: Symbols, n: nat, trees: Trees, depth: seq<nat>, c: nat, e: nat)
    requires Forest(was, n, trees, depth) && c < n && e < n && e != c && |sy| == |was|
    requires forall j :: 0 <= j < n && j !in Indices(trees[c]) ==>
      && sy[j].count == was[j].count && sy[j].under == was[j].under
      && sy[j].left == was[j].left && sy[j].right == was[j].right
    requires sy[e].symbols == was[e].symbols
    ensures TreeOk(sy, n, trees, depth, e) && Counts(sy, trees[e]) == Counts(was, trees[e])
  {
    hide Linked, Counts, Inside, Apart, Indices;
    assert TreeOk(was, n, trees, depth, e);
    InsideBounds(trees[e], n);
    LinkedSame(was, sy, trees[e], 0, 0, 0);
  }

  /** From was to sy a new symbol n was created in context c, which has now the tree t. */
  ghost predicate Grown(was: Symbols, sy: Symbols, n: nat, trees: Trees, c: nat, t: Tree, d: u8, value: u8)
  {
    && c < n < |sy| == |was| && n == |trees| && d > 0 && sy[n] == S.Fresh(value, d)
    && (forall j :: 0 <= j < n ==>
         && sy[j].count == was[j].count && sy[j].escapes == was[j].escapes && sy[j].total == was[j].total
         && sy[j].parent == was[j].parent && sy[j].value == was[j].value
         && (j != c ==> sy[j].symbols == was[j].symbols)
         && (j !in Indices(trees[c]) ==>
              sy[j].under == was[j].under && sy[j].left == was[j].left && sy[j].right == was[j].right))
    && Indices(t) == Indices(trees[c]) + {n} && Apart(t) && LinkTo(c, sy[c].symbols, t)
    && Inside(t, |sy|) && Linked(sy, t, 0, 0)
    && Inside(trees[c], |was|) && Counts(sy, t) == Counts(was, trees[c]) + d
  }

  lemma GrownTree(was: Symbols, sy: Symbols, n: nat, trees: Trees, depth: seq<nat>, c: nat, t: Tree, d: u8, value: u8,
                  e: nat)
    requires Forest(was, n, trees, depth) && Grown(was, sy, n, trees, c, t, d, value) && e <= n
    ensures TreeOk(sy, n + 1, trees[c := t] + [Leaf], depth + [depth[c] + 1], e)
  {
    hide Linked, Counts, Inside, Apart, Indices;
    if e == n {
      LeafOk(sy, n + 1);
    } else if e == c {
      assert TreeOk(was, n, trees, depth, c);
      InsideBounds(trees[c], n);
      InsideFrom(t, n + 1);
    } else {
      assert TreeOk(was, n, trees, depth, e);
      OtherTree(was, sy, n, trees, depth, c, e);
      InsideBounds(trees[e], n);
      Wider(trees[e], n, n + 1);
    }
  }

  lemma GrownForest(was: Symbols, sy: Symbols, n: nat, trees: Trees, depth: seq<nat>, c: nat, t: Tree, d: u8, value: u8)
    requires Forest(was, n, trees, depth) && Grown(was, sy, n, trees, c, t, d, value) && depth[c] <= 2
    ensures Learnt(was, n, trees, depth, sy, n + 1, trees[c := t] + [Leaf], depth + [depth[c] + 1], c, n, d)
  {
    hide Linked, Counts, Inside, Apart, Indices, TreeOk;
    var trees', depth' := trees[c := t] + [Leaf], depth + [depth[c] + 1];
    var n': nat := n + 1;
    forall e: nat | e < n'
      ensures TreeOk(sy, n', trees', depth', e)
    {
      GrownTree(was, sy, n, trees, depth, c, t, d, value, e);
    }
    NewApart(was, n, trees, depth, c, t);
  }

  lemma LeafOk(sy: Symbols, n: nat)
    ensures Inside(Leaf, n) && Inside(Leaf, |sy|) && Apart(Leaf) && Linked(sy, Leaf, 0, 0) && Indices(Leaf) == {}
    ensures Counts(sy, Leaf) == 0
  {
  }

  lemma NewApart(was: Symbols, n: nat, trees: Trees, depth: seq<nat>, c: nat, t: Tree)
    requires Forest(was, n, trees, depth) && c < n && Indices(t) == Indices(trees[c]) + {n}
    ensures var trees' := trees[c := t] + [Leaf];
      forall a, b :: 0 <= a < b < n + 1 ==> Indices(trees'[a]) !! Indices(trees'[b])
  {
    hide Linked, Counts, Inside, Apart;
    forall e: nat | e < n
      ensures n !in Indices(trees[e])
    {
      assert TreeOk(was, n, trees, depth, e);
      InsideBounds(trees[e], n);
    }
  }

  /** Where the fields of the trees are as before, so are the trees. */
  lemma SameTrees(was: Symbols, sy: Symbols, n: nat, trees: Trees, depth: seq<nat>)
    requires Forest(was, n, trees, depth) && |sy| == |was|
    requires forall j :: 0 <= j < n ==>
      && sy[j].count == was[j].count && sy[j].under == was[j].under && sy[j].symbols == was[j].symbols
      && sy[j].left == was[j].left && sy[j].right == was[j].right
    ensures Forest(sy, n, trees, depth)
    ensures forall c :: 0 <= c < n ==> Inside(trees[c], |sy|) && Counts(sy, trees[c]) == Counts(was, trees[c])
  {
    hide Linked, Counts, Inside, Apart, Indices;
    forall c: nat | c < n
      ensures TreeOk(sy, n, trees, depth, c) && Counts(sy, trees[c]) == Counts(was, trees[c])
    {
      assert TreeOk(was, n, trees, depth, c);
      InsideBounds(trees[c], n);
      LinkedSame(was, sy, trees[c], 0, 0, 0);
    }
  }

  /** What is known of one context. */
  lemma ContextIs(sy: Symbols, n: nat, trees: Trees, depth: seq<nat>, c: nat)
    requires Settled(sy, n, trees, depth) && c < n
    ensures Inside(trees[c], |sy|) && Inside(trees[c], n) && Apart(trees[c]) && Linked(sy, trees[c], 0, 0)
    ensures LinkTo(c, sy[c].symbols, trees[c])
    ensures Counts(sy, trees[c]) + sy[c].escapes + 256 * Least(c) == sy[c].total <= F.RESCALE_TOTAL
    ensures forall i :: i in Indices(trees[c]) ==> 0 < i < n && 0 < sy[i].count <= 0xFF - Delta(c)
  {
    hide Linked, Counts, Apart, Inside, Indices;
    assert TreeOk(sy, n, trees, depth, c);
    InsideBounds(trees[c], n);
  }

  lemma {:induction false} CountInTree(sy: Symbols, t: Tree, i: nat)
    requires Inside(t, |sy|) && i in Indices(t)
    ensures i < |sy| && sy[i].count <= Counts(sy, t)
    decreases t
  {
    if t.index != i {
      CountInTree(sy, if i in Indices(t.left) then t.left else t.right, i);
    }
  }

  // ---------- Rescaling ----------

  /** The counts of t were halved, and nothing else changed but its cached sums. */
  predicate Halved(was: Symbols, sy: Symbols, t: Tree)
  {
    && |was| == |sy|
    && forall j :: 0 <= j < |sy| ==>
         if j in Indices(t) then sy[j] == was[j].(count := was[j].count - was[j].count / 2, under := sy[j].under)
         else sy[j] == was[j]
  }

  function Size(t: Tree): (n: nat)
  {
    match t
    case Leaf => 0
    case Node(l, _, r) => Size(l) + 1 + Size(r)
  }

  lemma {:induction false} SizeIs(t: Tree)
    requires Apart(t)
    ensures |Indices(t)| == Size(t)
    decreases t
  {
    if t.Node? {
      SizeIs(t.left);
      SizeIs(t.right);
      assert |Indices(t.left) + {t.index}| == Size(t.left) + 1;
    }
  }

  function Below(n: nat): (s: set<nat>)
    ensures |s| == n && forall i :: i in s <==> 0 <= i < n
  {
    if n == 0 then {} else Below(n - 1) + {n - 1}
  }

  lemma SizeFits(t: Tree, n: nat)
    requires Apart(t) && Inside(t, n)
    ensures Size(t) <= n
  {
    SizeIs(t);
    InsideBounds(t, n);
    assert Below(n) == Indices(t) + (Below(n) - Indices(t));
  }

  lemma {:induction false} HalvedCounts(was: Symbols, sy: Symbols, t: Tree)
    requires Inside(t, |was|) && |sy| == |was|
    requires forall j :: j in Indices(t) && j < |sy| ==> sy[j].count == was[j].count - was[j].count / 2
    ensures 2 * Counts(sy, t) <= Counts(was, t) + Size(t) && Counts(sy, t) <= Counts(was, t)
    decreases t
  {
    if t.Node? {
      HalvedCounts(was, sy, t.left);
      HalvedCounts(was, sy, t.right);
    }
  }

  /** Of the tree t everything was rescaled but for the part `rest` at the end of its right side. */
  predicate HalfWay(was: Symbols, sy: Symbols, t: Tree, rest: Tree)
    requires Inside(t, |sy|) && |was| == |sy|
  {
    if t == rest then forall j :: j in Indices(t) && j < |sy| ==> sy[j] == was[j]
    else
      && t.Node? && LinkTo(t.index, sy[t.index].left, t.left) && LinkTo(t.index, sy[t.index].right, t.right)
      && sy[t.index].under == sy[t.index].count + Counts(sy, t.left) && Linked(sy, t.left, 0, 0)
      && (forall j :: j in Indices(t.left) + {t.index} && j < |sy| ==>
           sy[j] == was[j].(count := was[j].count - was[j].count / 2, under := sy[j].under))
      && HalfWay(was, sy, t.right, rest)
  }

  /** The counts of the part done. */
  function Done(sy: Symbols, t: Tree, rest: Tree): (c: nat)
    requires Inside(t, |sy|)
  {
    if t == rest || t.Leaf? then 0 else sy[t.index].under + Done(sy, t.right, rest)
  }

  /** The rest lies within the tree. */
  lemma {:induction false} RestInside(was: Symbols, sy: Symbols, t: Tree, rest: Tree)
    requires Inside(t, |sy|) && |was| == |sy| && Apart(t) && Linked(was, t, 0, 0) && HalfWay(was, sy, t, rest)
    ensures Indices(rest) <= Indices(t) && Inside(rest, |sy|) && Apart(rest) && Linked(was, rest, 0, 0)
    ensures forall j :: j in Indices(rest) && j < |sy| ==> sy[j] == was[j]
    ensures Counts(was, rest) <= Counts(was, t)
    decreases t
  {
    if t != rest {
      RestInside(was, sy, t.right, rest);
    }
  }

  /** One more node and its left part. */
  lemma {:induction false} HalfWayOn(was: Symbols, sy: Symbols, sy': Symbols, t: Tree, rest: Tree)
    requires Inside(t, |sy|) && |was| == |sy| == |sy'| && Apart(t) && HalfWay(was, sy, t, rest) && rest.Node?
    requires Indices(rest) <= Indices(t)
    requires forall j :: 0 <= j < |sy| && j != rest.index && j !in Indices(rest.left) ==> sy'[j] == sy[j]
    requires Inside(rest, |sy|) && HalfWay(was, sy', rest, rest.right)
    ensures HalfWay(was, sy', t, rest.right)
    ensures Done(sy', t, rest.right) == Done(sy, t, rest) + sy'[rest.index].under
    decreases t
  {
    hide Counts, Linked, Apart, Indices, Size;
    RightIsSmaller(rest);
    if t != rest {
      ApartNode(t);
      NodeHas(rest);
      RestIn(was, sy, t.right, rest);
      InsideBounds(t.left, |sy|);
      LinkedSame(sy, sy', t.left, 0, 0, 0);
      HalfWayOn(was, sy, sy', t.right, rest);
      RestSmaller(was, sy, t, rest);
    }
  }

  lemma NodeHas(t: Tree)
    requires t.Node?
    ensures t.index in Indices(t) && Indices(t.left) <= Indices(t)
  {
  }

  lemma RightIsSmaller(t: Tree)
    requires t.Node?
    ensures t != t.right
  {
    assert Size(t) > Size(t.right);
  }

  lemma {:induction false} RestIn(was: Symbols, sy: Symbols, t: Tree, rest: Tree)
    requires Inside(t, |sy|) && |was| == |sy| && HalfWay(was, sy, t, rest)
    ensures Indices(rest) <= Indices(t)
    decreases t
  {
    if t != rest {
      RestIn(was, sy, t.right, rest);
    }
  }

  lemma {:induction false} RestSmaller(was: Symbols, sy: Symbols, t: Tree, rest: Tree)
    requires Inside(t, |sy|) && |was| == |sy| && HalfWay(was, sy, t, rest) && rest.Node?
    ensures Size(rest) <= Size(t) && t != rest.right
    decreases t
  {
    if t != rest {
      RestSmaller(was, sy, t.right, rest);
    }
  }

  /** At the end everything is. */
  lemma {:induction false} HalfWayDone(was: Symbols, sy: Symbols, t: Tree)
    requires Inside(t, |sy|) && |was| == |sy| && HalfWay(was, sy, t, Leaf)
    ensures Linked(sy, t, 0, 0) && Done(sy, t, Leaf) == Counts(sy, t)
    ensures forall j :: j in Indices(t) && j < |sy| ==>
      sy[j] == was[j].(count := was[j].count - was[j].count / 2, under := sy[j].under)
    decreases t
  {
    if t.Node? {
      InsideBounds(t.left, |sy|);
      HalfWayDone(was, sy, t.right);
    }
  }

  /** A node and its left part were halved. */
  lemma NodeHalved(was: Symbols, sy: Symbols, t: Tree)
    requires t.Node? && Inside(t, |sy|) && |was| == |sy| && Apart(t) && Linked(was, t, 0, 0)
    requires sy[t.index] == was[t.index].(count := was[t.index].count - was[t.index].count / 2,
      under := sy[t.index].under)
    requires forall j :: 0 <= j < |sy| && j != t.index ==>
      if j in Indices(t.left) then sy[j] == was[j].(count := was[j].count - was[j].count / 2, under := sy[j].under)
      else sy[j] == was[j]
    requires sy[t.index].under == sy[t.index].count + Counts(sy, t.left) && Linked(sy, t.left, 0, 0)
    ensures HalfWay(was, sy, t, t.right) && sy[t.index].under <= Counts(was, t)
  {
    hide Counts, Linked, Apart, Inside, Indices;
    RightIsSmaller(t);
    ApartNode(t);
    Unfold(was, t, 0, 0);
    HalvedCounts(was, sy, t.left);
  }

  /** Only what the rest was like matters. */
  lemma HalfWaySince(was: Symbols, before: Symbols, sy: Symbols, rest: Tree)
    requires rest.Node? && Inside(rest, |sy|) && |was| == |before| == |sy| && HalfWay(before, sy, rest, rest.right)
    requires forall j :: j in Indices(rest) && j < |sy| ==> before[j] == was[j]
    ensures HalfWay(was, sy, rest, rest.right)
  {
    hide Counts, Linked, Apart, Inside;
    RightIsSmaller(rest);
  }

  /** The sum so far and what is left are at most the counts before. */
  lemma {:induction false} HalfWayBound(was: Symbols, sy: Symbols, t: Tree, rest: Tree)
    requires Inside(t, |sy|) && |was| == |sy| && HalfWay(was, sy, t, rest) && Inside(rest, |was|)
    ensures Done(sy, t, rest) + Counts(was, rest) <= Counts(was, t)
    decreases t
  {
    if t != rest {
      HalfWayBound(was, sy, t.right, rest);
      HalvedCounts(was, sy, t.left);
    }
  }

  lemma HalfWayStarts(was: Symbols, t: Tree)
    requires Inside(t, |was|)
    ensures HalfWay(was, was, t, t) && Done(was, t, t) == 0
  {
  }

  predicate OutsideSame(was: Symbols, sy: Symbols, t: Tree)
  {
    |was| == |sy| && forall j :: 0 <= j < |sy| && j !in Indices(t) ==> sy[j] == was[j]
  }

  lemma HalvedAll(was: Symbols, sy: Symbols, t: Tree)
    requires Inside(t, |sy|) && OutsideSame(was, sy, t) && HalfWay(was, sy, t, Leaf)
    ensures Halved(was, sy, t) && Linked(sy, t, 0, 0) && Done(sy, t, Leaf) == Counts(sy, t)
  {
    HalfWayDone(was, sy, t);
  }

  lemma RestLinked(was: Symbols, sy: Symbols, rest: Tree)
    requires |was| == |sy| && Inside(rest, |sy|) && Linked(was, rest, 0, 0)
    requires forall j :: j in Indices(rest) && j < |sy| ==> sy[j] == was[j]
    ensures Linked(sy, rest, 0, 0) && Counts(sy, rest) == Counts(was, rest)
  {
    LinkedSame(was, sy, rest, 0, 0, 0);
  }

  lemma OutsideStays(was: Symbols, sy: Symbols, sy': Symbols, t: Tree, rest: Tree)
    requires OutsideSame(was, sy, t) && |sy'| == |sy| && rest.Node? && Indices(rest) <= Indices(t)
    requires forall j :: 0 <= j < |sy| && j != rest.index && j !in Indices(rest.left) ==> sy'[j] == sy[j]
    ensures OutsideSame(was, sy', t)
  {
    NodeHas(rest);
  }

  /** Where the loop goes on. */
  lemma RightLink(was: Symbols, sy: Symbols, rest: Tree)
    requires rest.Node? && Inside(rest, |sy|) && |was| == |sy| && HalfWay(was, sy, rest, rest.right)
    ensures LinkTo(rest.index, sy[rest.index].right, rest.right) && Size(rest.right) < Size(rest)
  {
    RightIsSmaller(rest);
  }

  lemma SmallerParts(t: Tree)
    requires t.Node?
    ensures Size(t.left) < Size(t) && Size(t.right) < Size(t)
  {
  }

  lemma LeftHalved(was: Symbols, mid: Symbols, sy: Symbols, t: Tree)
    requires t.Node? && t.index < |was| == |mid| && mid == was[t.index := mid[t.index]] && Halved(mid, sy, t.left)
    requires t.index !in Indices(t.left) && Inside(t.left, |mid|)
    ensures sy[t.index] == mid[t.index] && Counts(sy, t.left) <= Counts(mid, t.left)
    ensures forall j :: 0 <= j < |sy| && j != t.index ==>
      if j in Indices(t.left) then sy[j] == was[j].(count := was[j].count - was[j].count / 2, under := sy[j].under)
      else sy[j] == was[j]
  {
    HalvedCounts(mid, sy, t.left);
  }

  // ---------- Settling a context ----------

  /** Context c has counted a symbol, and its total does not yet. */
  ghost predicate Owes(sy: Symbols, n: nat, trees: Trees, depth: seq<nat>, c: nat, symbol: nat)
  {
    && Forest(sy, n, trees, depth) && c < n && symbol in Indices(trees[c])
    && (forall e :: 0 <= e < n ==> Inside(trees[e], |sy|) && Adds(sy, trees, e, if e == c then Delta(c) else 0))
    && (forall e :: 0 <= e < n && e != c ==> Limits(sy, trees, e))
    && sy[c].total <= F.RESCALE_TOTAL
    && (forall i :: i in Indices(trees[c]) && i != symbol && i < |sy| ==> sy[i].count <= 0xFF - Delta(c))
  }

  lemma LearntOwes(was: Symbols, n: nat, trees: Trees, depth: seq<nat>,
                   sy: Symbols, n': nat, trees': Trees, depth': seq<nat>, c: nat, symbol: nat)
    requires Settled(was, n, trees, depth)
    requires Learnt(was, n, trees, depth, sy, n', trees', depth', c, symbol, Delta(c))
    ensures Owes(sy, n', trees', depth', c, symbol)
  {
    hide Linked, Counts, Inside, Apart, Indices, Settled, Adds, Limits, TreeOk;
    OwnLearnt(was, n, trees, depth, sy, n', trees', depth', c, symbol);
    forall e: nat | e < n'
      ensures Inside(trees'[e], |sy|) && Adds(sy, trees', e, if e == c then Delta(c) else 0)
      ensures e != c ==> Limits(sy, trees', e)
    {
      if e != c {
        if e == n {
          NewLearnt(was, n, trees, depth, sy, n', trees', depth', c, symbol);
        } else {
          OtherLearnt(was, n, trees, depth, sy, n', trees', depth', c, symbol, e);
        }
      }
    }
  }

  /** The context itself. */
  lemma OwnLearnt(was: Symbols, n: nat, trees: Trees, depth: seq<nat>,
                  sy: Symbols, n': nat, trees': Trees, depth': seq<nat>, c: nat, symbol: nat)
    requires Settled(was, n, trees, depth)
    requires Learnt(was, n, trees, depth, sy, n', trees', depth', c, symbol, Delta(c))
    ensures Inside(trees'[c], |sy|) && Adds(sy, trees', c, Delta(c)) && sy[c].total <= F.RESCALE_TOTAL
    ensures symbol in Indices(trees'[c])
    ensures forall i :: i in Indices(trees'[c]) && i != symbol && i < |sy| ==> sy[i].count <= 0xFF - Delta(c)
  {
    hide Linked, Counts, Inside, Apart, Indices, TreeOk;
    ContextIs(was, n, trees, depth, c);
    forall i | i in Indices(trees'[c]) && i != symbol
      ensures i < n && sy[i].count <= 0xFF - Delta(c)
    {
      assert i in Indices(trees[c]);
    }
    assert symbol in Indices(trees[c]) + {symbol};
  }

  /** The context of a new symbol. */
  lemma NewLearnt(was: Symbols, n: nat, trees: Trees, depth: seq<nat>,
                  sy: Symbols, n': nat, trees': Trees, depth': seq<nat>, c: nat, symbol: nat)
    requires Learnt(was, n, trees, depth, sy, n', trees', depth', c, symbol, Delta(c)) && n < n'
    ensures Inside(trees'[n], |sy|) && Adds(sy, trees', n, 0) && Limits(sy, trees', n)
  {
    hide Linked, Counts, Inside, Apart, TreeOk;
    LeafOk(sy, n');
  }

  lemma OtherLearnt(was: Symbols, n: nat, trees: Trees, depth: seq<nat>,
                    sy: Symbols, n': nat, trees': Trees, depth': seq<nat>, c: nat, symbol: nat, e: nat)
    requires Settled(was, n, trees, depth)
    requires Learnt(was, n, trees, depth, sy, n', trees', depth', c, symbol, Delta(c)) && e < n && e != c
    ensures Inside(trees'[e], |sy|) && Adds(sy, trees', e, 0) && Limits(sy, trees', e)
  {
    hide Linked, Counts, Inside, Apart, Indices;
    ContextIs(was, n, trees, depth, e);
    assert symbol in Indices(trees'[c]);
    assert Indices(trees'[e]) !! Indices(trees'[c]);
    CountsSame(was, sy, trees[e]);
  }

  /** The fields of context c after the update. */
  function Paid(sy: Symbols, c: nat, learn: nat): (sy': Symbols)
    requires c < |sy| && sy[c].escapes + learn < 0x1_0000 && sy[c].total + learn + Delta(c) < 0x1_0000
  {
    sy[c := sy[c].(escapes := sy[c].escapes + learn, total := sy[c].total + learn + Delta(c))]
  }

  /** Every sum is right again; only the limits of c may be exceeded. */
  ghost predicate Full(sy: Symbols, n: nat, trees: Trees, depth: seq<nat>, c: nat)
  {
    && Forest(sy, n, trees, depth) && c < n
    && (forall e :: 0 <= e < n ==> Inside(trees[e], |sy|) && Adds(sy, trees, e, 0))
    && (forall e :: 0 <= e < n && e != c ==> Limits(sy, trees, e))
  }

  lemma PaidIsFull(sy: Symbols, n: nat, trees: Trees, depth: seq<nat>, c: nat, symbol: nat, learn: nat)
    requires Owes(sy, n, trees, depth, c, symbol) && learn <= 5
    ensures c < |sy| == SYMBOLS && |trees| == n && symbol < |sy|
    ensures sy[c].escapes + learn < 0x1_0000 && sy[c].total + learn + Delta(c) < 0x1_0000
    ensures var sy' := Paid(sy, c, learn);
      && Full(sy', n, trees, depth, c)
      && (sy'[c].total <= F.RESCALE_TOTAL && sy[symbol].count <= 0xFF - Delta(c) ==> Settled(sy', n, trees, depth))
  {
    hide Linked, Counts, Inside, Apart, Indices;
    assert Adds(sy, trees, c, Delta(c));
    assert TreeOk(sy, n, trees, depth, c);
    InsideBounds(trees[c], |sy|);
    var sy' := Paid(sy, c, learn);
    SameTrees(sy, sy', n, trees, depth);
    forall e: nat | e < n
      ensures Adds(sy', trees, e, 0) && (e != c ==> Limits(sy', trees, e))
    {
      assert Adds(sy, trees, e, if e == c then Delta(c) else 0);
      assert e != c ==> Limits(sy, trees, e);
    }
  }

  /** The fields of context c after its tree was rescaled to the given sum. */
  function Shrunk(sy: Symbols, c: nat, total: nat): (sy': Symbols)
    requires c < |sy| && total + (sy[c].escapes - sy[c].escapes / 2) + 256 * Least(c) < 0x1_0000
  {
    var escapes := sy[c].escapes - sy[c].escapes / 2;
    sy[c := sy[c].(escapes := escapes, total := total + escapes + 256 * Least(c))]
  }

  lemma ShrunkIsSettled(was: Symbols, sy: Symbols, n: nat, trees: Trees, depth: seq<nat>, c: nat)
    requires Full(was, n, trees, depth, c) && Halved(was, sy, trees[c])
    requires Inside(trees[c], |sy|) && Linked(sy, trees[c], 0, 0)
    ensures c < |sy| && Counts(sy, trees[c]) + (sy[c].escapes - sy[c].escapes / 2) + 256 * Least(c) < 0x1_0000
    ensures Settled(Shrunk(sy, c, Counts(sy, trees[c])), n, trees, depth)
  {
    hide Linked, Counts, Inside, Apart, Indices;
    assert TreeOk(was, n, trees, depth, c);
    assert Adds(was, trees, c, 0);
    InsideBounds(trees[c], n);
    HalvedCounts(was, sy, trees[c]);
    SizeFits(trees[c], n);
    var sy' := Shrunk(sy, c, Counts(sy, trees[c]));
    HalvedForest(was, sy, n, trees, depth, c);
    SameTrees(sy, sy', n, trees, depth);
    forall e: nat | e < n
      ensures Adds(sy', trees, e, 0) && Limits(sy', trees, e)
    {
      assert Adds(was, trees, e, 0);
      assert e != c ==> Limits(was, trees, e);
      OtherHalved(was, sy, n, trees, depth, c, e);
    }
  }

  lemma HalvedForest(was: Symbols, sy: Symbols, n: nat, trees: Trees, depth: seq<nat>, c: nat)
    requires Forest(was, n, trees, depth) && c < n && Halved(was, sy, trees[c])
    requires Inside(trees[c], |sy|) && Linked(sy, trees[c], 0, 0)
    ensures Forest(sy, n, trees, depth)
  {
    hide Linked, Counts, Inside, Apart, Indices;
    forall e: nat | e < n
      ensures TreeOk(sy, n, trees, depth, e)
    {
      assert TreeOk(was, n, trees, depth, e);
      if e != c {
        OtherTree(was, sy, n, trees, depth, c, e);
      }
    }
  }

  lemma OtherHalved(was: Symbols, sy: Symbols, n: nat, trees: Trees, depth: seq<nat>, c: nat, e: nat)
    requires Forest(was, n, trees, depth) && c < n && e < n && Halved(was, sy, trees[c])
    ensures Inside(trees[e], |sy|) && sy[e].escapes == was[e].escapes && sy[e].total == was[e].total
    ensures e != c ==> Counts(sy, trees[e]) == Counts(was, trees[e])
    ensures e != c ==> forall i :: i in Indices(trees[e]) && i < |sy| ==> sy[i].count == was[i].count
  {
    hide Linked, Counts, Apart, Inside, Indices;
    assert TreeOk(was, n, trees, depth, e);
    if e != c {
      OtherTree(was, sy, n, trees, depth, c, e);
    }
  }
}
