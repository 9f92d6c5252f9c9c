/** What the model of toxtun/compress.c stands for, in terms of the text alone: which contexts there
    are, what each has seen, in which one a byte is coded, and with which event. */
module CompressionText {
  import opened Words
  import opened RangeInterval
  import opened FrequencyModel
  import opened CompressionSpec

  // ---------- The text ----------

  /** The last n bytes of a text, or all of them. */
  function Suffix(y: seq<u8>, n: nat): (p: Path)
    ensures |p| == if |y| < n then |y| else n
  {
    if |y| < n then y else y[|y| - n..]
  }

  predicate HasAt(y: seq<u8>, i: nat, p: Path)
  {
    i + |p| <= |y| && y[i..i + |p|] == p
  }

  predicate Occurs(p: Path, y: seq<u8>)
  {
    exists i :: 0 <= i <= |y| && HasAt(y, i, p)
  }

  /** The stretches of at most three bytes that occur in a text. */
  function Pieces(y: seq<u8>): (ps: set<Path>)
  {
    if y == [] then {[]} else Pieces(y[..|y| - 1]) + {Suffix(y, 1), Suffix(y, 2), Suffix(y, 3)}
  }

  /** Where a stretch occurs once the text is longer: it did before, or it is its end. */
  lemma OccursNext(p: Path, y: seq<u8>)
    requires y != []
    ensures Occurs(p, y) <==> Occurs(p, y[..|y| - 1]) || p == Suffix(y, |p|)
  {
    hide Suffix;
    var n := |y| - 1;
    SuffixAt(y, |p|);
    if Occurs(p, y) {
      var i :| 0 <= i <= |y| && HasAt(y, i, p);
      if i + |p| <= n {
        assert HasAt(y[..n], i, p);
      }
    }
    if Occurs(p, y[..n]) {
      var i :| 0 <= i <= n && HasAt(y[..n], i, p);
      assert HasAt(y, i, p);
    }
    if p == Suffix(y, |p|) {
      assert HasAt(y, |y| - |p|, p);
    }
  }

  lemma SuffixAt(y: seq<u8>, n: nat)
    ensures n <= |y| ==> Suffix(y, n) == y[|y| - n..|y|]
    ensures n > |y| ==> |Suffix(y, n)| < n
    ensures |Suffix(y, n)| <= |y| && Suffix(y, |Suffix(y, n)|) == Suffix(y, n)
  {
  }

  lemma {:induction false} PieceIff(p: Path, y: seq<u8>)
    ensures p in Pieces(y) <==> |p| <= 3 && Occurs(p, y)
    decreases |y|
  {
    hide Suffix, Occurs;
    if y == [] {
      NoPiece(p);
    } else {
      PieceIff(p, y[..|y| - 1]);
      OccursNext(p, y);
      SuffixAt(y, 1);
      SuffixAt(y, 2);
      SuffixAt(y, 3);
      if p == [] {
        NonePiece(y);
      }
    }
  }

  lemma NoPiece(p: Path)
    ensures Occurs(p, []) <==> p == []
  {
    if p == [] {
      assert HasAt([], 0, p);
    }
  }

  lemma {:induction false} NonePiece(y: seq<u8>)
    ensures [] in Pieces(y)
    decreases |y|
  {
    if y != [] {
      NonePiece(y[..|y| - 1]);
    }
  }

  lemma PiecesNext(y: seq<u8>, v: u8)
    ensures Pieces(y + [v]) == Pieces(y) + {[v], Suffix(y, 1) + [v], Suffix(y, 2) + [v]}
  {
    assert (y + [v])[..|y|] == y;
    SuffixNext(y, v, 0);
    SuffixNext(y, v, 1);
    SuffixNext(y, v, 2);
  }

  lemma SuffixNext(y: seq<u8>, v: u8, n: nat)
    ensures Suffix(y + [v], n + 1) == Suffix(y, n) + [v]
  {
  }

  /** The bytes since the model started afresh: it does so when 4094 of its symbols are in use, one
      for each piece. */
  function Recent(x: seq<u8>): (y: seq<u8>)
  {
    if x == [] then []
    else
      var y := Recent(x[..|x| - 1]) + [x[|x| - 1]];
      if |Pieces(y)| >= 4094 then [] else y
  }

  /** They are the end of the text. */
  lemma {:induction false} RecentIsSuffix(x: seq<u8>)
    ensures |Recent(x)| <= |x| && Recent(x) == x[|x| - |Recent(x)|..] && |Pieces(Recent(x))| < 4094
    decreases |x|
  {
    hide Pieces;
    if x == [] {
      NoPieces();
    } else {
      RecentIsSuffix(x[..|x| - 1]);
      NoPieces();
    }
  }

  lemma NoPieces()
    ensures |Pieces([])| == 1
  {
  }

  /** The state after a text. */
  function After(x: seq<u8>): (s: State)
  {
    if x == [] then Initial() else Step(After(x[..|x| - 1]), x[|x| - 1])
  }

  lemma {:induction false} AfterOk(x: seq<u8>)
    ensures StateOk(After(x))
    decreases |x|
  {
    hide StateOk, Step, Initial;
    if x == [] {
      InitialOk();
    } else {
      AfterOk(x[..|x| - 1]);
      StepOk(After(x[..|x| - 1]), x[|x| - 1]);
    }
  }

  // ---------- Which contexts there are ----------

  /** The symbols an update makes sure of: one for the value in each context of the chain. */
  function ChainSymbols(p: Path, v: u8): (ps: set<Path>)
    decreases |p|
  {
    {p + [v]} + if p == [] then {} else ChainSymbols(p[1..], v)
  }

  lemma {:induction false} ChainKnown(m: Model, p: Path, v: u8, x: Path)
    requires TailClosedBut(m, x) && p + [v] in m && [] in m && (x == [] || |x| > |p| + 1)
    ensures ChainSymbols(p, v) <= m.Keys
    decreases |p|
  {
    if p != [] {
      assert TailOk(m, p + [v]);
      assert (p + [v])[1..] == p[1..] + [v];
      ChainKnown(m, p[1..], v, x);
    }
  }

  lemma {:induction false} UpdateKeys(m: Model, p: Path, v: u8, x: Path)
    requires ModelOk(m) && Tails(m, p) && |p| <= 2 && TailClosedBut(m, x)
    requires x == [] || (|x| == |p| + 2 && x[1..] == p + [v])
    ensures UpdateFrom(m, p, v).Keys == m.Keys + ChainSymbols(p, v)
    decreases |p|
  {
    hide *;
    ChainFacts(m, p, 0, v);
    UpdateUnfolds(m, p, v);
    TouchOk(m, p, v);
    TouchTailClosed(m, Touch(m, p, v), p, v, x);
    ChainUnfolds(p, v);
    if p != [] && m[p].freq[v] == 0 {
      ChainFacts(m, p, 1, v);
      TouchTails(m, p, p[1..], v);
      assert (p + [v])[1..] == p[1..] + [v];
      UpdateKeys(Touch(m, p, v), p[1..], v, p + [v]);
    } else if p != [] {
      ChainKnown(m, p, v, x);
    }
  }

  lemma ChainUnfolds(p: Path, v: u8)
    ensures p == [] ==> ChainSymbols(p, v) == {p + [v]}
    ensures p != [] ==> ChainSymbols(p, v) == {p + [v]} + ChainSymbols(p[1..], v)
  {
  }

  lemma ChainIs(y: seq<u8>, v: u8)
    ensures ChainSymbols(Suffix(y, 2), v) == {[v], Suffix(y, 1) + [v], Suffix(y, 2) + [v]}
  {
    hide Suffix, ChainSymbols;
    var p := Suffix(y, 2);
    SuffixShort(y);
    ChainUnfolds(p, v);
    ChainUnfolds([], v);
    assert [] + [v] == [v];
    if |y| >= 2 {
      ChainUnfolds(p[1..], v);
      assert p[1..][1..] == [];
    }
  }

  /** The chain of contexts that end a text. */
  lemma SuffixShort(y: seq<u8>)
    ensures |y| == 0 ==> Suffix(y, 2) == [] && Suffix(y, 1) == []
    ensures |y| == 1 ==> Suffix(y, 2) == Suffix(y, 1) == y && Suffix(y, 2)[1..] == []
    ensures |y| >= 2 ==> |Suffix(y, 2)| == 2 && Suffix(y, 2)[1..] == Suffix(y, 1)
  {
  }

  /** The next byte is predicted in the context of the last two bytes, or as many as there are, since
      the model started afresh; the model has a symbol for each stretch of up to three bytes of
      that text and no other. */
  lemma {:induction false} ContextsAreText(x: seq<u8>)
    ensures After(x).predicted == Suffix(Recent(x), 2)
    ensures After(x).model.Keys == Pieces(Recent(x))
    decreases |x|
  {
    hide Step, Pieces, StateOk, Recent;
    NothingYet();
    if x != [] {
      var front, v := x[..|x| - 1], x[|x| - 1];
      ContextsAreText(front);
      AfterOk(front);
      RecentNext(front, v);
      assert front + [v] == x;
      StepKeys(After(front), Recent(front), v);
    }
  }

  lemma NothingYet()
    ensures Recent([]) == [] && After([]) == Initial()
    ensures Pieces([]) == Initial().model.Keys && Initial().predicted == []
  {
  }

  lemma RecentNext(x: seq<u8>, v: u8)
    ensures Recent(x + [v]) == if |Pieces(Recent(x) + [v])| >= 4094 then [] else Recent(x) + [v]
    ensures After(x + [v]) == Step(After(x), v)
  {
    assert (x + [v])[..|x|] == x;
  }

  lemma StepKeys(s: State, y: seq<u8>, v: u8)
    requires StateOk(s) && s.predicted == Suffix(y, 2) && s.model.Keys == Pieces(y)
    ensures UpdateFrom(s.model, s.predicted, v).Keys == Pieces(y + [v])
    ensures var r, full := Step(s, v), |Pieces(y + [v])| >= 4094;
      && (full ==> r == Initial())
      && (!full ==> r.predicted == Suffix(y + [v], 2) && r.model == UpdateFrom(s.model, s.predicted, v))
  {
    hide ModelOk, Tails, Initial, TailClosed, UpdateFrom, Pieces, TailClosedBut, ChainSymbols;
    TailClosedIsBut(s.model);
    UpdateKeys(s.model, s.predicted, v, []);
    ChainIs(y, v);
    PiecesNext(y, v);
    var m := UpdateFrom(s.model, s.predicted, v);
    assert |m| == |m.Keys|;
    if |y| >= 2 {
      assert (Suffix(y, 2) + [v])[1..] == Suffix(y + [v], 2);
    } else {
      assert Suffix(y, 2) + [v] == Suffix(y + [v], 2);
    }
  }

  /** The values a context knows are the bytes that followed it since the model started afresh. */
  lemma KnownValues(x: seq<u8>, p: Path, v: u8)
    requires |p| <= 2
    ensures p in After(x).model <==> Occurs(p, Recent(x))
    ensures p in After(x).model ==>
      var c := After(x).model[p]; |c.freq| == 256 && (c.freq[v] > 0 <==> Occurs(p + [v], Recent(x)))
  {
    hide Initial, Step, Pieces, Occurs, After, Recent;
    ContextsAreText(x);
    AfterOk(x);
    PieceIff(p, Recent(x));
    PieceIff(p + [v], Recent(x));
    var m := After(x).model;
    if p in m {
      assert SymbolOk(m, p, v);
    }
  }

  // ---------- What each context has seen ----------

  /** Value v, coming after text y, is coded in context p, or learnt there after an escape: p ends the
      text, and in no longer context that ends it has the value come before. */
  predicate Learns(p: Path, y: seq<u8>, v: u8)
  {
    && |p| <= 2 && p == Suffix(y, |p|)
    && (forall n :: |p| < n <= 2 && n <= |y| ==> Suffix(y, n) + [v] !in Pieces(y))
  }

  /** The values coded or learnt in context p, in order. */
  function Learnt(p: Path, y: seq<u8>): (vs: seq<u8>)
  {
    if y == [] then []
    else
      var front, v := y[..|y| - 1], y[|y| - 1];
      Learnt(p, front) + if Learns(p, front, v) then [v] else []
  }

  /** The table of a context that has seen these values. */
  function Table(p: Path, vs: seq<u8>): (c: Context)
    ensures |c.freq| == 256
  {
    if vs == [] then if p == [] then Root() else Empty()
    else Touched(Table(p, vs[..|vs| - 1]), p, vs[|vs| - 1])
  }

  function Times(vs: seq<u8>, u: u8): (n: nat)
  {
    if vs == [] then 0 else Times(vs[..|vs| - 1], u) + if vs[|vs| - 1] == u then 1 else 0
  }

  function Different(vs: seq<u8>): (n: nat)
  {
    if vs == [] then 0 else Different(vs[..|vs| - 1]) + if vs[|vs| - 1] in vs[..|vs| - 1] then 0 else 1
  }

  /** The total of a table never halved: three for each value of the root, with one for every byte and
      one escape; elsewhere two for each value and five for each different one. */
  function PlainTotal(p: Path, vs: seq<u8>): (n: nat)
  {
    if p == [] then 257 + 3 * |vs| else 2 * |vs| + 5 * Different(vs)
  }

  lemma {:induction false} TimesIff(vs: seq<u8>, u: u8)
    ensures Times(vs, u) > 0 <==> u in vs
    decreases |vs|
  {
    if vs != [] {
      TimesIff(vs[..|vs| - 1], u);
      assert vs == vs[..|vs| - 1] + [vs[|vs| - 1]];
    }
  }

  /** Until a count or the total reaches its bound, a table counts how often each value came. */
  lemma {:induction false} TableCounts(p: Path, vs: seq<u8>)
    requires forall u :: (if p == [] then 3 * Times(vs, u) + 3 else 2 * Times(vs, u) + 2) <= 0xFF
    requires PlainTotal(p, vs) <= RESCALE_TOTAL
    ensures var c := Table(p, vs);
      && c.total == PlainTotal(p, vs) && c.escapes == (if p == [] then 1 else 5 * Different(vs))
      && forall u: u8 :: c.freq[u] == if p == [] then 3 * Times(vs, u) else 2 * Times(vs, u)
    decreases |vs|
  {
    hide Rescaled, Zeros;
    if vs != [] {
      var front, v := vs[..|vs| - 1], vs[|vs| - 1];
      assert forall u :: Times(front, u) <= Times(vs, u);
      TableCounts(p, front);
      TimesIff(front, v);
    }
  }

  /** Coding or learning a value halves a table, rounding up, exactly when the value's count or the total
      would pass its bound. */
  lemma TableHalves(p: Path, vs: seq<u8>, v: u8)
    ensures var c, c', step := Table(p, vs), Table(p, vs + [v]), if p == [] then 3 else 2;
      var learn := if p != [] && c.freq[v] == 0 then 5 else 0;
      if c.freq[v] + 2 * step > 0xFF || c.total + learn + step > 0xFF00 then
        && c'.escapes == (c.escapes + learn + 1) / 2
        && (forall u: u8 :: c'.freq[u] == (c.freq[u] + (if u == v then step else 0) + 1) / 2)
        && c'.total == c'.escapes + Sum(c'.freq, 0, 256) + if p == [] then 256 else 0
      else
        && c'.escapes == c.escapes + learn && c'.total == c.total + learn + step
        && (forall u: u8 :: c'.freq[u] == c.freq[u] + if u == v then step else 0)
  {
    hide Rescaled, Grown, Sum, Zeros, NeedsRescale, Touched;
    assert (vs + [v])[..|vs|] == vs;
    var c := Table(p, vs);
    NeedsIff(c, p, v);
    GrownIs(c, p, v);
    RescaledIs(Grown(c, p, v), Minimum(p));
    TouchedIs(c, p, v);
  }

  lemma TouchedIs(c: Context, p: Path, v: u8)
    requires |c.freq| == 256
    ensures Touched(c, p, v) == if NeedsRescale(c, p, v) then Rescaled(Grown(c, p, v), Minimum(p)) else Grown(c, p, v)
  {
    hide Rescaled, Grown, NeedsRescale;
  }

  lemma NeedsIff(c: Context, p: Path, v: u8)
    requires |c.freq| == 256
    ensures NeedsRescale(c, p, v) <==>
      || c.freq[v] + 2 * Delta(p) > 0xFF
      || c.total + (if p != [] && c.freq[v] == 0 then 5 else 0) + Delta(p) > 0xFF00
  {
  }

  lemma GrownIs(c: Context, p: Path, v: u8)
    requires |c.freq| == 256
    ensures var r, learn := Grown(c, p, v), if p != [] && c.freq[v] == 0 then 5 else 0;
      && r.escapes == c.escapes + learn && r.total == c.total + learn + Delta(p) && |r.freq| == 256
      && forall u: u8 :: r.freq[u] == c.freq[u] + if u == v then Delta(p) else 0
  {
  }

  lemma RescaledIs(c: Context, minimum: nat)
    requires |c.freq| == 256
    ensures var r := Rescaled(c, minimum);
      && r.escapes == (c.escapes + 1) / 2 && |r.freq| == 256
      && (forall u: u8 :: r.freq[u] == (c.freq[u] + 1) / 2)
      && r.total == r.escapes + Sum(r.freq, 0, 256) + 256 * minimum
  {
    hide Sum;
  }

  /** The contexts an update touches. */
  predicate Reaches(m: Model, p: Path, v: u8, q: Path)
    decreases |p|
  {
    p in m && |m[p].freq| == 256 && (q == p || (p != [] && m[p].freq[v] == 0 && Reaches(m, p[1..], v, q)))
  }

  lemma {:induction false} ReachesShorter(m: Model, p: Path, v: u8, q: Path)
    requires Reaches(m, p, v, q)
    ensures |q| <= |p| && q in m && |m[q].freq| == 256
    decreases |p|
  {
    if q != p {
      ReachesShorter(m, p[1..], v, q);
    }
  }

  lemma {:induction false} ReachesFrame(m: Model, p: Path, v: u8, k: Path, q: Path)
    requires ModelOk(m) && k in m && |k| <= 2 && |p| < |k| && Tails(m, p)
    requires |m[k].freq| == 256
    ensures Reaches(Touch(m, k, v), p, v, q) == Reaches(m, p, v, q)
    decreases |p|
  {
    hide ModelOk, Touch;
    TouchLeaves(m, k, p, v);
    if p != [] {
      ReachesFrame(m, p[1..], v, k, q);
    }
  }

  lemma {:induction false} UpdateAt(m: Model, p: Path, v: u8, q: Path)
    requires ModelOk(m) && Tails(m, p) && |p| <= 2 && q in UpdateFrom(m, p, v)
    ensures Reaches(m, p, v, q) ==> q in m && |m[q].freq| == 256
    ensures UpdateFrom(m, p, v)[q]
         == if Reaches(m, p, v, q) then Touched(m[q], q, v) else if q in m then m[q] else Empty()
    decreases |p|
  {
    hide *;
    ChainFacts(m, p, 0, v);
    UpdateUnfolds(m, p, v);
    TouchOk(m, p, v);
    TouchIs(m, p, v);
    ReachesUnfolds(m, p, v, q);
    if p != [] && m[p].freq[v] == 0 {
      var r := Touch(m, p, v);
      ChainFacts(m, p, 1, v);
      TouchTails(m, p, p[1..], v);
      ReachesFrame(m, p[1..], v, p, q);
      UpdateAt(r, p[1..], v, q);
      if Reaches(m, p[1..], v, q) {
        ReachesShorter(m, p[1..], v, q);
        assert q != p && q != p + [v];
      }
    } else if Reaches(m, p, v, q) {
      ReachesShorter(m, p, v, q);
    }
  }

  lemma ReachesUnfolds(m: Model, p: Path, v: u8, q: Path)
    requires p in m && |m[p].freq| == 256
    ensures Reaches(m, p, v, q) <==> q == p || (p != [] && m[p].freq[v] == 0 && Reaches(m, p[1..], v, q))
  {
  }

  lemma TouchIs(m: Model, p: Path, v: u8)
    requires ModelOk(m) && p in m && |p| <= 2
    ensures |m[p].freq| == 256
    ensures forall q :: q in Touch(m, p, v) ==>
      Touch(m, p, v)[q] == if q == p then Touched(m[p], p, v) else if q in m then m[q] else Empty()
  {
    hide Touched, Empty, ContextOk;
    assert SymbolOk(m, p, v);
  }

  lemma ReachesIsLearns(s: State, y: seq<u8>, v: u8, q: Path)
    requires StateOk(s) && s.predicted == Suffix(y, 2) && s.model.Keys == Pieces(y)
    ensures Reaches(s.model, s.predicted, v, q) <==> Learns(q, y, v)
  {
    hide Pieces, ModelOk, Tails, TailClosed, Suffix, Reaches;
    var m, p := s.model, s.predicted;
    SuffixAt(y, 0);
    SuffixAt(y, |q|);
    SuffixPiece(y, 0);
    SuffixPiece(y, 1);
    SuffixPiece(y, 2);
    KnowsIff(m, y, p, v);
    ReachesUnfolds(m, p, v, q);
    if p != [] {
      SuffixTail(y);
      KnowsIff(m, y, p[1..], v);
      ReachesUnfolds(m, p[1..], v, q);
      if |p| == 2 {
        KnowsIff(m, y, [], v);
        assert p[1..][1..] == [];
        ReachesUnfolds(m, [], v, q);
      }
    }
    if q == Suffix(y, |q|) && |q| <= 2 {
      assert |q| < 2 && |y| >= 2 ==> (Learns(q, y, v) ==> Suffix(y, 2) + [v] !in Pieces(y));
      assert |q| < 1 && |y| >= 1 ==> (Learns(q, y, v) ==> Suffix(y, 1) + [v] !in Pieces(y));
    }
  }

  lemma KnowsIff(m: Model, y: seq<u8>, p: Path, v: u8)
    requires ModelOk(m) && m.Keys == Pieces(y) && p in m && |p| <= 2
    ensures |m[p].freq| == 256 && (m[p].freq[v] > 0 <==> p + [v] in Pieces(y))
  {
    hide Contents;
    assert SymbolOk(m, p, v);
  }

  lemma SuffixTail(y: seq<u8>)
    requires y != []
    ensures Suffix(y, 2)[1..] == if |y| == 1 then [] else Suffix(y, 1)
    ensures |y| == 1 ==> Suffix(y, 1) == Suffix(y, 2)
  {
  }

  lemma {:induction false} NeverLearnt(p: Path, y: seq<u8>)
    requires p !in Pieces(y)
    ensures Learnt(p, y) == []
    decreases |y|
  {
    hide Suffix;
    if y != [] {
      var front := y[..|y| - 1];
      NeverLearnt(p, front);
      if Learns(p, front, y[|y| - 1]) {
        SuffixPiece(front, |p|);
      }
    }
  }

  lemma SuffixPiece(y: seq<u8>, n: nat)
    requires n <= 3
    ensures Suffix(y, n) in Pieces(y)
  {
    hide Suffix, Pieces;
    SuffixAt(y, n);
    if n == 0 || y == [] {
      NonePiece(y);
    } else {
      PiecesHold(y);
      assert n == 1 || n == 2 || n == 3;
    }
  }

  lemma PiecesHold(y: seq<u8>)
    requires y != []
    ensures {Suffix(y, 1), Suffix(y, 2), Suffix(y, 3)} <= Pieces(y)
  {
    hide Suffix;
  }

  ghost predicate TablesAre(m: Model, y: seq<u8>)
  {
    forall p :: p in m ==> m[p] == Table(p, Learnt(p, y))
  }

  /** Each context's table is the one of the values coded or learnt in it since the model started
      afresh. */
  lemma {:induction false} TablesAreText(x: seq<u8>)
    ensures TablesAre(After(x).model, Recent(x))
    decreases |x|
  {
    hide Step, Pieces, StateOk, Recent, TablesAre, Initial, UpdateFrom;
    NothingYet();
    RootTable();
    if x != [] {
      var front, v := x[..|x| - 1], x[|x| - 1];
      TablesAreText(front);
      ContextsAreText(front);
      AfterOk(front);
      RecentNext(front, v);
      assert front + [v] == x;
      var s, y := After(front), Recent(front);
      StepKeys(s, y, v);
      TablesNext(s, y, v);
    }
  }

  lemma RootTable()
    ensures TablesAre(Initial().model, [])
  {
  }

  lemma TablesNext(s: State, y: seq<u8>, v: u8)
    requires StateOk(s) && s.predicted == Suffix(y, 2) && s.model.Keys == Pieces(y) && TablesAre(s.model, y)
    ensures TablesAre(UpdateFrom(s.model, s.predicted, v), y + [v])
  {
    hide ModelOk, TailClosed, UpdateFrom, Pieces, Suffix, Touched, Learns;
    var m' := UpdateFrom(s.model, s.predicted, v);
    assert (y + [v])[..|y|] == y && (y + [v])[|y|] == v;
    forall p | p in m'
      ensures m'[p] == Table(p, Learnt(p, y + [v]))
    {
      UpdateAt(s.model, s.predicted, v, p);
      ReachesIsLearns(s, y, v, p);
      var vs := Learnt(p, y);
      assert Learnt(p, y + [v]) == vs + if Learns(p, y, v) then [v] else [];
      if Learns(p, y, v) {
        assert (vs + [v])[..|vs|] == vs;
      } else {
        assert vs + [] == vs;
      }
      if p !in s.model {
        NeverLearnt(p, y);
        RootIsThere(s);
      }
    }
  }

  lemma RootIsThere(s: State)
    requires StateOk(s)
    ensures [] in s.model
  {
  }

  // ---------- What is coded ----------

  /** The events of value v after text y, from context p downwards: an escape from each context that
      has been followed by something but never by v, then the value in the first one that has, or
      in the root. */
  function TextEvents(y: seq<u8>, p: Path, v: u8): (es: seq<Event>)
    decreases |p|
  {
    var c := Table(p, Learnt(p, y));
    if p == [] || p + [v] in Pieces(y) then [SymbolEvent(c, p, v)]
    else EscapeEvents(c) + TextEvents(y, p[1..], v)
  }

  /** The events of a whole text. */
  function EventsOf(x: seq<u8>): (es: seq<Event>)
  {
    if x == [] then []
    else
      var y := Recent(x[..|x| - 1]);
      EventsOf(x[..|x| - 1]) + TextEvents(y, Suffix(y, 2), x[|x| - 1])
  }

  /** A byte is coded in the longest context, of two bytes, one or none, that it has followed since the
      model started afresh, or in the root; every event before that is an escape. */
  lemma CodedWhere(y: seq<u8>, v: u8) returns (k: nat)
    ensures k <= 2 && k <= |y| && (k == 0 || Occurs(Suffix(y, k) + [v], y))
    ensures forall n :: k < n <= 2 && n <= |y| ==> !Occurs(Suffix(y, n) + [v], y)
    ensures var es, p := TextEvents(y, Suffix(y, 2), v), Suffix(y, k);
      && es != [] && es[|es| - 1] == SymbolEvent(Table(p, Learnt(p, y)), p, v)
      && (forall i :: 0 <= i < |es| - 1 ==> es[i].under == 0)
  {
    hide Suffix, Pieces, Occurs, Table, Learnt, SymbolEvent, TextEvents;
    SuffixShort(y);
    SuffixAt(y, 0);
    PieceIff(Suffix(y, 1) + [v], y);
    PieceIff(Suffix(y, 2) + [v], y);
    TextUnfolds(y, Suffix(y, 2), v);
    TextUnfolds(y, [], v);
    if |y| >= 2 {
      TextUnfolds(y, Suffix(y, 1), v);
      SuffixAt(y, 1);
      assert Suffix(y, 1)[1..] == [];
    }
    k := if |y| >= 2 && Suffix(y, 2) + [v] in Pieces(y) then 2
         else if |y| >= 1 && Suffix(y, 1) + [v] in Pieces(y) then 1 else 0;
  }

  lemma TextUnfolds(y: seq<u8>, p: Path, v: u8)
    ensures var c := Table(p, Learnt(p, y));
      && (p == [] || p + [v] in Pieces(y) ==> TextEvents(y, p, v) == [SymbolEvent(c, p, v)])
      && (p != [] && p + [v] !in Pieces(y) ==> TextEvents(y, p, v) == EscapeEvents(c) + TextEvents(y, p[1..], v))
  {
    hide Pieces, Table, Learnt, SymbolEvent, EscapeEvents;
  }

  lemma {:induction false} EventsAreText(m: Model, y: seq<u8>, p: Path, v: u8)
    requires ModelOk(m) && Tails(m, p) && |p| <= 2 && m.Keys == Pieces(y) && TablesAre(m, y)
    ensures EventsFrom(m, p, v) == TextEvents(y, p, v)
    decreases |p|
  {
    hide ModelOk, Pieces, SymbolEvent, EscapeEvents, Table, Learnt;
    KnowsIff(m, y, p, v);
    if p != [] {
      EventsAreText(m, y, p[1..], v);
    }
  }

  /** These bytes are the events, range coded from interval c on, and the last interval's low end. */
  ghost predicate Codes(c: Interval, es: seq<Event>, bytes: seq<u8>)
  {
    && c.Ready() && AllValid(es)
    && bytes == CodeEvents(c, es).bytes + Flush(CodeEvents(c, es).interval.low)
  }

  lemma NoneCodes(c: Interval)
    requires c.Ready()
    ensures Codes(c, [], Flush(c.low))
  {
    hide Flush;
  }

  lemma MoreCodes(c: Interval, first: seq<Event>, later: seq<Event>, bytes: seq<u8>)
    requires c.Ready() && AllValid(first) && Codes(CodeEvents(c, first).interval, later, bytes)
    ensures Codes(c, first + later, CodeEvents(c, first).bytes + bytes)
  {
    hide *;
    CodesIs(CodeEvents(c, first).interval, later, bytes);
    CodeEventsSplit(c, first, later);
    var done, last := CodeEvents(c, first), CodeEvents(CodeEvents(c, first).interval, later);
    assert done.bytes + (last.bytes + Flush(last.interval.low)) == done.bytes + last.bytes + Flush(last.interval.low);
    CodesIs(c, first + later, done.bytes + bytes);
  }

  lemma CodesIs(c: Interval, es: seq<Event>, bytes: seq<u8>)
    requires c.Ready()
    ensures Codes(c, es, bytes) ==> AllValid(es)
    ensures AllValid(es) ==>
      var r := CodeEvents(c, es);
      && 0 <= r.interval.low < WORD && r.interval.Ready()
      && (Codes(c, es, bytes) <==> bytes == r.bytes + Flush(r.interval.low))
  {
    hide Flush, CodeEvents, AllValid;
  }

  /** The events of the rest of a text. */
  function EventsOn(front: seq<u8>, rest: seq<u8>): (es: seq<Event>)
    decreases |rest|
  {
    if rest == [] then []
    else TextEvents(Recent(front), Suffix(Recent(front), 2), rest[0]) + EventsOn(front + [rest[0]], rest[1..])
  }

  lemma {:induction false} EventsJoin(front: seq<u8>, rest: seq<u8>)
    ensures EventsOf(front + rest) == EventsOf(front) + EventsOn(front, rest)
    decreases |rest|
  {
    hide TextEvents, Recent, EventsOf;
    if rest == [] {
      assert front + rest == front;
    } else {
      EventsJoin(front + [rest[0]], rest[1..]);
      assert front + [rest[0]] + rest[1..] == front + rest;
      EventsNext(front, rest[0]);
    }
  }

  lemma EventsNext(x: seq<u8>, v: u8)
    ensures EventsOf(x + [v]) == EventsOf(x) + TextEvents(Recent(x), Suffix(Recent(x), 2), v)
  {
    hide TextEvents, Recent, Suffix;
    assert (x + [v])[..|x|] == x;
  }

  lemma {:induction false} EncodeIsText(front: seq<u8>, rest: seq<u8>, c: Interval)
    requires c.Ready()
    ensures StateOk(After(front)) && Codes(c, EventsOn(front, rest), Encode(c, After(front), rest))
    decreases |rest|
  {
    hide StateOk, Step, Recent, Pieces, EventsFrom, CodeEvents, TextEvents, Flush, AllValid, Codes, After;
    AfterOk(front);
    if rest == [] {
      NoneCodes(c);
    } else {
      var v := rest[0];
      ByteIsText(front, v);
      var s, y := After(front), Recent(front);
      var first := TextEvents(y, Suffix(y, 2), v);
      EncodeUnfolds(c, s, rest);
      EncodeIsText(front + [v], rest[1..], CodeEvents(c, first).interval);
      MoreCodes(c, first, EventsOn(front + [v], rest[1..]),
                Encode(CodeEvents(c, first).interval, Step(s, v), rest[1..]));
    }
  }

  lemma ByteIsText(front: seq<u8>, v: u8)
    ensures After(front + [v]) == Step(After(front), v)
    ensures var s, y := After(front), Recent(front);
      EventsFrom(s.model, s.predicted, v) == TextEvents(y, Suffix(y, 2), v)
  {
    hide Step, Pieces, Recent, EventsFrom, TextEvents, ModelOk, Tails, TablesAre;
    RecentNext(front, v);
    AfterOk(front);
    ContextsAreText(front);
    TablesAreText(front);
    var s, y := After(front), Recent(front);
    EventsAreText(s.model, y, s.predicted, v);
  }

  /** The compressed text is the range code of its events. */
  lemma CompressedIsText(x: seq<u8>)
    ensures Codes(START, EventsOf(x), Compressed(x))
  {
    hide StateOk, Encode, EventsOf, EventsOn, Codes, Initial, After;
    InitialOk();
    EncodeIsText([], x, START);
    EventsJoin([], x);
    NoText();
    assert [] + x == x && [] + EventsOn([], x) == EventsOn([], x);
  }

  lemma NoText()
    ensures EventsOf([]) == [] && After([]) == Initial()
  {
  }

  // ---------- Short texts ----------

  lemma {:induction false} FewPieces(y: seq<u8>)
    ensures |Pieces(y)| <= 1 + 3 * |y|
    decreases |y|
  {
    hide Suffix;
    if y != [] {
      FewPieces(y[..|y| - 1]);
      var front, more := Pieces(y[..|y| - 1]), {Suffix(y, 1), Suffix(y, 2), Suffix(y, 3)};
      ThreeAtMost(Suffix(y, 1), Suffix(y, 2), Suffix(y, 3));
      assert |front + more| <= |front| + |more|;
    }
  }

  lemma ThreeAtMost(a: Path, b: Path, c: Path)
    ensures |{a, b, c}| <= 3
  {
    assert {a, b, c} == {a} + {b} + {c};
  }

  /** The model never starts afresh in a text of up to 1364 bytes. */
  lemma {:induction false} ShortIsRecent(x: seq<u8>)
    requires |x| <= 1364
    ensures Recent(x) == x
    decreases |x|
  {
    hide Pieces;
    if x != [] {
      ShortIsRecent(x[..|x| - 1]);
      FewPieces(x);
      assert x[..|x| - 1] + [x[|x| - 1]] == x;
    }
  }

  lemma ZerosBelow(f: seq<nat>, v: nat, x: nat)
    requires |f| == 256 && Zero(f, 0, 256) && v < 256
    ensures Sum(f, 0, v) == 0 && Sum(f[v := x], 0, v) == 0
  {
    SumZero(f, 0, v);
    SumUpdate(f, v, x, 0, v);
  }

  /** What a table says about the first value it has seen. */
  lemma FirstValue(p: Path, v: u8)
    requires |p| <= 2
    ensures SymbolEvent(Table([], []), [], v) == Event(1 + v, 1, 257)
    ensures SymbolEvent(Table([], [v]), [], v) == Event(1 + v, 4, 260)
    ensures p != [] ==> SymbolEvent(Table(p, [v]), p, v) == Event(5, 2, 7) && EscapeEvents(Table(p, [])) == []
  {
    ZerosBelow(Zeros(), v, 3);
    ZerosBelow(Zeros(), v, 2);
    assert [v][..0] == [] && [v][0] == v;
    assert Table([], [v]) == Touched(Root(), [], v);
    assert p != [] ==> Table(p, [v]) == Touched(Empty(), p, v);
  }

  /** The first three bytes of a text, when they are the same: the first two are coded in the root,
      the second with the count of the first; the third is coded after one byte, where the second was
      learnt, because nothing has followed two. */
  lemma ThreeEqualBytes(v: u8)
    ensures EventsOf([v, v, v]) == [Event(1 + v, 1, 257), Event(1 + v, 4, 260), Event(5, 2, 7)]
  {
    hide TextEvents, Recent, Suffix, EventsOf;
    ShortIsRecent([]);
    ShortIsRecent([v]);
    ShortIsRecent([v, v]);
    FirstEvents(v);
    SecondEvents(v);
    ThirdEvents(v);
    NoText();
    EventsNext([], v);
    EventsNext([v], v);
    EventsNext([v, v], v);
    assert [] + [v] == [v] && [v] + [v] == [v, v] && [v, v] + [v] == [v, v, v];
  }

  lemma FirstEvents(v: u8)
    ensures TextEvents([], Suffix([], 2), v) == [Event(1 + v, 1, 257)]
  {
    hide Table, SymbolEvent;
    FirstValue([], v);
    assert Learnt([], []) == [] && Suffix([], 2) == [];
  }

  lemma SecondEvents(v: u8)
    ensures TextEvents([v], Suffix([v], 2), v) == [Event(1 + v, 4, 260)]
  {
    hide Table, SymbolEvent, EscapeEvents, Pieces, Suffix;
    FirstValue([v], v);
    LearntOnce(v);
    Singles(v);
    assert [v][1..] == [] && [v] + [v] == [v, v];
  }

  lemma ThirdEvents(v: u8)
    ensures TextEvents([v, v], Suffix([v, v], 2), v) == [Event(5, 2, 7)]
  {
    hide Table, SymbolEvent, EscapeEvents, Pieces, Suffix;
    FirstValue([v], v);
    FirstValue([v, v], v);
    LearntTwice(v);
    Singles(v);
    assert [v, v][1..] == [v] && [v, v] + [v] == [v, v, v] && [v] + [v] == [v, v];
  }

  lemma Singles(v: u8)
    ensures Suffix([v], 2) == [v] && Suffix([v, v], 2) == [v, v] && Suffix([v], 1) == [v] && Suffix([], 2) == []
    ensures [v, v] !in Pieces([v]) && [v, v, v] !in Pieces([v, v]) && [v, v] in Pieces([v, v])
  {
    assert [v][..0] == [] && [v, v][..1] == [v];
    assert Suffix([v], 3) == [v] && Suffix([v, v], 3) == [v, v] && Suffix([v, v], 1) == [v];
  }

  lemma LearntOnce(v: u8)
    ensures Learnt([v], [v]) == [] && Learnt([], [v]) == [v]
  {
    assert [v][..0] == [];
  }

  lemma LearntTwice(v: u8)
    ensures Learnt([v, v], [v, v]) == [] && Learnt([v], [v, v]) == [v]
  {
    hide Pieces;
    LearntOnce(v);
    Singles(v);
    assert [v, v][..1] == [v] && [v][..0] == [];
    assert Learns([v], [v], v);
    assert Learnt([v, v], [v]) == [];
  }

  /** So "aaa" is compressed to four bytes. */
  lemma ThreeLetters()
    ensures Compressed([97, 97, 97]) == [0x62, 0x01, 0x4C, 0xA3]
  {
    hide EventsOf, Compressed, Narrow, Normalise, Flush;
    CompressedIsText([97, 97, 97]);
    ThreeEqualBytes(97);
    var es := [Event(98, 1, 257), Event(98, 4, 260), Event(5, 2, 7)];
    var c1, c2 := Interval(0x619E_619E, 0xFF_00FF), Interval(0x61FE_7F46, 0x3_EC50);
    Stays(START, es[0], c1);
    Stays(c1, es[1], c2);
    LastShift(c2);
    assert es[1..][1..] == [es[2]] && es[1..][0] == es[1] && es[1..][1..][1..] == [];
    FlushThree();
  }

  /** An event after which no byte is shifted out. */
  lemma Stays(c: Interval, e: Event, c': Interval)
    requires c.Ready() && e.Valid() && c'.Sound()
    requires c' == Interval(c.low + e.under * (c.range / e.total), c.range / e.total * e.count)
    requires !c'.SameTop() && c'.range >= BOTTOM
    ensures CodeEvent(c, e) == Coded(c', [])
  {
    assert Narrow(c, e) == c';
  }

  lemma LastShift(c: Interval)
    requires c == Interval(0x61FE_7F46, 0x3_EC50)
    ensures c.Ready() && Event(5, 2, 7).Valid()
    ensures CodeEvent(c, Event(5, 2, 7)) == Coded(Interval(0x014C_A300, 0x11E_F200), [0x62])
  {
    var n := Narrow(c, Event(5, 2, 7));
    assert n == Interval(0x6201_4CA3, 0x1_1EF2);
    assert n.SameTop() && Trimmed(n) == n;
    assert Shifted(n) == Interval(0x014C_A300, 0x11E_F200);
  }

  lemma FlushThree()
    ensures Flush(0x014C_A300) == [0x01, 0x4C, 0xA3]
  {
    assert Flush(0x4CA3_0000) == [0x4C] + Flush(0xA300_0000);
    assert Flush(0xA300_0000) == [0xA3] + Flush(0);
  }
}
