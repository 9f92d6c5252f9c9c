/** The adaptive order-2 model of toxtun/compress.c as plain frequency tables.

    A context is named by the bytes that led to it, oldest first: [] is the root,
    [a] the context of byte a, [a, b] that of byte b after a.  The symbol for
    value v in context p is the node p + [v]; its `parent` is the same symbol one
    order lower, (p + [v])[1..]. */
module FrequencyModel {
  import opened Words
  import opened RangeInterval

  const SYMBOLS := 4096
  const SUBCONTEXT_ORDER := 2
  const RESCALE_TOTAL := BOTTOM - 0x100

  type Path = seq<u8>

  datatype Context = Context(escapes: nat, total: nat, freq: seq<nat>)

  type Model = map<Path, Context>

  function Zeros(): (f: seq<nat>)
    ensures |f| == 256 && Zero(f, 0, 256)
  {
    seq(256, _ => 0)
  }

  function Empty(): (c: Context)
  {
    Context(0, 0, Zeros())
  }

  function Root(): (c: Context)
  {
    Context(1, 257, Zeros())
  }

  // ---------- Sums over a table ----------

  function Sum(f: seq<nat>, a: nat, b: nat): (s: nat)
    requires a <= b <= |f|
    decreases b - a
  {
    if a == b then 0 else Sum(f, a, b - 1) + f[b - 1]
  }

  lemma {:induction false} SumSplit(f: seq<nat>, a: nat, b: nat, c: nat)
    requires a <= b <= c <= |f|
    ensures Sum(f, a, c) == Sum(f, a, b) + Sum(f, b, c)
    decreases c - b
  {
    if b < c {
      SumSplit(f, a, b, c - 1);
    }
  }

  lemma {:induction false} SumUpdate(f: seq<nat>, v: nat, x: nat, a: nat, b: nat)
    requires v < |f| && a <= b <= |f|
    ensures Sum(f[v := x], a, b) == Sum(f, a, b) + if a <= v < b then x - f[v] else 0
    decreases b - a
  {
    if a < b {
      SumUpdate(f, v, x, a, b - 1);
    }
  }

  predicate Zero(f: seq<nat>, a: nat, b: nat)
    requires a <= b <= |f|
  {
    forall v :: a <= v < b ==> f[v] == 0
  }

  lemma {:induction false} SumZero(f: seq<nat>, a: nat, b: nat)
    requires a <= b <= |f|
    ensures Sum(f, a, b) == 0 <==> Zero(f, a, b)
    decreases b - a
  {
    if a < b {
      SumZero(f, a, b - 1);
    }
  }

  function Halved(f: seq<nat>): (h: seq<nat>)
    ensures |h| == |f|
    ensures forall v :: 0 <= v < |f| ==> h[v] == f[v] - f[v] / 2
  {
    seq(|f|, v requires 0 <= v < |f| => f[v] - f[v] / 2)
  }

  lemma {:induction false} SumHalved(f: seq<nat>, a: nat, b: nat)
    requires a <= b <= |f|
    ensures 2 * Sum(Halved(f), a, b) <= Sum(f, a, b) + (b - a)
    ensures Sum(f, a, b) > 0 ==> Sum(Halved(f), a, b) > 0
    decreases b - a
  {
    if a < b {
      SumHalved(f, a, b - 1);
    }
  }

  // ---------- One context ----------

  function Minimum(p: Path): (m: nat)
  {
    if p == [] then 1 else 0
  }

  function Delta(p: Path): (d: nat)
  {
    if p == [] then 3 else 2
  }

  /** Largest own count, minimum included, that does not force a rescale. */
  function CountLimit(p: Path): (d: nat)
  {
    0xFF - 2 * Delta(p) + Minimum(p)
  }

  /** Codes below those of value v, the escapes excluded. */
  function Cumulative(f: seq<nat>, minimum: nat, v: nat): (s: nat)
    requires v <= |f|
  {
    v * minimum + Sum(f, 0, v)
  }

  predicate ContextOk(c: Context, p: Path)
  {
    && |c.freq| == 256
    && c.total == c.escapes + Sum(c.freq, 0, 256) + 256 * Minimum(p)
    && c.total <= RESCALE_TOTAL
    && (forall v :: 0 <= v < 256 ==> c.freq[v] + Delta(p) <= 0xFF)
    && (if p == [] then c.escapes == 1 else (c.escapes == 0 <==> Sum(c.freq, 0, 256) == 0))
  }

  /** The context after value v was coded in it, before any rescaling. */
  function Grown(c: Context, p: Path, v: u8): (r: Context)
    requires |c.freq| == 256
  {
    var learn := if p != [] && c.freq[v] == 0 then 5 else 0;
    Context(c.escapes + learn, c.total + learn + Delta(p), c.freq[v := c.freq[v] + Delta(p)])
  }

  function Rescaled(c: Context, minimum: nat): (r: Context)
    requires |c.freq| == 256
  {
    var escapes := c.escapes - c.escapes / 2;
    Context(escapes, Sum(Halved(c.freq), 0, 256) + escapes + 256 * minimum, Halved(c.freq))
  }

  predicate NeedsRescale(c: Context, p: Path, v: u8)
    requires |c.freq| == 256
  {
    c.freq[v] + Minimum(p) > CountLimit(p) || Grown(c, p, v).total > RESCALE_TOTAL
  }

  function Touched(c: Context, p: Path, v: u8): (r: Context)
    requires |c.freq| == 256
  {
    if NeedsRescale(c, p, v) then Rescaled(Grown(c, p, v), Minimum(p)) else Grown(c, p, v)
  }

  lemma GrownTotal(c: Context, p: Path, v: u8)
    requires ContextOk(c, p)
    ensures Grown(c, p, v).total == Grown(c, p, v).escapes + Sum(Grown(c, p, v).freq, 0, 256) + 256 * Minimum(p)
    ensures Grown(c, p, v).total <= RESCALE_TOTAL + 7
    ensures Sum(Grown(c, p, v).freq, 0, 256) > 0
  {
    hide Sum;
    SumUpdate(c.freq, v, c.freq[v] + Delta(p), 0, 256);
  }

  lemma GrownEscapes(c: Context, p: Path, v: u8)
    requires ContextOk(c, p)
    ensures if p == [] then Grown(c, p, v).escapes == 1 else Grown(c, p, v).escapes > 0
  {
    SumZero(c.freq, 0, 256);
  }

  lemma TouchedOk(c: Context, p: Path, v: u8)
    requires ContextOk(c, p)
    ensures ContextOk(Touched(c, p, v), p)
    ensures |Touched(c, p, v).freq| == 256
    ensures forall u :: 0 <= u < 256 ==> (Touched(c, p, v).freq[u] > 0 <==> c.freq[u] > 0 || u == v)
  {
    GrownTotal(c, p, v);
    GrownEscapes(c, p, v);
    GrownCounts(c, p, v);
    hide Sum, Grown, ContextOk, Rescaled;
    if NeedsRescale(c, p, v) {
      RescaledFits(Grown(c, p, v), p);
    } else {
      GrownOk(c, p, v);
    }
  }

  lemma GrownCounts(c: Context, p: Path, v: u8)
    requires ContextOk(c, p)
    ensures |Grown(c, p, v).freq| == 256
    ensures forall u :: 0 <= u < 256 ==> Grown(c, p, v).freq[u] <= 0xFF
    ensures forall u :: 0 <= u < 256 ==> (Grown(c, p, v).freq[u] > 0 <==> c.freq[u] > 0 || u == v)
  {
    hide Sum;
  }

  lemma GrownOk(c: Context, p: Path, v: u8)
    requires ContextOk(c, p) && !NeedsRescale(c, p, v)
    ensures ContextOk(Grown(c, p, v), p)
  {
    GrownTotal(c, p, v);
    GrownEscapes(c, p, v);
    hide Sum;
  }

  lemma RescaledFits(g: Context, p: Path)
    requires |g.freq| == 256
    requires g.total == g.escapes + Sum(g.freq, 0, 256) + 256 * Minimum(p)
    requires g.total <= RESCALE_TOTAL + 7
    requires Sum(g.freq, 0, 256) > 0
    requires forall u :: 0 <= u < 256 ==> g.freq[u] <= 0xFF
    requires if p == [] then g.escapes == 1 else g.escapes > 0
    ensures ContextOk(Rescaled(g, Minimum(p)), p)
    ensures forall u :: 0 <= u < 256 ==> (Rescaled(g, Minimum(p)).freq[u] > 0 <==> g.freq[u] > 0)
  {
    hide Sum;
    SumHalved(g.freq, 0, 256);
  }

  // ---------- The whole model ----------

  predicate Present(m: Model, p: Path, v: u8)
  {
    p in m && |m[p].freq| == 256 && m[p].freq[v] > 0
  }

  predicate Sized(m: Model)
  {
    forall p :: p in m ==> |p| <= 3 && |m[p].freq| == 256
  }

  predicate ParentOk(m: Model, p: Path)
  {
    p != [] ==> p[..|p| - 1] in m
  }

  /** A symbol is a node exactly when its count is positive. */
  predicate SymbolOk(m: Model, p: Path, v: u8)
    requires p in m && |m[p].freq| == 256
  {
    m[p].freq[v] > 0 <==> p + [v] in m
  }

  predicate LeafOk(m: Model, p: Path)
    requires p in m && |m[p].freq| == 256
  {
    |p| == 3 ==> Zero(m[p].freq, 0, 256)
  }

  predicate Shape(m: Model)
  {
    && [] in m
    && Sized(m)
    && (forall p {:trigger ParentOk(m, p)} :: p in m ==> ParentOk(m, p))
    && (forall p {:trigger LeafOk(m, p)} :: p in m ==> LeafOk(m, p))
    && (forall p, v: u8 {:trigger SymbolOk(m, p, v)} :: p in m && |p| <= 2 ==> SymbolOk(m, p, v))
  }

  predicate Contents(m: Model)
  {
    forall p :: p in m ==> ContextOk(m[p], p)
  }

  predicate ModelOk(m: Model)
  {
    Shape(m) && Contents(m)
  }

  predicate TailOk(m: Model, p: Path)
  {
    p != [] ==> p[1..] in m
  }

  predicate TailClosed(m: Model)
  {
    forall p {:trigger TailOk(m, p)} :: p in m ==> TailOk(m, p)
  }

  /** Codes value v once in context p: the context is touched and, if it had no
      such symbol, the symbol is created as a new, empty context. */
  function Touch(m: Model, p: Path, v: u8): (r: Model)
    requires p in m && |m[p].freq| == 256
  {
    var grown := m[p := Touched(m[p], p, v)];
    if m[p].freq[v] == 0 then grown[p + [v] := Empty()] else grown
  }

  lemma EmptyIsOk(p: Path)
    requires p != []
    ensures ContextOk(Empty(), p)
    ensures |Empty().freq| == 256 && Zero(Empty().freq, 0, 256)
  {
    SumZero(Empty().freq, 0, 256);
  }

  /** An update adds at most the context of the value. */
  lemma TouchKeys(m: Model, p: Path, v: u8)
    requires Shape(m) && p in m && |p| <= 2
    ensures Touch(m, p, v).Keys == m.Keys + {p + [v]} && |m[p].freq| == 256
    ensures forall q :: q in m && q != p ==> Touch(m, p, v)[q] == m[q]
    ensures Touch(m, p, v)[p] == Touched(m[p], p, v)
    ensures p + [v] !in m ==> Touch(m, p, v)[p + [v]] == Empty()
  {
    hide Touched, Empty, ParentOk, LeafOk;
    LastByte(p, v);
    assert SymbolOk(m, p, v);
  }

  lemma TouchSymbol(m: Model, p: Path, v: u8, q: Path, u: u8)
    requires Shape(m) && p in m && |p| <= 2 && |m[p].freq| == 256
    requires |Touched(m[p], p, v).freq| == 256
    requires forall u :: 0 <= u < 256 ==> (Touched(m[p], p, v).freq[u] > 0 <==> m[p].freq[u] > 0 || u == v)
    requires q in Touch(m, p, v) && |q| <= 2
    ensures |Touch(m, p, v)[q].freq| == 256 && SymbolOk(Touch(m, p, v), q, u)
  {
    hide Touched, Touch, LeafOk;
    TouchKeys(m, p, v);
    LastByte(p, v);
    LastByte(q, u);
    if q in m {
      assert SymbolOk(m, q, u);
    } else {
      EmptyCounts(u);
      assert q + [u] in m ==> ParentOk(m, q + [u]);
    }
  }

  lemma EmptyCounts(u: u8)
    ensures |Empty().freq| == 256 && Empty().freq[u] == 0
  {
    SumZero(Empty().freq, 0, 256);
  }

  lemma TouchShape(m: Model, p: Path, v: u8)
    requires Shape(m) && p in m && |p| <= 2
    requires |Touched(m[p], p, v).freq| == 256
    requires forall u :: 0 <= u < 256 ==> (Touched(m[p], p, v).freq[u] > 0 <==> m[p].freq[u] > 0 || u == v)
    ensures Shape(Touch(m, p, v))
    ensures Touch(m, p, v).Keys == m.Keys + {p + [v]}
  {
    hide Touched, Touch, SymbolOk;
    var r := Touch(m, p, v);
    LastByte(p, v);
    TouchKeys(m, p, v);
    EmptyIsOk(p + [v]);
    forall q, u: u8 | q in r && |q| <= 2
      ensures |r[q].freq| == 256 && SymbolOk(r, q, u)
    {
      TouchSymbol(m, p, v, q, u);
    }
    forall q | q in r
      ensures |r[q].freq| == 256 && ParentOk(r, q) && LeafOk(r, q)
    {
      if q in m {
        assert ParentOk(m, q) && LeafOk(m, q);
      }
    }
  }

  lemma LastByte(p: Path, v: u8)
    ensures (p + [v])[..|p|] == p && (p + [v])[|p|] == v && |p + [v]| == |p| + 1
  {
  }

  lemma TouchOk(m: Model, p: Path, v: u8)
    requires ModelOk(m) && p in m && |p| <= 2
    ensures ModelOk(Touch(m, p, v))
    ensures Touch(m, p, v).Keys == m.Keys + {p + [v]}
  {
    TouchedOk(m[p], p, v);
    TouchShape(m, p, v);
    TouchContents(m, p, v);
  }

  lemma TouchContents(m: Model, p: Path, v: u8)
    requires Contents(m) && p in m && |m[p].freq| == 256
    requires ContextOk(Touched(m[p], p, v), p)
    ensures Contents(Touch(m, p, v))
  {
    EmptyIsOk(p + [v]);
    hide Touched, ContextOk, Empty;
  }

  lemma TouchSize(m: Model, p: Path, v: u8)
    requires ModelOk(m) && p in m && |p| <= 2
    ensures |Touch(m, p, v)| == |m| + if m[p].freq[v] == 0 then 1 else 0
  {
    TouchOk(m, p, v);
    assert SymbolOk(m, p, v);
    KeysGrow(m, Touch(m, p, v), p + [v]);
  }

  lemma KeysGrow<K, V>(m: map<K, V>, r: map<K, V>, k: K)
    requires r.Keys == m.Keys + {k}
    ensures |r| == |m| + if k in m then 0 else 1
  {
    assert |r| == |r.Keys| && |m| == |m.Keys|;
    assert k in m ==> r.Keys == m.Keys;
  }

  /** Codes value v from context p downwards, as the encoder does: every context
      without the symbol learns it, up to the first one that has it, or the root. */
  function UpdateFrom(m: Model, p: Path, v: u8): (r: Model)
    decreases |p|
  {
    if p !in m || |m[p].freq| != 256 then m
    else if p == [] || m[p].freq[v] > 0 then Touch(m, p, v)
    else UpdateFrom(Touch(m, p, v), p[1..], v)
  }

  function SymbolEvent(c: Context, p: Path, v: u8): (e: Event)
    requires |c.freq| == 256
  {
    Event(c.escapes + Cumulative(c.freq, Minimum(p), v), c.freq[v] + Minimum(p), c.total)
  }

  function EscapeEvents(c: Context): (es: seq<Event>)
  {
    if 0 < c.escapes < c.total then [Event(0, c.escapes, c.total)] else []
  }

  /** The events that code value v from context p downwards. */
  function EventsFrom(m: Model, p: Path, v: u8): (es: seq<Event>)
    decreases |p|
  {
    if p !in m || |m[p].freq| != 256 then []
    else if p == [] || m[p].freq[v] > 0 then [SymbolEvent(m[p], p, v)]
    else EscapeEvents(m[p]) + EventsFrom(m, p[1..], v)
  }

  predicate Tails(m: Model, p: Path)
    decreases |p|
  {
    p in m && (p != [] ==> Tails(m, p[1..]))
  }

  function Drop(p: Path, k: nat): (q: Path)
    requires k <= |p|
    ensures |q| == |p| - k
    decreases k
  {
    if k == 0 then p else Drop(p[1..], k - 1)
  }

  lemma {:induction false} TailsDrop(m: Model, p: Path, k: nat)
    requires Tails(m, p) && k <= |p|
    ensures Tails(m, Drop(p, k))
    decreases k
  {
    if k > 0 {
      TailsDrop(m, p[1..], k - 1);
    }
  }

  lemma {:induction false} DropStep(p: Path, k: nat)
    requires k < |p|
    ensures Drop(p, k)[1..] == Drop(p, k + 1)
    decreases k
  {
    if k > 0 {
      DropStep(p[1..], k - 1);
    }
  }

  /** The first k contexts of the chain have no symbol for v. */
  predicate AbsentAbove(m: Model, p: Path, k: nat, v: u8)
    requires k <= |p|
    decreases k
  {
    k > 0 ==> p in m && |m[p].freq| == 256 && m[p].freq[v] == 0 && AbsentAbove(m, p[1..], k - 1, v)
  }

  lemma {:induction false} AbsentStep(m: Model, p: Path, k: nat, v: u8)
    requires k < |p| && AbsentAbove(m, p, k, v)
    requires Drop(p, k) in m && |m[Drop(p, k)].freq| == 256 && m[Drop(p, k)].freq[v] == 0
    ensures AbsentAbove(m, p, k + 1, v)
    decreases k
  {
    if k > 0 {
      AbsentStep(m, p[1..], k - 1, v);
    }
  }

  /** Touching a context leaves the lower ones as they are. */
  lemma TouchLeaves(m: Model, p: Path, q: Path, v: u8)
    requires ModelOk(m) && p in m && |p| <= 2 && |q| < |p| && q in m
    ensures q in Touch(m, p, v) && Touch(m, p, v)[q] == m[q]
  {
    assert |p + [v]| > |q|;
    hide Touched, Empty, Shape, Contents;
  }

  lemma {:induction false} TouchTails(m: Model, p: Path, q: Path, v: u8)
    requires ModelOk(m) && p in m && |p| <= 2 && |q| < |p| && Tails(m, q)
    ensures Tails(Touch(m, p, v), q)
    decreases |q|
  {
    TouchLeaves(m, p, q, v);
    hide Touch, ModelOk;
    if q != [] {
      TouchTails(m, p, q[1..], v);
    }
  }

  lemma {:induction false} TouchAbsent(m: Model, p: Path, q: Path, k: nat, v: u8)
    requires ModelOk(m) && p in m && |p| <= 2 && |q| < |p| && Tails(m, q) && k <= |q|
    requires AbsentAbove(m, q, k, v)
    ensures ModelOk(Touch(m, p, v)) && AbsentAbove(Touch(m, p, v), q, k, v)
    decreases |q|
  {
    TouchOk(m, p, v);
    if k > 0 {
      TouchLeaves(m, p, q, v);
      TouchAbsent(m, p, q[1..], k - 1, v);
    }
  }

  lemma SymbolEventValid(c: Context, p: Path, v: u8)
    requires ContextOk(c, p) && (p == [] || c.freq[v] > 0)
    ensures SymbolEvent(c, p, v).Valid()
    ensures SymbolEvent(c, p, v).under >= c.escapes > 0
  {
    SumSplit(c.freq, 0, v, 256);
    SumSplit(c.freq, v, v + 1, 256);
    assert Sum(c.freq, v, v + 1) == c.freq[v] + Sum(c.freq, v, v);
  }

  lemma {:induction false} EventsFromValid(m: Model, p: Path, v: u8)
    requires ModelOk(m)
    ensures AllValid(EventsFrom(m, p, v))
    decreases |p|
  {
    if p in m {
      if p == [] || m[p].freq[v] > 0 {
        SymbolEventValid(m[p], p, v);
      } else {
        EventsFromValid(m, p[1..], v);
      }
    }
  }

  /** Lower contexts are not changed by touching a higher one. */
  lemma {:induction false} EventsFromFrame(m: Model, p: Path, q: Path, v: u8)
    requires p in m && |m[p].freq| == 256 && |q| < |p|
    ensures EventsFrom(Touch(m, p, v), q, v) == EventsFrom(m, q, v)
    decreases |q|
  {
    var r := Touch(m, p, v);
    assert q in r <==> q in m;
    if q in m && |m[q].freq| == 256 && q != [] {
      EventsFromFrame(m, p, q[1..], v);
    }
  }

  lemma {:induction false} UpdateFromOk(m: Model, p: Path, v: u8)
    requires ModelOk(m) && Tails(m, p) && |p| <= 2
    ensures ModelOk(UpdateFrom(m, p, v))
    ensures m.Keys <= UpdateFrom(m, p, v).Keys
    ensures p + [v] in UpdateFrom(m, p, v)
    ensures |UpdateFrom(m, p, v)| <= |m| + |p| + 1
    decreases |p|
  {
    assert |m[p].freq| == 256;
    TouchOk(m, p, v);
    TouchSize(m, p, v);
    if p != [] && m[p].freq[v] == 0 {
      TouchTails(m, p, p[1..], v);
      UpdateFromOk(Touch(m, p, v), p[1..], v);
    }
  }

  /** Symbols are closed under dropping the oldest byte, except x, the symbol created
      one order higher, whose tail is about to be coded. */
  predicate TailClosedBut(m: Model, x: Path)
  {
    forall q {:trigger TailOk(m, q)} :: q in m && q != x ==> TailOk(m, q)
  }

  lemma TouchTailClosed(m: Model, r: Model, p: Path, v: u8, x: Path)
    requires TailClosedBut(m, x) && r.Keys == m.Keys + {p + [v]}
    requires x == [] || x[1..] == p + [v]
    ensures TailClosedBut(r, p + [v])
    ensures p == [] && [] in m ==> TailClosed(r)
    ensures |p + [v]| != |x| && p + [v] in m ==> TailClosed(r)
  {
    forall q | q in r && (q != p + [v] || q in m)
      ensures q != x ==> TailOk(r, q)
    {
      assert q != x ==> TailOk(m, q);
    }
    forall q | q in r && q == x
      ensures TailOk(r, q)
    {
    }
    assert p == [] ==> (p + [v])[1..] == [];
  }

  lemma {:induction false} UpdateFromTails(m: Model, p: Path, v: u8, x: Path)
    requires ModelOk(m) && Tails(m, p) && |p| <= 2
    requires TailClosedBut(m, x)
    requires x == [] || (|x| == |p| + 2 && x[1..] == p + [v])
    ensures TailClosed(UpdateFrom(m, p, v))
    decreases |p|
  {
    hide *;
    ChainFacts(m, p, 0, v);
    UpdateUnfolds(m, p, v);
    TouchOk(m, p, v);
    TouchTailClosed(m, Touch(m, p, v), p, v, x);
    if p != [] && m[p].freq[v] == 0 {
      ChainFacts(m, p, 1, v);
      TouchTails(m, p, p[1..], v);
      assert (p + [v])[1..] == p[1..] + [v];
      UpdateFromTails(Touch(m, p, v), p[1..], v, p + [v]);
    }
  }

  lemma UpdateUnfolds(m: Model, p: Path, v: u8)
    requires ModelOk(m) && p in m && |p| <= 2
    ensures |m[p].freq| == 256 && [] in m
    ensures m[p].freq[v] > 0 ==> p + [v] in m
    ensures p == [] || m[p].freq[v] > 0 ==> UpdateFrom(m, p, v) == Touch(m, p, v)
    ensures p != [] && m[p].freq[v] == 0 ==> UpdateFrom(m, p, v) == UpdateFrom(Touch(m, p, v), p[1..], v)
  {
    assert SymbolOk(m, p, v);
    hide Touch;
  }

  // ---------- Decoder order ----------

  /** Contexts p, p[1..], ... (k of them) touched in turn. */
  function Patched(m: Model, p: Path, k: nat, v: u8): (r: Model)
    decreases k
  {
    if k == 0 || p == [] || p !in m || |m[p].freq| != 256 then m
    else Patched(Touch(m, p, v), p[1..], k - 1, v)
  }

  /** Touching two contexts of different order commutes, even when the lower one's
      symbol is the higher context itself. */
  lemma TouchCommutes(m: Model, p: Path, q: Path, v: u8)
    requires ModelOk(m) && p in m && q in m && |q| < |p| <= 2
    ensures p in Touch(m, q, v) && q in Touch(m, p, v)
    ensures |Touch(m, q, v)[p].freq| == 256 && |Touch(m, p, v)[q].freq| == 256
    ensures Touch(Touch(m, q, v), p, v) == Touch(Touch(m, p, v), q, v)
  {
    assert |m[p].freq| == 256 && |m[q].freq| == 256;
    assert SymbolOk(m, q, v) && SymbolOk(m, p, v);
    LastByte(p, v);
    LastByte(q, v);
    hide Touched, ModelOk, Shape, Contents, Empty, SymbolOk;
    PutsCommute(m, p, Touched(m[p], p, v), p + [v], m[p].freq[v] == 0, q, Touched(m[q], q, v), q + [v],
      m[q].freq[v] == 0, Empty());
  }

  function Put<V>(m: map<Path, V>, k: Path, x: V, k': Path, add: bool, e: V): (r: map<Path, V>)
  {
    if add then m[k := x][k' := e] else m[k := x]
  }

  lemma PutsCommute<V>(m: map<Path, V>, p: Path, x: V, p': Path, a: bool, q: Path, y: V, q': Path, b: bool, e: V)
    requires p in m && q in m && p != q && p' != q' && p' != p && p' != q && q' != q
    requires b ==> q' !in m
    requires a ==> p' !in m
    ensures p in Put(m, q, y, q', b, e) && Put(m, q, y, q', b, e)[p] == m[p]
    ensures q in Put(m, p, x, p', a, e) && Put(m, p, x, p', a, e)[q] == m[q]
    ensures Put(Put(m, q, y, q', b, e), p, x, p', a, e) == Put(Put(m, p, x, p', a, e), q, y, q', b, e)
  {
  }

  lemma PatchedUnfolds(m: Model, p: Path, k: nat, v: u8)
    requires 0 < k <= |p| && p in m && |m[p].freq| == 256
    ensures Patched(m, p, k, v) == Patched(Touch(m, p, v), p[1..], k - 1, v)
    ensures Drop(p, k) == Drop(p[1..], k - 1)
  {
    hide Touch;
  }

  lemma ChainFacts(m: Model, p: Path, k: nat, v: u8)
    requires ModelOk(m) && Tails(m, p) && |p| <= 2 && k <= |p|
    ensures p in m && |m[p].freq| == 256
    ensures Drop(p, k) in m && |m[Drop(p, k)].freq| == 256
    ensures k == 0 ==> Drop(p, k) == p && Patched(m, p, k, v) == m
    ensures k > 0 ==> |p| > 0 && Tails(m, p[1..])
  {
    TailsDrop(m, p, k);
  }

  lemma ChainTouched(m: Model, p: Path, k: nat, v: u8)
    requires ModelOk(m) && |p| <= 2 && k <= |p| && p in m && Drop(p, k) in m && |m[Drop(p, k)].freq| == 256
    ensures p in Touch(m, Drop(p, k), v) && |Touch(m, Drop(p, k), v)[p].freq| == 256
    ensures k == 0 ==> Drop(p, k) == p && Patched(Touch(m, p, v), p, k, v) == Touch(m, p, v)
  {
    TouchOk(m, Drop(p, k), v);
    hide Touch;
  }

  lemma {:induction false} PatchedCommutes(m: Model, p: Path, k: nat, v: u8)
    requires ModelOk(m) && Tails(m, p) && |p| <= 2 && k <= |p|
    ensures Drop(p, k) in m && |m[Drop(p, k)].freq| == 256
    ensures Drop(p, k) in Patched(m, p, k, v) && |Patched(m, p, k, v)[Drop(p, k)].freq| == 256
    ensures Touch(Patched(m, p, k, v), Drop(p, k), v) == Patched(Touch(m, Drop(p, k), v), p, k, v)
    decreases k
  {
    hide *;
    ChainFacts(m, p, k, v);
    ChainTouched(m, p, k, v);
    var d := Drop(p, k);
    if k > 0 {
      TouchOk(m, p, v);
      TouchTails(m, p, p[1..], v);
      TouchCommutes(m, p, d, v);
      PatchedUnfolds(m, p, k, v);
      PatchedUnfolds(Touch(m, d, v), p, k, v);
      PatchedCommutes(Touch(m, p, v), p[1..], k - 1, v);
    }
  }

  /** If the first k contexts lack the value and the next has it (or is the root),
      the encoder's update is the patches followed by that context. */
  lemma {:induction false} UpdateIsPatches(m: Model, p: Path, k: nat, v: u8)
    requires ModelOk(m) && Tails(m, p) && |p| <= 2 && k <= |p|
    requires AbsentAbove(m, p, k, v)
    requires k == |p| || Present(m, Drop(p, k), v)
    ensures Drop(p, k) in Patched(m, p, k, v) && |Patched(m, p, k, v)[Drop(p, k)].freq| == 256
    ensures UpdateFrom(m, p, v) == Touch(Patched(m, p, k, v), Drop(p, k), v)
    decreases k
  {
    UpdateUnfolds(m, p, v);
    if k > 0 {
      TouchOk(m, p, v);
      TouchTails(m, p, p[1..], v);
      TouchAbsent(m, p, p[1..], k - 1, v);
      TailsDrop(m, p, k);
      PatchedUnfolds(m, p, k, v);
      hide Touch, ModelOk, UpdateFrom, Patched;
      if k < |p| {
        TouchLeaves(m, p, Drop(p, k), v);
      }
      UpdateIsPatches(Touch(m, p, v), p[1..], k - 1, v);
    }
  }

  /** The decoder updates the context it found the symbol in first and patches the
      higher ones afterwards; the model ends up as the encoder's. */
  lemma DecoderOrderAgrees(m: Model, p: Path, k: nat, v: u8)
    requires ModelOk(m) && Tails(m, p) && |p| <= 2 && k <= |p|
    requires AbsentAbove(m, p, k, v)
    requires k == |p| || Present(m, Drop(p, k), v)
    ensures Drop(p, k) in m && |m[Drop(p, k)].freq| == 256
    ensures Patched(Touch(m, Drop(p, k), v), p, k, v) == UpdateFrom(m, p, v)
  {
    UpdateIsPatches(m, p, k, v);
    PatchedCommutes(m, p, k, v);
  }
}
