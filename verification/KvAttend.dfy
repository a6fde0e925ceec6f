/**
 Attention over the cache as a function of the rows it reads, and why neither the addressing rule nor
 the place a prompt is cut at shows in its output.  The floating-point operations are any functions.
 */
module KvAttend {
  import opened KvRule
  import opened KvRows
  import opened Numbers
  import Half

  /** A binary32 bit pattern. */
  type F = Half.Bits32

  const ONE: F := 0x3f80_0000

  datatype Arith = Arith(
    mul: (F, F) -> F,
    add: (F, F) -> F,
    sub: (F, F) -> F,
    max: (F, F) -> F,
    exp: F -> F,
    recip: F -> F,
    sumStart: F,
    negInf: F,
    zero: F)

  datatype Shape = Shape(hd: nat, heads: nat, kvHeads: nat) {
    predicate Valid() {
      kvHeads > 0 && heads % kvHeads == 0 && heads > 0
    }
    function QWidth(): nat { heads * hd }
    function KvWidth(): nat { kvHeads * hd }
    function PerKv(): nat
      requires Valid()
    {
      heads / kvHeads
    }
  }

  // ---------------------------------------------------------------- one head

  function Dot(a: Arith, q: seq<F>, k: seq<F>, n: nat): F
    requires n <= |q| && n <= |k|
  {
    if n == 0 then a.sumStart else a.add(Dot(a, q, k, n - 1), a.mul(q[n - 1], k[n - 1]))
  }

  function Largest(a: Arith, xs: seq<F>): F {
    if xs == [] then a.negInf else a.max(Largest(a, xs[..|xs| - 1]), xs[|xs| - 1])
  }

  function Total(a: Arith, xs: seq<F>): F {
    if xs == [] then a.zero else a.add(Total(a, xs[..|xs| - 1]), xs[|xs| - 1])
  }

  function Exps(a: Arith, xs: seq<F>, m: F): seq<F> {
    seq<F>(|xs|, i requires 0 <= i < |xs| => a.exp(a.sub(xs[i], m)))
  }

  function Softmax(a: Arith, xs: seq<F>): seq<F> {
    var es := Exps(a, xs, Largest(a, xs));
    var inv := a.recip(Total(a, es));
    seq<F>(|es|, i requires 0 <= i < |es| => a.mul(es[i], inv))
  }

  /** The first `n` rows of `vs`, weighted and added into channel `i`. */
  function Mix(a: Arith, ws: seq<F>, vs: seq<seq<F>>, i: nat, n: nat): F
    requires n <= |ws| && n <= |vs| && forall v :: v in vs ==> i < |v|
  {
    if n == 0 then a.zero else a.add(Mix(a, ws, vs, i, n - 1), a.mul(ws[n - 1], vs[n - 1][i]))
  }

  function Scores(a: Arith, q: seq<F>, ks: seq<seq<F>>): seq<F>
    requires forall k :: k in ks ==> |k| == |q|
  {
    seq<F>(|ks|, s requires 0 <= s < |ks| => Dot(a, q, ks[s], |q|))
  }

  function Head(a: Arith, q: seq<F>, ks: seq<seq<F>>, vs: seq<seq<F>>): (o: seq<F>)
    requires |ks| == |vs| && (forall k :: k in ks ==> |k| == |q|) && (forall v :: v in vs ==> |v| == |q|)
    ensures |o| == |q|
  {
    var ws := Softmax(a, Scores(a, q, ks));
    seq<F>(|q|, i requires 0 <= i < |q| => Mix(a, ws, vs, i, |vs|))
  }

  // ---------------------------------------------------------------- one token

  function Widen(row: Row): seq<F> {
    seq<F>(|row|, i requires 0 <= i < |row| => Half.ToSingle(row[i]))
  }

  /** Where query head `h` finds its key-value head in a row. */
  function KvBase(g: Shape, h: nat): (b: nat)
    requires g.Valid() && h < g.heads
    ensures b + g.hd <= g.KvWidth()
  {
    PerKvPositive(g);
    KvHeadExists(h, g.PerKv(), g.kvHeads);
    MulMono(h / g.PerKv() + 1, g.kvHeads, g.hd);
    h / g.PerKv() * g.hd
  }

  lemma PerKvPositive(g: Shape)
    requires g.Valid()
    ensures g.PerKv() > 0 && g.heads == g.PerKv() * g.kvHeads
  {
    assert g.heads == g.heads / g.kvHeads * g.kvHeads + g.heads % g.kvHeads;
  }

  lemma KvHeadExists(h: nat, per: nat, kvHeads: nat)
    requires per > 0 && h < per * kvHeads
    ensures h / per < kvHeads
  {
    Quotient(h, per);
    if h / per >= kvHeads {
      MulMono(kvHeads, h / per, per);
    }
  }

  /** Where query head `h` of a token starts. */
  function QBase(g: Shape, h: nat): (b: nat)
    requires h < g.heads
    ensures b == h * g.hd && b + g.hd == (h + 1) * g.hd <= g.QWidth()
  {
    MulMono(h + 1, g.heads, g.hd);
    h * g.hd
  }

  /** The part of a K or V row that query head `h` reads. */
  function KvPart(g: Shape, row: Row, h: nat): (r: seq<F>)
    requires g.Valid() && h < g.heads && |row| == g.KvWidth()
    ensures |r| == g.hd
  {
    var base := KvBase(g, h);
    Widen(row[base..base + g.hd])
  }

  function KvParts(g: Shape, rows: seq<Row>, h: nat): (r: seq<seq<F>>)
    requires g.Valid() && h < g.heads && forall x :: x in rows ==> |x| == g.KvWidth()
    ensures |r| == |rows| && forall x :: x in r ==> |x| == g.hd
  {
    seq(|rows|, s requires 0 <= s < |rows| => KvPart(g, rows[s], h))
  }

  /** The first `n` heads of one token's output. */
  function Heads(a: Arith, g: Shape, q: seq<F>, ks: seq<Row>, vs: seq<Row>, n: nat): (o: seq<F>)
    requires g.Valid() && n <= g.heads && |q| == g.QWidth() && |ks| == |vs|
    requires forall x :: x in ks || x in vs ==> |x| == g.KvWidth()
    ensures |o| == n * g.hd
  {
    if n == 0 then []
    else
      var base := QBase(g, n - 1);
      Heads(a, g, q, ks, vs, n - 1) + Head(a, q[base..base + g.hd], KvParts(g, ks, n - 1), KvParts(g, vs, n - 1))
  }

  function Scaled(a: Arith, scale: F, q: seq<F>): (r: seq<F>)
    ensures |r| == |q|
  {
    if scale == ONE then q else seq<F>(|q|, i requires 0 <= i < |q| => a.mul(q[i], scale))
  }

  // ---------------------------------------------------------------- a batch of tokens

  /** Both sides of one layer, each with its rule. */
  datatype Layer = Layer(k: Cells, v: Cells, kRule: Rule, vRule: Rule)

  datatype Token = Token(q: seq<F>, k: Row, v: Row)

  datatype Setup = Setup(a: Arith, g: Shape, scale: F, window: nat)

  function Lo(pos: nat, window: nat): nat {
    if window > 0 && pos + 1 > window then pos + 1 - window else 0
  }

  predicate Fits(x: Setup, toks: seq<Token>) {
    x.g.Valid() && forall t :: t in toks ==> |t.q| == x.g.QWidth() && |t.k| == x.g.KvWidth() && |t.v| == x.g.KvWidth()
  }

  predicate MappedTo(l: Layer, n: nat) {
    forall p: nat :: p < n ==> Mapped(l.kRule, p) && Mapped(l.vRule, p)
  }

  /** The rows at positions `lo` up to and including `pos`. */
  function Window(c: Cells, w: nat, rule: Rule, lo: nat, pos: nat): (r: seq<Row>)
    requires lo <= pos + 1 && forall p: nat :: p <= pos ==> Mapped(rule, p)
    ensures |r| == pos + 1 - lo && forall x :: x in r ==> |x| == w
  {
    var r := seq(pos + 1 - lo, s requires 0 <= s < pos + 1 - lo => RowAt(c, w, SlotOf(rule, lo + s)));
    assert forall s :: 0 <= s < |r| ==> r[s] == RowAt(c, w, SlotOf(rule, lo + s));
    r
  }

  function Attend(x: Setup, l: Layer, pos: nat, q: seq<F>): seq<F>
    requires x.g.Valid() && |q| == x.g.QWidth() && MappedTo(l, pos + 1)
  {
    var w := x.g.KvWidth();
    var lo := Lo(pos, x.window);
    Heads(x.a, x.g, Scaled(x.a, x.scale, q), Window(l.k, w, l.kRule, lo, pos), Window(l.v, w, l.vRule, lo, pos), x.g.heads)
  }

  function KRows(toks: seq<Token>): seq<Row> { seq(|toks|, t requires 0 <= t < |toks| => toks[t].k) }

  function VRows(toks: seq<Token>): seq<Row> { seq(|toks|, t requires 0 <= t < |toks| => toks[t].v) }

  lemma BatchStorable(rule: Rule, w: nat, start: nat, rows: seq<Row>)
    requires forall p: nat :: p < start + |rows| ==> Mapped(rule, p)
    requires forall r :: r in rows ==> |r| == w
    ensures Storable(rule, w, Batch(start, rows))
  {}

  /** Stores a whole batch of K and V rows. */
  function StoreBatch(x: Setup, l: Layer, start: nat, toks: seq<Token>): (m: Layer)
    requires Fits(x, toks) && MappedTo(l, start + |toks|)
    ensures m.kRule == l.kRule && m.vRule == l.vRule
  {
    var w := x.g.KvWidth();
    BatchStorable(l.kRule, w, start, KRows(toks));
    BatchStorable(l.vRule, w, start, VRows(toks));
    l.(k := StoreAll(l.k, w, l.kRule, Batch(start, KRows(toks))),
       v := StoreAll(l.v, w, l.vRule, Batch(start, VRows(toks))))
  }

  /** Attends every token of a batch that has been stored. */
  function AttendBatch(x: Setup, l: Layer, start: nat, toks: seq<Token>): (o: seq<seq<F>>)
    requires Fits(x, toks) && MappedTo(l, start + |toks|)
    ensures |o| == |toks|
  {
    seq(|toks|, t requires 0 <= t < |toks| => Attend(x, l, start + t, toks[t].q))
  }

  function Flatten(parts: seq<seq<Token>>): seq<Token> {
    if parts == [] then [] else parts[0] + Flatten(parts[1..])
  }

  /** The cache after a prompt is run part after part. */
  function Filled(x: Setup, l: Layer, start: nat, parts: seq<seq<Token>>): (m: Layer)
    requires Fits(x, Flatten(parts)) && MappedTo(l, start + |Flatten(parts)|)
    ensures m.kRule == l.kRule && m.vRule == l.vRule
    decreases |parts|
  {
    if parts == [] then l
    else
      FlattenFits(x, parts);
      Filled(x, StoreBatch(x, l, start, parts[0]), start + |parts[0]|, parts[1..])
  }

  /** Its outputs: each part is stored whole and then attended. */
  function Outputs(x: Setup, l: Layer, start: nat, parts: seq<seq<Token>>): seq<seq<F>>
    requires Fits(x, Flatten(parts)) && MappedTo(l, start + |Flatten(parts)|)
    decreases |parts|
  {
    if parts == [] then []
    else
      FlattenFits(x, parts);
      var m := StoreBatch(x, l, start, parts[0]);
      AttendBatch(x, m, start, parts[0]) + Outputs(x, m, start + |parts[0]|, parts[1..])
  }

  lemma FlattenFits(x: Setup, parts: seq<seq<Token>>)
    requires parts != [] && Fits(x, Flatten(parts))
    ensures Fits(x, parts[0]) && Fits(x, Flatten(parts[1..]))
  {
    assert forall t :: t in parts[0] || t in Flatten(parts[1..]) ==> t in Flatten(parts);
  }

  // ---------------------------------------------------------------- a cut does not show

  /** The batch and the window before it share no slot, on either side. */
  ghost predicate Roomy(x: Setup, l: Layer, start: nat, n: nat) {
    && Apart(l.kRule, Lo(start, x.window), start + n)
    && Apart(l.vRule, Lo(start, x.window), start + n)
  }

  /** Storing later rows of the batch does not touch an earlier token's window. */
  lemma WindowKept(c: Cells, w: nat, rule: Rule, lo: nat, pos: nat, from: nat, rows: seq<Row>)
    requires lo <= pos < from && Apart(rule, lo, from + |rows|) && forall r :: r in rows ==> |r| == w
    ensures Storable(rule, w, Batch(from, rows))
    ensures Window(StoreAll(c, w, rule, Batch(from, rows)), w, rule, lo, pos) == Window(c, w, rule, lo, pos)
  {
    hide StoreAll, SlotOf, RowAt;
    BatchStorable(rule, w, from, rows);
    var c' := StoreAll(c, w, rule, Batch(from, rows));
    forall p: nat | lo <= p <= pos
      ensures RowAt(c', w, SlotOf(rule, p)) == RowAt(c, w, SlotOf(rule, p))
    {
      StoresElsewhere(c, w, rule, Batch(from, rows), p);
    }
    forall s: nat | s < pos + 1 - lo
      ensures Window(c', w, rule, lo, pos)[s] == Window(c, w, rule, lo, pos)[s]
    {
      assert lo <= lo + s <= pos;
    }
  }

  lemma LoMono(p: nat, q: nat, window: nat)
    requires p <= q
    ensures Lo(p, window) <= Lo(q, window) <= q
  {}

  lemma StoreSplits(c: Cells, w: nat, rule: Rule, start: nat, xs: seq<Row>, ys: seq<Row>)
    requires forall p: nat :: p < start + |xs| + |ys| ==> Mapped(rule, p)
    requires forall r :: r in xs || r in ys ==> |r| == w
    ensures Storable(rule, w, Batch(start, xs + ys)) && Storable(rule, w, Batch(start, xs))
    ensures Storable(rule, w, Batch(start + |xs|, ys))
    ensures StoreAll(c, w, rule, Batch(start, xs + ys))
      == StoreAll(StoreAll(c, w, rule, Batch(start, xs)), w, rule, Batch(start + |xs|, ys))
  {
    hide StoreAll;
    BatchAppend(start, xs, ys);
    BatchStorable(rule, w, start, xs);
    BatchStorable(rule, w, start + |xs|, ys);
    StoreAllAppend(c, w, rule, Batch(start, xs), Batch(start + |xs|, ys));
  }

  lemma StoreBatchSplits(x: Setup, l: Layer, start: nat, xs: seq<Token>, ys: seq<Token>)
    requires Fits(x, xs + ys) && Fits(x, xs) && Fits(x, ys) && MappedTo(l, start + |xs + ys|)
    ensures StoreBatch(x, l, start, xs + ys) == StoreBatch(x, StoreBatch(x, l, start, xs), start + |xs|, ys)
  {
    hide StoreAll, Batch;
    assert KRows(xs + ys) == KRows(xs) + KRows(ys) && VRows(xs + ys) == VRows(xs) + VRows(ys);
    StoreSplits(l.k, x.g.KvWidth(), l.kRule, start, KRows(xs), KRows(ys));
    StoreSplits(l.v, x.g.KvWidth(), l.vRule, start, VRows(xs), VRows(ys));
  }

  /** The outputs of the first part do not see the rows of the second. */
  lemma AttendSplits(x: Setup, m: Layer, start: nat, xs: seq<Token>, ys: seq<Token>)
    requires Fits(x, xs + ys) && Fits(x, xs) && Fits(x, ys)
    requires Roomy(x, m, start, |xs| + |ys|) && MappedTo(m, start + |xs| + |ys|)
    ensures
      var n := StoreBatch(x, m, start + |xs|, ys);
      AttendBatch(x, n, start, xs + ys) == AttendBatch(x, m, start, xs) + AttendBatch(x, n, start + |xs|, ys)
  {
    hide StoreBatch, Apart, Attend;
    var mid := start + |xs|;
    var n := StoreBatch(x, m, mid, ys);
    forall t: nat | t < |xs|
      ensures Attend(x, n, start + t, (xs + ys)[t].q) == Attend(x, m, start + t, xs[t].q)
    {
      assert xs[t] in xs;
      EarlierKept(x, m, start, start + t, xs[t].q, mid, ys);
    }
    assert AttendBatch(x, n, start, xs + ys) == AttendBatch(x, m, start, xs) + AttendBatch(x, n, mid, ys);
  }

  lemma ApartNarrows(rule: Rule, a: nat, b: nat, c: nat)
    requires Apart(rule, a, c) && a <= b
    ensures Apart(rule, b, c)
  {}

  /** A token attended before later rows are stored gets what it gets afterwards. */
  lemma EarlierKept(x: Setup, m: Layer, start: nat, pos: nat, q: seq<F>, mid: nat, ys: seq<Token>)
    requires Fits(x, ys) && start <= pos < mid && |q| == x.g.QWidth()
    requires Roomy(x, m, start, mid - start + |ys|)
    ensures MappedTo(m, mid + |ys|)
    ensures Attend(x, StoreBatch(x, m, mid, ys), pos, q) == Attend(x, m, pos, q)
  {
    hide Heads, Window, Scaled, StoreAll, SlotOf, Batch, Lo;
    var w := x.g.KvWidth();
    var lo := Lo(pos, x.window);
    LoMono(start, pos, x.window);
    ApartNarrows(m.kRule, Lo(start, x.window), lo, mid + |ys|);
    ApartNarrows(m.vRule, Lo(start, x.window), lo, mid + |ys|);
    WindowKept(m.k, w, m.kRule, lo, pos, mid, KRows(ys));
    WindowKept(m.v, w, m.vRule, lo, pos, mid, VRows(ys));
  }

  lemma RoomyLater(x: Setup, l: Layer, m: Layer, start: nat, i: nat, n: nat)
    requires Roomy(x, l, start, n) && i <= n && m.kRule == l.kRule && m.vRule == l.vRule
    ensures Roomy(x, m, start + i, n - i)
  {
    LoMono(start, start + i, x.window);
  }

  lemma NoRows(x: Setup, l: Layer, start: nat)
    requires Fits(x, []) && MappedTo(l, start)
    ensures StoreBatch(x, l, start, []) == l
  {
    assert KRows([]) == [] && VRows([]) == [];
  }

  lemma {:induction false} FilledIsOneBatch(x: Setup, l: Layer, start: nat, parts: seq<seq<Token>>)
    requires Fits(x, Flatten(parts)) && MappedTo(l, start + |Flatten(parts)|)
    ensures Filled(x, l, start, parts) == StoreBatch(x, l, start, Flatten(parts))
    decreases |parts|
  {
    hide StoreBatch;
    if parts == [] {
      NoRows(x, l, start);
    } else {
      FlattenFits(x, parts);
      StoreBatchSplits(x, l, start, parts[0], Flatten(parts[1..]));
      FilledIsOneBatch(x, StoreBatch(x, l, start, parts[0]), start + |parts[0]|, parts[1..]);
    }
  }

  /** However a prompt is cut, its outputs and the cache it leaves are those of one uncut pass. */
  lemma {:induction false} SplitInvariance(x: Setup, l: Layer, start: nat, parts: seq<seq<Token>>)
    requires Fits(x, Flatten(parts)) && MappedTo(l, start + |Flatten(parts)|)
    requires Roomy(x, l, start, |Flatten(parts)|)
    ensures Filled(x, l, start, parts) == StoreBatch(x, l, start, Flatten(parts))
    ensures Outputs(x, l, start, parts) == AttendBatch(x, StoreBatch(x, l, start, Flatten(parts)), start, Flatten(parts))
    decreases |parts|
  {
    hide StoreBatch, AttendBatch, Filled, Roomy, Mapped;
    FilledIsOneBatch(x, l, start, parts);
    NoOutputs(x, StoreBatch(x, l, start, Flatten(parts)), start, Flatten(parts));
    if parts != [] {
      var xs, ys := parts[0], Flatten(parts[1..]);
      FlattenFits(x, parts);
      StoreBatchSplits(x, l, start, xs, ys);
      var m := StoreBatch(x, l, start, xs);
      RoomyLater(x, l, m, start, 0, |xs| + |ys|);
      RoomyLater(x, l, m, start, |xs|, |xs| + |ys|);
      SplitInvariance(x, m, start + |xs|, parts[1..]);
      AttendSplits(x, m, start, xs, ys);
    }
  }

  lemma NoOutputs(x: Setup, l: Layer, start: nat, toks: seq<Token>)
    requires Fits(x, toks) && MappedTo(l, start + |toks|)
    ensures toks == [] ==> AttendBatch(x, l, start, toks) == []
  {}
}
