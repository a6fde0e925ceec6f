/**
 A prompt as the backend runs it: each part is written to the buffers, its K and V rows are stored, and it
 is attended.  The caches and the outputs do not show where the prompt was cut.
 */
module KvRun {
  import opened Numbers
  import opened KvRule
  import opened KvRows
  import opened KvAttend
  import opened KvHost
  import opened KvHeads
  import opened Half

  const BUF_K := 2
  const BUF_V := 3

  /** One token's activations, before its key and value are narrowed. */
  datatype Input = Input(q: seq<F>, k: seq<F>, v: seq<F>)

  predicate Sized(g: Shape, ins: seq<Input>) {
    forall i :: 0 <= i < |ins| ==> |ins[i].q| == g.QWidth() && |ins[i].k| == g.KvWidth() && |ins[i].v| == g.KvWidth()
  }

  function NarrowAll(r: seq<F>): (s: Row)
    ensures |s| == |r|
  {
    seq<Bits16>(|r|, i requires 0 <= i < |r| => FromSingle(r[i]))
  }

  function Toks(ins: seq<Input>): (toks: seq<Token>)
    ensures |toks| == |ins|
  {
    seq<Token>(|ins|, i requires 0 <= i < |ins| => Token(ins[i].q, NarrowAll(ins[i].k), NarrowAll(ins[i].v)))
  }

  lemma ToksFit(x: Setup, ins: seq<Input>)
    requires x.g.Valid() && Sized(x.g, ins)
    ensures Fits(x, Toks(ins))
  {
    hide NarrowAll;
  }

  function Qs(ins: seq<Input>): (rows: seq<seq<F>>)
    ensures |rows| == |ins|
  {
    seq<seq<F>>(|ins|, i requires 0 <= i < |ins| => ins[i].q)
  }

  function Ks(ins: seq<Input>): (rows: seq<seq<F>>)
    ensures |rows| == |ins|
  {
    seq<seq<F>>(|ins|, i requires 0 <= i < |ins| => ins[i].k)
  }

  function Vs(ins: seq<Input>): (rows: seq<seq<F>>)
    ensures |rows| == |ins|
  {
    seq<seq<F>>(|ins|, i requires 0 <= i < |ins| => ins[i].v)
  }

  // ---------------------------------------------------------------- rows of a buffer

  predicate Wide(rows: seq<seq<F>>, w: nat) {
    forall i :: 0 <= i < |rows| ==> |rows[i]| == w
  }

  lemma {:induction false} ConcatLength(rows: seq<seq<F>>, w: nat)
    requires Wide(rows, w)
    ensures |Concat(rows)| == |rows| * w
  {
    if rows != [] {
      ConcatLength(rows[..|rows| - 1], w);
      RowFits(w, |rows| - 1, |rows|);
    }
  }

  /** The rows of a buffer that starts with `rows` end to end are those rows. */
  lemma {:induction false} ConcatRow(rows: seq<seq<F>>, w: nat, b: seq<F>, t: nat)
    requires Wide(rows, w) && t < |rows| && Concat(rows) <= b
    ensures (t + 1) * w <= |b| && QRow(b, w, t) == rows[t]
    decreases |rows|
  {
    ConcatLength(rows, w);
    RowFits(w, t, |rows|);
    var most := rows[..|rows| - 1];
    ConcatLength(most, w);
    if t < |rows| - 1 {
      ConcatRow(most, w, b, t);
    } else {
      assert b[|Concat(most)|..|Concat(rows)|] == rows[t];
    }
  }

  lemma NarrowRowIs(b: seq<F>, w: nat, t: nat)
    requires (t + 1) * w <= |b|
    ensures NarrowRow(b, w, t) == NarrowAll(QRow(b, w, t))
  {
    hide FromSingle;
    RowFits(w, t, t + 1);
    forall i | 0 <= i < w ensures NarrowRow(b, w, t)[i] == NarrowAll(QRow(b, w, t))[i] {
      assert QRow(b, w, t)[i] == b[t * w + i];
    }
  }

  /** Narrowing the first rows of such a buffer narrows the rows. */
  lemma NarrowedRows(rows: seq<seq<F>>, w: nat, b: seq<F>)
    requires Wide(rows, w) && Concat(rows) <= b
    ensures |rows| * w <= |b| && |NarrowRows(b, w, |rows|)| == |rows|
    ensures forall t: nat :: t < |rows| ==> NarrowRows(b, w, |rows|)[t] == NarrowAll(rows[t])
  {
    hide NarrowRow, NarrowRows, NarrowAll, QRow, Concat;
    ConcatLength(rows, w);
    forall t: nat | t < |rows| ensures NarrowRows(b, w, |rows|)[t] == NarrowAll(rows[t]) {
      NarrowPrefix(b, w, t, |rows|);
      ConcatRow(rows, w, b, t);
      NarrowRowIs(b, w, t);
    }
  }

  // ---------------------------------------------------------------- rows inside the caches

  /** The row stored for position `p` lies inside the cache. */
  predicate InCells(c: Cells, w: nat, rule: Rule, p: nat) {
    Mapped(rule, p) && (SlotOf(rule, p) + 1) * w <= |c|
  }

  /** Every earlier position of the window has its row in both caches. */
  ghost predicate HistoryIn(x: Setup, l: Layer, start: nat) {
    forall p: nat :: Lo(start, x.window) <= p < start ==>
      InCells(l.k, x.g.KvWidth(), l.kRule, p) && InCells(l.v, x.g.KvWidth(), l.vRule, p)
  }

  lemma StoreRowGrows(c: Cells, w: nat, slot: nat, row: Row)
    requires |row| == w
    ensures |StoreRow(c, w, slot, row)| >= |c| && |StoreRow(c, w, slot, row)| >= (slot + 1) * w
  {}

  lemma {:induction false} StoresIn(c: Cells, w: nat, rule: Rule, es: seq<Store>)
    requires Storable(rule, w, es)
    ensures |StoreAll(c, w, rule, es)| >= |c|
    ensures forall i :: 0 <= i < |es| ==> InCells(StoreAll(c, w, rule, es), w, rule, es[i].pos)
  {
    hide SlotOf, StoreRow;
    if es != [] {
      var last, prefix := es[|es| - 1], es[..|es| - 1];
      StoresIn(c, w, rule, prefix);
      StoreRowGrows(StoreAll(c, w, rule, prefix), w, SlotOf(rule, last.pos), last.row);
      forall i | 0 <= i < |es| ensures InCells(StoreAll(c, w, rule, es), w, rule, es[i].pos) {
        if i < |es| - 1 {
          assert InCells(StoreAll(c, w, rule, prefix), w, rule, prefix[i].pos);
        }
      }
    }
  }

  lemma BatchIn(c: Cells, w: nat, rule: Rule, start: nat, rows: seq<Row>, p: nat)
    requires Storable(rule, w, Batch(start, rows)) && p < start + |rows|
    requires p < start ==> InCells(c, w, rule, p)
    ensures InCells(StoreAll(c, w, rule, Batch(start, rows)), w, rule, p)
  {
    hide StoreAll, SlotOf;
    StoresIn(c, w, rule, Batch(start, rows));
    if p >= start {
      assert Batch(start, rows)[p - start].pos == p;
    }
  }

  /** Storing a batch leaves every row that its tokens, and the next batch, will read inside the caches. */
  lemma BatchReaches(x: Setup, l: Layer, start: nat, toks: seq<Token>)
    requires Fits(x, toks) && MappedTo(l, start + |toks|) && HistoryIn(x, l, start)
    ensures AllReachable(x, StoreBatch(x, l, start, toks), start, |toks|)
    ensures HistoryIn(x, StoreBatch(x, l, start, toks), start + |toks|)
  {
    hide StoreAll, SlotOf, Batch, InCells;
    var w, n := x.g.KvWidth(), |toks|;
    var m := StoreBatch(x, l, start, toks);
    BatchStorable(l.kRule, w, start, KRows(toks));
    BatchStorable(l.vRule, w, start, VRows(toks));
    LoMono(start, start + n, x.window);
    forall p: nat | Lo(start, x.window) <= p < start + n
      ensures InCells(m.k, w, m.kRule, p) && InCells(m.v, w, m.vRule, p)
    {
      BatchIn(l.k, w, l.kRule, start, KRows(toks), p);
      BatchIn(l.v, w, l.vRule, start, VRows(toks), p);
    }
    forall pos: nat | start <= pos < start + n ensures TokenReachable(x, m, pos) {
      LoMono(start, pos, x.window);
      ReachableFrom(m.k, w, m.kRule, Lo(start, x.window), Lo(pos, x.window), pos);
      ReachableFrom(m.v, w, m.vRule, Lo(start, x.window), Lo(pos, x.window), pos);
    }
  }

  lemma ReachableFrom(c: Cells, w: nat, rule: Rule, a: nat, lo: nat, pos: nat)
    requires a <= lo && (forall p: nat :: p <= pos ==> Mapped(rule, p))
    requires forall p: nat :: a <= p <= pos ==> InCells(c, w, rule, p)
    ensures Reachable(c, w, rule, lo, pos)
  {
    hide SlotOf;
    forall p: nat | lo <= p <= pos ensures (SlotOf(rule, p) + 1) * w <= |c| {
      assert InCells(c, w, rule, p);
    }
  }

  // ---------------------------------------------------------------- one part

  /** What must hold of the state before a part starting at `start` is run. */
  ghost predicate CanRun(x: Setup, l: Layer, start: nat, ins: seq<Input>) {
    x.g.Valid() && Sized(x.g, ins) && MappedTo(l, start + |ins|) && HistoryIn(x, l, start)
  }

  lemma KRowsOf(x: Setup, ins: seq<Input>, b: seq<F>)
    requires Sized(x.g, ins) && Concat(Ks(ins)) <= b
    ensures |ins| * x.g.KvWidth() <= |b| && NarrowRows(b, x.g.KvWidth(), |ins|) == KRows(Toks(ins))
  {
    hide NarrowRows, NarrowAll, Concat;
    NarrowedRows(Ks(ins), x.g.KvWidth(), b);
  }

  lemma VRowsOf(x: Setup, ins: seq<Input>, b: seq<F>)
    requires Sized(x.g, ins) && Concat(Vs(ins)) <= b
    ensures |ins| * x.g.KvWidth() <= |b| && NarrowRows(b, x.g.KvWidth(), |ins|) == VRows(Toks(ins))
  {
    hide NarrowRows, NarrowAll, Concat;
    NarrowedRows(Vs(ins), x.g.KvWidth(), b);
  }

  lemma QRowsOf(x: Setup, ins: seq<Input>, b: seq<F>)
    requires Sized(x.g, ins) && Concat(Qs(ins)) <= b
    ensures |ins| * x.g.QWidth() <= |b|
    ensures forall t: nat :: t < |ins| ==> (t + 1) * x.g.QWidth() <= |b| && Toks(ins)[t].q == QRow(b, x.g.QWidth(), t)
  {
    hide NarrowAll, Concat, QRow;
    var rows := Qs(ins);
    ConcatLength(rows, x.g.QWidth());
    forall t: nat | t < |ins| ensures (t + 1) * x.g.QWidth() <= |b| && Toks(ins)[t].q == QRow(b, x.g.QWidth(), t) {
      ConcatRow(rows, x.g.QWidth(), b, t);
    }
  }

  /** No layer but this one has changed. */
  predicate OnlyLayer(a: seq<Cells>, b: seq<Cells>, layer: nat) {
    |a| == |b| && forall i :: 0 <= i < |a| && i != layer ==> b[i] == a[i]
  }

  lemma OnlyLayerOn(a: seq<Cells>, b: seq<Cells>, c: seq<Cells>, layer: nat)
    requires OnlyLayer(a, b, layer) && (OnlyLayer(b, c, layer) || b == c)
    ensures OnlyLayer(a, c, layer) && |a| == |b| == |c|
  {}

  lemma OneUpdated(a: seq<Cells>, layer: nat, cells: Cells)
    requires layer < |a|
    ensures OnlyLayer(a, a[layer := cells], layer)
  {}

  /** Both sides stored is the batch stored. */
  lemma BothStored(x: Setup, l: Layer, m: Layer, start: nat, toks: seq<Token>)
    requires Fits(x, toks) && MappedTo(l, start + |toks|) && m.kRule == l.kRule && m.vRule == l.vRule
    requires Storable(l.kRule, x.g.KvWidth(), Batch(start, KRows(toks))) && Storable(l.vRule, x.g.KvWidth(), Batch(start, VRows(toks)))
    requires m.k == StoreAll(l.k, x.g.KvWidth(), l.kRule, Batch(start, KRows(toks)))
    requires m.v == StoreAll(l.v, x.g.KvWidth(), l.vRule, Batch(start, VRows(toks)))
    ensures m == StoreBatch(x, l, start, toks)
  {
    hide StoreAll, Batch, Mapped;
  }

  /** Writes a part's values to the head of a buffer. */
  method Load(c: Ctx, id: nat, values: seq<F>)
    modifies c`bufs
    ensures values <= c.Buf(id)
    ensures forall i :: i != id ==> c.Buf(i) == old(c.Buf(i))
  {
    c.Write(id, 0, values);
  }

  /** Writes a part's queries, keys and values. */
  method LoadPart(c: Ctx, ins: seq<Input>)
    modifies c`bufs
    ensures Concat(Qs(ins)) <= c.Buf(BUF_Q) && Concat(Ks(ins)) <= c.Buf(BUF_K) && Concat(Vs(ins)) <= c.Buf(BUF_V)
  {
    hide Concat;
    Load(c, BUF_Q, Concat(Qs(ins)));
    Load(c, BUF_K, Concat(Ks(ins)));
    Load(c, BUF_V, Concat(Vs(ins)));
  }

  /** Stores a part's K and V rows: the layer is the batch stored into what it was, and no other layer changes. */
  method StorePart(c: Ctx, x: Setup, layer: nat, start: nat, ring: nat, ins: seq<Input>)
    requires layer < |c.kvK| && layer < |c.kvV| && CanRun(x, c.LayerOf(layer, ring, x.g.KvWidth()), start, ins)
    modifies c`bufs, c`kvK, c`kvV
    ensures OnlyLayer(old(c.kvK), c.kvK, layer) && OnlyLayer(old(c.kvV), c.kvV, layer)
    ensures Fits(x, Toks(ins))
    ensures c.LayerOf(layer, ring, x.g.KvWidth()) == StoreBatch(x, old(c.LayerOf(layer, ring, x.g.KvWidth())), start, Toks(ins))
    ensures Concat(Qs(ins)) <= c.Buf(BUF_Q)
  {
    hide StoreAll, NarrowRows, Batch, Concat, HistoryIn, OnlyLayer, StoreBatch, Toks, Mapped, Storable;
    ToksFit(x, ins);
    var w := x.g.KvWidth();
    ghost var l, k0, v0 := c.LayerOf(layer, ring, w), c.kvK, c.kvV;
    LoadPart(c, ins);
    KRowsOf(x, ins, c.Buf(BUF_K));
    VRowsOf(x, ins, c.Buf(BUF_V));
    c.KvStore(BUF_K, layer, w, start, |ins|, false, ring);
    c.KvStore(BUF_V, layer, w, start, |ins|, true, ring);
    OneUpdated(k0, layer, c.kvK[layer]);
    OneUpdated(v0, layer, c.kvV[layer]);
    BothStored(x, l, c.LayerOf(layer, ring, w), start, Toks(ins));
  }

  /** The layer `l` has become `m`, and `out` is what attending the part gives. */
  ghost predicate Ran(x: Setup, l: Layer, start: nat, ins: seq<Input>, m: Layer, out: seq<F>) {
    && Fits(x, Toks(ins)) && MappedTo(l, start + |ins|)
    && m == StoreBatch(x, l, start, Toks(ins))
    && HistoryIn(x, m, start + |ins|)
    && out == Concat(AttendBatch(x, m, start, Toks(ins)))
  }

  /** What attention reads and writes for a part that has been stored. */
  lemma PartAttended(x: Setup, l: Layer, start: nat, ins: seq<Input>, m: Layer, q: seq<F>)
    requires CanRun(x, l, start, ins) && Fits(x, Toks(ins)) && m == StoreBatch(x, l, start, Toks(ins))
    requires Concat(Qs(ins)) <= q
    ensures |ins| * x.g.QWidth() <= |q| && MappedTo(m, start + |ins|) && AllReachable(x, m, start, |ins|)
    ensures |AttendRows(x, m, start, q, |ins|)| == |ins| * x.g.QWidth()
    ensures Ran(x, l, start, ins, m, AttendRows(x, m, start, q, |ins|))
  {
    hide StoreBatch, AttendBatch, Concat, HistoryIn, AllReachable, Toks, AttendRows;
    BatchReaches(x, l, start, Toks(ins));
    QRowsOf(x, ins, q);
    RowsAreBatch(x, m, start, q, Toks(ins));
    AttendLength(x, m, start, q, |ins|);
  }

  /** One part: write, store, attend, read the outputs. */
  method RunPart(c: Ctx, x: Setup, layer: nat, start: nat, ring: nat, ins: seq<Input>) returns (out: seq<F>)
    requires layer < |c.kvK| && layer < |c.kvV| && CanRun(x, c.LayerOf(layer, ring, x.g.KvWidth()), start, ins)
    modifies c`bufs, c`kvK, c`kvV
    ensures OnlyLayer(old(c.kvK), c.kvK, layer) && OnlyLayer(old(c.kvV), c.kvV, layer)
    ensures Ran(x, old(c.LayerOf(layer, ring, x.g.KvWidth())), start, ins, c.LayerOf(layer, ring, x.g.KvWidth()), out)
  {
    hide StoreBatch, Concat, AllReachable, Toks, Ran, AttendRows, MappedTo, Fits, HistoryIn;
    ghost var l := c.LayerOf(layer, ring, x.g.KvWidth());
    StorePart(c, x, layer, start, ring, ins);
    ghost var m, q := c.LayerOf(layer, ring, x.g.KvWidth()), c.Buf(BUF_Q);
    PartAttended(x, l, start, ins, m, q);
    c.Attention(x, layer, start, |ins|, ring);
    out := c.Read(BUF_ATTN, 0, |ins| * x.g.QWidth());
  }

  lemma {:induction false} AttendLength(x: Setup, l: Layer, start: nat, q: seq<F>, n: nat)
    requires x.g.Valid() && n * x.g.QWidth() <= |q| && MappedTo(l, start + n)
    ensures |AttendRows(x, l, start, q, n)| == n * x.g.QWidth()
  {
    hide Attend, QRow;
    if n > 0 {
      RowFits(x.g.QWidth(), n - 1, n);
      AttendLength(x, l, start, q, n - 1);
      AttendWidth(x, l, start + n - 1, QRow(q, x.g.QWidth(), n - 1));
    }
  }

  // ---------------------------------------------------------------- a prompt in parts

  function Sum(sizes: seq<nat>): nat {
    if sizes == [] then 0 else Sum(sizes[..|sizes| - 1]) + sizes[|sizes| - 1]
  }

  lemma {:induction false} SumGrows(sizes: seq<nat>, i: nat)
    requires i < |sizes|
    ensures Sum(sizes[..i + 1]) == Sum(sizes[..i]) + sizes[i] && Sum(sizes[..i + 1]) <= Sum(sizes)
    decreases |sizes|
  {
    assert sizes[..i + 1][..i] == sizes[..i];
    if i + 1 == |sizes| {
      assert sizes[..i + 1] == sizes;
    } else {
      SumGrows(sizes[..|sizes| - 1], i);
      assert sizes[..|sizes| - 1][..i + 1] == sizes[..i + 1] && sizes[..|sizes| - 1][..i] == sizes[..i];
      assert sizes[..|sizes| - 1][i] == sizes[i];
    }
  }

  lemma {:induction false} ConcatAppend(a: seq<seq<F>>, b: seq<seq<F>>)
    ensures Concat(a + b) == Concat(a) + Concat(b)
    decreases |b|
  {
    if b == [] {
      assert a + b == a;
    } else {
      var most, last := b[..|b| - 1], b[|b| - 1];
      ConcatAppend(a, most);
      assert (a + b)[..|a + b| - 1] == a + most && (a + b)[|a + b| - 1] == last;
      assert Concat(a + b) == Concat(a + most) + last;
      assert Concat(a) + Concat(most) + last == Concat(a) + (Concat(most) + last);
    }
  }

  lemma ToksSplit(ins: seq<Input>, i: nat, j: nat)
    requires i <= j <= |ins|
    ensures Toks(ins[..j]) == Toks(ins[..i]) + Toks(ins[i..j]) && ins[..j] == ins[..i] + ins[i..j]
  {}

  lemma RoomyShorter(x: Setup, l: Layer, m: Layer, start: nat, j: nat, n: nat)
    requires Roomy(x, l, start, n) && j <= n && m.kRule == l.kRule && m.vRule == l.vRule
    ensures Roomy(x, m, start, j) && MappedTo(m, start + j)
  {}

  lemma MappedLess(l: Layer, m: Layer, a: nat, b: nat)
    requires MappedTo(l, b) && a <= b && m.kRule == l.kRule && m.vRule == l.vRule
    ensures MappedTo(m, a)
  {}

  /** Two stretches of a prompt, the second run on what the first left, are one uncut stretch. */
  lemma RanOn(x: Setup, l: Layer, start: nat, xs: seq<Input>, m: Layer, a: seq<F>, ys: seq<Input>, n: Layer, b: seq<F>)
    requires x.g.Valid() && Sized(x.g, xs + ys) && Roomy(x, l, start, |xs + ys|)
    requires Ran(x, l, start, xs, m, a) && Ran(x, m, start + |xs|, ys, n, b)
    ensures Ran(x, l, start, xs + ys, n, a + b)
  {
    hide StoreBatch, AttendBatch, Concat, HistoryIn, Roomy, Toks, MappedTo, NarrowAll;
    ToksFit(x, xs + ys);
    assert Toks(xs + ys) == Toks(xs) + Toks(ys) by {
      ToksSplit(xs + ys, |xs|, |xs + ys|);
      assert (xs + ys)[..|xs|] == xs && (xs + ys)[|xs|..|xs + ys|] == ys && (xs + ys)[..|xs + ys|] == xs + ys;
    }
    RoomyShorter(x, l, l, start, |xs + ys|, |xs + ys|);
    RoomyShorter(x, l, m, start, |xs + ys|, |xs + ys|);
    MappedLess(l, m, start + |xs|, start + |xs + ys|);
    MappedLess(l, n, start + |xs| + |ys|, start + |xs + ys|);
    StoreBatchSplits(x, l, start, Toks(xs), Toks(ys));
    AttendSplits(x, m, start, Toks(xs), Toks(ys));
    ConcatAppend(AttendBatch(x, m, start, Toks(xs)), AttendBatch(x, n, start + |xs|, Toks(ys)));
  }

  lemma NothingRan(x: Setup, l: Layer, start: nat)
    requires x.g.Valid() && MappedTo(l, start) && HistoryIn(x, l, start)
    ensures Ran(x, l, start, [], l, [])
  {
    hide HistoryIn;
    assert Toks([]) == [];
    NoRows(x, l, start);
  }

  /** What has run so far lets the next part run. */
  lemma NextCanRun(x: Setup, l: Layer, start: nat, ins: seq<Input>, i: nat, j: nat, m: Layer, a: seq<F>)
    requires x.g.Valid() && Sized(x.g, ins) && Roomy(x, l, start, |ins|) && i <= j <= |ins|
    requires Ran(x, l, start, ins[..i], m, a)
    ensures CanRun(x, m, start + i, ins[i..j]) && Sized(x.g, ins[..j]) && Roomy(x, l, start, j)
  {
    hide StoreBatch, AttendBatch, Concat, HistoryIn, Toks, Roomy, MappedTo;
    RoomyShorter(x, l, m, start, j, |ins|);
    RoomyShorter(x, l, l, start, j, |ins|);
  }

  /** The next part of a prompt of which the first `i` tokens have run. */
  method RunNext(c: Ctx, x: Setup, layer: nat, start: nat, ring: nat, ins: seq<Input>, i: nat, j: nat,
                 ghost l: Layer, ghost a: seq<F>) returns (o: seq<F>)
    requires layer < |c.kvK| && layer < |c.kvV| && i <= j <= |ins|
    requires x.g.Valid() && Sized(x.g, ins) && Roomy(x, l, start, |ins|)
    requires Ran(x, l, start, ins[..i], c.LayerOf(layer, ring, x.g.KvWidth()), a)
    modifies c`bufs, c`kvK, c`kvV
    ensures |c.kvK| == |old(c.kvK)| && |c.kvV| == |old(c.kvV)|
    ensures OnlyLayer(old(c.kvK), c.kvK, layer) && OnlyLayer(old(c.kvV), c.kvV, layer)
    ensures Ran(x, l, start, ins[..j], c.LayerOf(layer, ring, x.g.KvWidth()), a + o)
  {
    hide Ran, CanRun, Roomy, Sized;
    ghost var m := c.LayerOf(layer, ring, x.g.KvWidth());
    NextCanRun(x, l, start, ins, i, j, m, a);
    o := RunPart(c, x, layer, start + i, ring, ins[i..j]);
    assert ins[..j] == ins[..i] + ins[i..j];
    RanOn(x, l, start, ins[..i], m, a, ins[i..j], c.LayerOf(layer, ring, x.g.KvWidth()), o);
  }

  lemma Unchanged(a: seq<Cells>, layer: nat)
    ensures OnlyLayer(a, a, layer)
  {}

  lemma NothingSummed(sizes: seq<nat>)
    ensures Sum(sizes[..0]) == 0
  {}

  /**
   A prompt run in parts of any sizes, when it and its window fit the layer's rules: the caches and the
   outputs are those of the whole prompt stored at once and then attended.  No cut appears in them.
   */
  method RunPrompt(c: Ctx, x: Setup, layer: nat, start: nat, ring: nat, ins: seq<Input>, sizes: seq<nat>) returns (out: seq<F>)
    requires layer < |c.kvK| && layer < |c.kvV| && Sum(sizes) == |ins|
    requires CanRun(x, c.LayerOf(layer, ring, x.g.KvWidth()), start, ins)
    requires Roomy(x, c.LayerOf(layer, ring, x.g.KvWidth()), start, |ins|)
    modifies c`bufs, c`kvK, c`kvV
    ensures OnlyLayer(old(c.kvK), c.kvK, layer) && OnlyLayer(old(c.kvV), c.kvV, layer)
    ensures Ran(x, old(c.LayerOf(layer, ring, x.g.KvWidth())), start, ins, c.LayerOf(layer, ring, x.g.KvWidth()), out)
    ensures |c.kvK| == |old(c.kvK)| && |c.kvV| == |old(c.kvV)|
    ensures forall i: nat :: i < |c.kvK| && i != layer ==> c.kvK[i] == old(c.kvK)[i]
    ensures forall i: nat :: i < |c.kvV| && i != layer ==> c.kvV[i] == old(c.kvV)[i]
    ensures
      var l := old(c.LayerOf(layer, ring, x.g.KvWidth()));
      && Fits(x, Toks(ins)) && MappedTo(l, start + |Toks(ins)|)
      && c.LayerOf(layer, ring, x.g.KvWidth()) == StoreBatch(x, l, start, Toks(ins))
      && out == Concat(AttendBatch(x, StoreBatch(x, l, start, Toks(ins)), start, Toks(ins)))
  {
    hide Ran, CanRun, Roomy, OnlyLayer, Sum, Sized;
    ghost var l, k0, v0 := c.LayerOf(layer, ring, x.g.KvWidth()), c.kvK, c.kvV;
    StartRan(x, l, start, ins);
    Unchanged(k0, layer);
    Unchanged(v0, layer);
    NothingSummed(sizes);
    out := [];
    var i, done := 0, 0;
    while i < |sizes|
      invariant i <= |sizes| && done == Sum(sizes[..i]) <= |ins|
      invariant |c.kvK| == |k0| && |c.kvV| == |v0| && OnlyLayer(k0, c.kvK, layer) && OnlyLayer(v0, c.kvV, layer)
      invariant Ran(x, l, start, ins[..done], c.LayerOf(layer, ring, x.g.KvWidth()), out)
    {
      SumGrows(sizes, i);
      ghost var k, v := c.kvK, c.kvV;
      var o := RunNext(c, x, layer, start, ring, ins, done, done + sizes[i], l, out);
      OnlyLayerOn(k0, k, c.kvK, layer);
      OnlyLayerOn(v0, v, c.kvV, layer);
      out, done, i := out + o, done + sizes[i], i + 1;
    }
    assert sizes[..i] == sizes && ins[..done] == ins;
    RanIs(x, l, start, ins, c.LayerOf(layer, ring, x.g.KvWidth()), out);
    OthersKept(k0, c.kvK, layer);
    OthersKept(v0, c.kvV, layer);
  }

  lemma RanIs(x: Setup, l: Layer, start: nat, ins: seq<Input>, m: Layer, out: seq<F>)
    requires Ran(x, l, start, ins, m, out)
    ensures Fits(x, Toks(ins)) && MappedTo(l, start + |Toks(ins)|)
    ensures m == StoreBatch(x, l, start, Toks(ins))
    ensures out == Concat(AttendBatch(x, StoreBatch(x, l, start, Toks(ins)), start, Toks(ins)))
  {
    hide StoreBatch, AttendBatch, Concat, HistoryIn, MappedTo, Fits;
  }

  lemma OthersKept(a: seq<Cells>, b: seq<Cells>, layer: nat)
    requires OnlyLayer(a, b, layer)
    ensures |a| == |b| && forall i: nat :: i < |b| && i != layer ==> b[i] == a[i]
  {}

  lemma StartRan(x: Setup, l: Layer, start: nat, ins: seq<Input>)
    requires CanRun(x, l, start, ins)
    ensures x.g.Valid() && Sized(x.g, ins) && ins[..0] == [] && Ran(x, l, start, [], l, [])
  {
    assert MappedTo(l, start);
    NothingRan(x, l, start);
  }

  // ---------------------------------------------------------------- the byte view of a stored row

  lemma RegionRows(reg: nat, w: nat, j: nat)
    requires w > 0 && reg % (2 * w) == 0
    ensures (reg + j * (2 * w)) / 2 == (reg / (2 * w) + j) * w
  {
    var r := reg / (2 * w);
    assert reg == 2 * (r * w) by {
      assert reg == r * (2 * w);
    }
    assert (r + j) * w == r * w + j * w;
    assert reg + j * (2 * w) == 2 * (r * w + j * w);
  }

  lemma StoredOne(c: Cells, w: nat, rule: Rule, pos: nat, buf: seq<F>)
    requires w <= |buf| && Mapped(rule, pos)
    ensures Storable(rule, w, Batch(pos, NarrowRows(buf, w, 1)))
    ensures StoreAll(c, w, rule, Batch(pos, NarrowRows(buf, w, 1))) == StoreRow(c, w, SlotOf(rule, pos), Narrowed(buf, 0, w))
  {
    hide SlotOf, StoreRow, Narrowed;
    NoRow(buf, w);
    EmptyBatch(c, w, rule, pos);
    NextStore(c, w, rule, pos, buf, 0);
  }

  lemma StoredCells(c: Cells, w: nat, slot: nat, row: Row)
    requires |row| == w
    ensures slot * w + w <= |StoreRow(c, w, slot, row)|
    ensures StoreRow(c, w, slot, row)[slot * w..slot * w + w] == row
  {
    RowFits(w, slot, slot + 1);
  }

  /** One row stored on one side of a layer. */
  method StoreOne(c: Ctx, src: nat, layer: nat, w: nat, pos: nat, isV: bool, ring: nat)
    requires layer < |c.kvK| && layer < |c.kvV| && w <= |c.Buf(src)| && ring > 0
    modifies c`kvK, c`kvV
    ensures |c.kvK| == |old(c.kvK)| && |c.kvV| == |old(c.kvV)|
    ensures (if isV then c.kvV[layer] else c.kvK[layer]) ==
      StoreRow(if isV then old(c.kvV)[layer] else old(c.kvK)[layer], w,
               SlotOf(c.RuleOf(layer, ring, isV, 2 * w), pos), Narrowed(c.Buf(src), 0, w))
  {
    hide StoreAll, Batch, NarrowRows, Storable, StoreRow, SlotOf, Narrowed;
    StoredOne(if isV then c.kvV[layer] else c.kvK[layer], w, c.RuleOf(layer, ring, isV, 2 * w), pos, c.Buf(src));
    c.KvStore(src, layer, w, pos, 1, isV, ring);
  }

  /**
   The byte view reads what was stored: after one row is stored at a position of a ring whose region starts on a
   whole row, the bytes at that position's place in the live region are the narrowed row, low byte first.
   */
  method StoreThenRead(c: Ctx, src: nat, layer: nat, w: nat, pos: nat, isV: bool, k: nat) returns (b: seq<Byte>)
    requires layer < |c.kvK| && layer < |c.kvV| && 0 < w <= |c.Buf(src)|
    requires (if isV then (if layer < |c.regV| then c.regV[layer] else 0)
              else if layer < |c.regK| then c.regK[layer] else 0) % (2 * w) == 0
    modifies c`kvK, c`kvV
    ensures |b| == 2 * w
    ensures forall i :: 0 <= i < w ==>
      b[2 * i] == FromSingle(c.Buf(src)[i]) % 256 && b[2 * i + 1] == FromSingle(c.Buf(src)[i]) / 256
  {
    hide FromSingle, Bytes, StoreRow, SlotOf, Narrowed, Pow2, Ctx.RuleOf, Ctx.Region;
    ghost var cells := if isV then c.kvV[layer] else c.kvK[layer];
    SlotAddress(c, layer, w, pos, isV, k);
    ghost var row, slot := Narrowed(c.Buf(src), 0, w), SlotOf(c.RuleOf(layer, Pow2(k), isV, 2 * w), pos);
    var off := pos % Pow2(k) * (2 * w);
    StoreOne(c, src, layer, w, pos, isV, Pow2(k));
    StoredCells(cells, w, slot, row);
    b := ReadRow(c, layer, isV, off, w, slot * w, row);
    NarrowedBytes(c.Buf(src), w, b);
  }

  /** Bytes read over a row of the live region. */
  method ReadRow(c: Ctx, layer: nat, isV: bool, off: nat, w: nat, ghost at: nat, ghost row: Row) returns (b: seq<Byte>)
    requires layer < |c.kvK| && layer < |c.kvV| && |row| == w && c.FirstCell(layer, isV, off) == at
    requires at + w <= |if isV then c.kvV[layer] else c.kvK[layer]|
    requires (if isV then c.kvV[layer] else c.kvK[layer])[at..at + w] == row
    ensures b == Bytes(row)
  {
    hide Bytes;
    b := c.ReadKvBytes(layer, isV, off, seq<Byte>(2 * w, _ => 0));
  }

  /** The byte offset of a position's row is the first cell of its slot. */
  lemma SlotAddress(c: Ctx, layer: nat, w: nat, pos: nat, isV: bool, k: nat)
    requires w > 0
    requires (if isV then (if layer < |c.regV| then c.regV[layer] else 0)
              else if layer < |c.regK| then c.regK[layer] else 0) % (2 * w) == 0
    ensures Mapped(c.RuleOf(layer, Pow2(k), isV, 2 * w), pos)
    ensures c.FirstCell(layer, isV, pos % Pow2(k) * (2 * w)) == SlotOf(c.RuleOf(layer, Pow2(k), isV, 2 * w), pos) * w
  {
    hide SlotOf, Pow2;
    RingSlot(k, c.Region(layer, isV) / (2 * w), pos);
    RegionRows(c.Region(layer, isV), w, pos % Pow2(k));
  }

  lemma NarrowedBytes(buf: seq<F>, w: nat, b: seq<Byte>)
    requires w <= |buf| && b == Bytes(Narrowed(buf, 0, w))
    ensures |b| == 2 * w
    ensures forall i :: 0 <= i < w ==> b[2 * i] == FromSingle(buf[i]) % 256 && b[2 * i + 1] == FromSingle(buf[i]) / 256
  {
    hide FromSingle, Bytes;
    forall i | 0 <= i < w ensures b[2 * i] == FromSingle(buf[i]) % 256 && b[2 * i + 1] == FromSingle(buf[i]) / 256 {
      BytesAt(Narrowed(buf, 0, w), i);
    }
  }
}
