/**
 One side of one layer's cache: a growing vector of half-precision cells, rows stored into it, and
 which row a later read returns.
 */
module KvRows {
  import opened Numbers
  import opened KvRule
  import opened Half

  type Cells = seq<Bits16>
  type Row = seq<Bits16>

  /** A cell never stored is zero: growing the vector pads it with zeros. */
  function Cell(c: Cells, j: nat): Bits16 {
    if j < |c| then c[j] else 0
  }

  function RowAt(c: Cells, w: nat, slot: nat): (r: Row)
    ensures |r| == w
  {
    seq<Bits16>(w, i requires 0 <= i < w => Cell(c, slot * w + i))
  }

  function Grown(c: Cells, n: nat): Cells {
    if |c| < n then c + seq(n - |c|, _ => 0) else c
  }

  function StoreRow(c: Cells, w: nat, slot: nat, row: Row): (r: Cells)
    requires |row| == w
    ensures |r| >= |c| && |r| >= (slot + 1) * w
  {
    var g := Grown(c, (slot + 1) * w);
    assert (slot + 1) * w == slot * w + w;
    g[..slot * w] + row + g[slot * w + w..]
  }

  /** Rows at different slots share no cell. */
  lemma SlotsDisjoint(w: nat, s: nat, t: nat, i: nat)
    requires s != t && i < w
    ensures t * w + i < s * w || s * w + w <= t * w + i
  {
    if t < s {
      MulMono(t + 1, s, w);
    } else {
      MulMono(s + 1, t, w);
    }
  }

  lemma StoredCell(c: Cells, w: nat, slot: nat, row: Row, j: nat)
    requires |row| == w
    ensures Cell(StoreRow(c, w, slot, row), j)
      == if slot * w <= j < slot * w + w then row[j - slot * w] else Cell(c, j)
  {
    assert (slot + 1) * w == slot * w + w;
  }

  lemma StoredRowCell(c: Cells, w: nat, slot: nat, row: Row, s: nat, i: nat)
    requires |row| == w && i < w
    ensures Cell(StoreRow(c, w, slot, row), s * w + i) == if s == slot then row[i] else Cell(c, s * w + i)
  {
    hide StoreRow, Cell;
    StoredCell(c, w, slot, row, s * w + i);
    if s != slot {
      SlotsDisjoint(w, slot, s, i);
    }
  }

  /** A stored row is what its own slot now holds; every other slot keeps what it held. */
  lemma StoredRow(c: Cells, w: nat, slot: nat, row: Row, s: nat)
    requires |row| == w
    ensures RowAt(StoreRow(c, w, slot, row), w, s) == if s == slot then row else RowAt(c, w, s)
  {
    hide StoreRow, Cell;
    forall i: nat | i < w
      ensures RowAt(StoreRow(c, w, slot, row), w, s)[i] == if s == slot then row[i] else RowAt(c, w, s)[i]
    {
      StoredRowCell(c, w, slot, row, s, i);
    }
  }

  // ---------------------------------------------------------------- sequences of stores

  /** One row stored for one position. */
  datatype Store = Store(pos: nat, row: Row)

  predicate Storable(rule: Rule, w: nat, es: seq<Store>) {
    forall e :: e in es ==> Mapped(rule, e.pos) && |e.row| == w
  }

  function StoreAll(c: Cells, w: nat, rule: Rule, es: seq<Store>): Cells
    requires Storable(rule, w, es)
  {
    if es == [] then c
    else
      var last := es[|es| - 1];
      StoreRow(StoreAll(c, w, rule, es[..|es| - 1]), w, SlotOf(rule, last.pos), last.row)
  }

  /** The unbounded, append-only cache: the row last stored for `p`, or what was there before. */
  function FlatRead(before: Row, es: seq<Store>, p: nat): Row {
    if es == [] then before
    else if es[|es| - 1].pos == p then es[|es| - 1].row
    else FlatRead(before, es[..|es| - 1], p)
  }

  /** No store to another position reached `p`'s slot after the last store to `p`. */
  predicate Undisturbed(rule: Rule, es: seq<Store>, p: nat)
    requires Mapped(rule, p) && forall e :: e in es ==> Mapped(rule, e.pos)
  {
    if es == [] then true
    else if es[|es| - 1].pos == p then true
    else SlotOf(rule, es[|es| - 1].pos) != SlotOf(rule, p) && Undisturbed(rule, es[..|es| - 1], p)
  }

  /** Under any rule, a position's slot holds what a flat cache holds, as long as it is undisturbed. */
  lemma {:induction false} ReadsAsFlat(c: Cells, w: nat, rule: Rule, es: seq<Store>, p: nat)
    requires Storable(rule, w, es) && Mapped(rule, p) && Undisturbed(rule, es, p)
    ensures RowAt(StoreAll(c, w, rule, es), w, SlotOf(rule, p)) == FlatRead(RowAt(c, w, SlotOf(rule, p)), es, p)
  {
    if es != [] {
      var last, prefix := es[|es| - 1], es[..|es| - 1];
      StoredRow(StoreAll(c, w, rule, prefix), w, SlotOf(rule, last.pos), last.row, SlotOf(rule, p));
      if last.pos != p {
        ReadsAsFlat(c, w, rule, prefix, p);
      }
    }
  }

  lemma {:induction false} ApartUndisturbed(rule: Rule, es: seq<Store>, p: nat, a: nat, b: nat)
    requires Apart(rule, a, b) && a <= p < b && forall e :: e in es ==> a <= e.pos < b
    ensures Undisturbed(rule, es, p)
  {
    if es != [] {
      ApartUndisturbed(rule, es[..|es| - 1], p, a, b);
      assert es[|es| - 1] in es;
    }
  }

  // ---------------------------------------------------------------- batches in position order

  /** Rows for the positions from `start` on. */
  function Batch(start: nat, rows: seq<Row>): seq<Store> {
    seq(|rows|, t requires 0 <= t < |rows| => Store(start + t, rows[t]))
  }

  lemma BatchSnoc(start: nat, rows: seq<Row>)
    requires rows != []
    ensures Batch(start, rows)[..|rows| - 1] == Batch(start, rows[..|rows| - 1])
    ensures Batch(start, rows)[|rows| - 1] == Store(start + |rows| - 1, rows[|rows| - 1])
  {}

  lemma BatchAppend(start: nat, xs: seq<Row>, ys: seq<Row>)
    ensures Batch(start, xs + ys) == Batch(start, xs) + Batch(start + |xs|, ys)
  {}

  lemma {:induction false} StoreAllAppend(c: Cells, w: nat, rule: Rule, xs: seq<Store>, ys: seq<Store>)
    requires Storable(rule, w, xs) && Storable(rule, w, ys)
    ensures Storable(rule, w, xs + ys)
    ensures StoreAll(c, w, rule, xs + ys) == StoreAll(StoreAll(c, w, rule, xs), w, rule, ys)
  {
    if ys == [] {
      assert xs + ys == xs;
    } else {
      assert (xs + ys)[..|xs + ys| - 1] == xs + ys[..|ys| - 1];
      StoreAllAppend(c, w, rule, xs, ys[..|ys| - 1]);
    }
  }

  /** Stores to positions kept apart from `p` leave `p`'s slot as it was. */
  lemma {:induction false} StoresElsewhere(c: Cells, w: nat, rule: Rule, es: seq<Store>, p: nat)
    requires Storable(rule, w, es) && Mapped(rule, p)
    requires forall e :: e in es ==> SlotOf(rule, e.pos) != SlotOf(rule, p)
    ensures RowAt(StoreAll(c, w, rule, es), w, SlotOf(rule, p)) == RowAt(c, w, SlotOf(rule, p))
  {
    if es != [] {
      var last, prefix := es[|es| - 1], es[..|es| - 1];
      assert last in es;
      StoredRow(StoreAll(c, w, rule, prefix), w, SlotOf(rule, last.pos), last.row, SlotOf(rule, p));
      StoresElsewhere(c, w, rule, prefix, p);
    }
  }

  /** In an in-order run of stores, `p` is undisturbed exactly when no later position shares its slot. */
  lemma {:induction false} InOrderUndisturbed(rule: Rule, start: nat, rows: seq<Row>, p: nat)
    requires start <= p < start + |rows| && forall q: nat :: q < start + |rows| ==> Mapped(rule, q)
    ensures Undisturbed(rule, Batch(start, rows), p)
      <==> forall q: nat :: p < q < start + |rows| ==> SlotOf(rule, q) != SlotOf(rule, p)
  {
    var n := |rows|;
    BatchSnoc(start, rows);
    if p < start + n - 1 {
      InOrderUndisturbed(rule, start, rows[..n - 1], p);
    }
  }

  /**
   The ring condition, exactly.  Positions from `start` on have been stored in order up to `end`, the
   last `n` of them as the batch now attended; every read of a window of `window` positions returns
   the row last stored for its position if and only if window + n - 1 fits in the ring.
   */
  lemma RingWindow(k: nat, base: nat, start: nat, rows: seq<Row>, n: nat, window: nat)
    requires 0 < n && 0 < window && window + n - 1 <= |rows|
    ensures
      var end := start + |rows|;
      (forall p: nat :: end - n - (window - 1) <= p < end ==>
        Undisturbed(Ring(Pow2(k), base), Batch(start, rows), p)) <==> window + n - 1 <= Pow2(k)
  {
    hide And, Pow2, Undisturbed;
    var rule := Ring(Pow2(k), base);
    var end := start + |rows|;
    var a := end - n - (window - 1);
    forall p: nat | a <= p < end
      ensures Undisturbed(rule, Batch(start, rows), p) <==> forall q: nat :: p < q < end ==> SlotOf(rule, q) != SlotOf(rule, p)
    {
      InOrderUndisturbed(rule, start, rows, p);
    }
    RingApart(k, base, a, end);
    if window + n - 1 > Pow2(k) {
      var p: nat, q: nat :| a <= p < q < end && SlotOf(rule, p) == SlotOf(rule, q);
      assert !Undisturbed(rule, Batch(start, rows), p);
    }
  }
}
