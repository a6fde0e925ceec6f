/**
 The fast addressing rules against the simple one: a ring or a page table gives the outputs of an
 unbounded flat cache, physical blocks may move, and conversations that own different regions of one
 ring buffer do not see each other.
 */
module KvRefine {
  import opened Numbers
  import opened KvRule
  import opened KvRows
  import opened KvAttend

  // ---------------------------------------------------------------- two layers that read alike

  /** On positions `a` to `b`, both caches return the same row. */
  ghost predicate SideAgrees(w: nat, c: Cells, r: Rule, d: Cells, s: Rule, a: nat, b: nat)
    requires forall p: nat :: p < b ==> Mapped(r, p) && Mapped(s, p)
  {
    forall p: nat :: a <= p < b ==> RowAt(c, w, SlotOf(r, p)) == RowAt(d, w, SlotOf(s, p))
  }

  ghost predicate Agrees(x: Setup, l: Layer, m: Layer, a: nat, b: nat)
    requires MappedTo(l, b) && MappedTo(m, b)
  {
    && SideAgrees(x.g.KvWidth(), l.k, l.kRule, m.k, m.kRule, a, b)
    && SideAgrees(x.g.KvWidth(), l.v, l.vRule, m.v, m.vRule, a, b)
  }

  /** A row stored by the batch hides whatever was there before. */
  lemma {:induction false} BatchHit(before: Row, other: Row, start: nat, rows: seq<Row>, p: nat)
    requires start <= p < start + |rows|
    ensures FlatRead(before, Batch(start, rows), p) == FlatRead(other, Batch(start, rows), p)
  {
    BatchSnoc(start, rows);
    if p < start + |rows| - 1 {
      BatchHit(before, other, start, rows[..|rows| - 1], p);
    }
  }

  lemma {:induction false} BatchMiss(before: Row, start: nat, rows: seq<Row>, p: nat)
    requires p < start
    ensures FlatRead(before, Batch(start, rows), p) == before
  {
    if rows != [] {
      BatchSnoc(start, rows);
      BatchMiss(before, start, rows[..|rows| - 1], p);
    }
  }

  lemma ReadAfterBatch(w: nat, c: Cells, r: Rule, a: nat, start: nat, rows: seq<Row>, p: nat)
    requires a <= start && a <= p < start + |rows| && Apart(r, a, start + |rows|)
    requires forall x :: x in rows ==> |x| == w
    ensures Storable(r, w, Batch(start, rows))
    ensures RowAt(StoreAll(c, w, r, Batch(start, rows)), w, SlotOf(r, p))
      == FlatRead(RowAt(c, w, SlotOf(r, p)), Batch(start, rows), p)
  {
    BatchStorable(r, w, start, rows);
    ApartUndisturbed(r, Batch(start, rows), p, a, start + |rows|);
    ReadsAsFlat(c, w, r, Batch(start, rows), p);
  }

  lemma StoreKeepsAgreement(w: nat, c: Cells, r: Rule, d: Cells, s: Rule, a: nat, start: nat, rows: seq<Row>)
    requires a <= start && Apart(r, a, start + |rows|) && Apart(s, a, start + |rows|)
    requires forall x :: x in rows ==> |x| == w
    requires SideAgrees(w, c, r, d, s, a, start)
    ensures Storable(r, w, Batch(start, rows)) && Storable(s, w, Batch(start, rows))
    ensures SideAgrees(w, StoreAll(c, w, r, Batch(start, rows)), r, StoreAll(d, w, s, Batch(start, rows)), s, a, start + |rows|)
  {
    hide StoreAll, FlatRead, SlotOf, RowAt, Batch;
    BatchStorable(r, w, start, rows);
    BatchStorable(s, w, start, rows);
    forall p: nat | a <= p < start + |rows|
      ensures RowAt(StoreAll(c, w, r, Batch(start, rows)), w, SlotOf(r, p))
        == RowAt(StoreAll(d, w, s, Batch(start, rows)), w, SlotOf(s, p))
    {
      ReadAfterBatch(w, c, r, a, start, rows, p);
      ReadAfterBatch(w, d, s, a, start, rows, p);
      if p >= start {
        BatchHit(RowAt(c, w, SlotOf(r, p)), RowAt(d, w, SlotOf(s, p)), start, rows, p);
      }
    }
  }

  lemma SameWindow(w: nat, c: Cells, r: Rule, d: Cells, s: Rule, a: nat, lo: nat, pos: nat)
    requires a <= lo <= pos + 1 && (forall p: nat :: p <= pos ==> Mapped(r, p) && Mapped(s, p))
    requires SideAgrees(w, c, r, d, s, a, pos + 1)
    ensures Window(c, w, r, lo, pos) == Window(d, w, s, lo, pos)
  {
    hide SlotOf, RowAt;
    forall i: nat | i < pos + 1 - lo ensures Window(c, w, r, lo, pos)[i] == Window(d, w, s, lo, pos)[i] {
      assert a <= lo + i < pos + 1;
    }
  }

  /** Layers that agree on a token's window give it the same output. */
  lemma SameAttend(x: Setup, l: Layer, m: Layer, a: nat, pos: nat, b: nat, q: seq<F>)
    requires x.g.Valid() && |q| == x.g.QWidth() && pos < b && MappedTo(l, b) && MappedTo(m, b)
    requires a <= Lo(pos, x.window) && Agrees(x, l, m, a, b)
    ensures Attend(x, l, pos, q) == Attend(x, m, pos, q)
  {
    SameWindow(x.g.KvWidth(), l.k, l.kRule, m.k, m.kRule, a, Lo(pos, x.window), pos);
    SameWindow(x.g.KvWidth(), l.v, l.vRule, m.v, m.vRule, a, Lo(pos, x.window), pos);
  }

  lemma BatchKeepsAgreement(x: Setup, l: Layer, m: Layer, start: nat, toks: seq<Token>)
    requires Fits(x, toks) && MappedTo(l, start + |toks|) && MappedTo(m, start + |toks|)
    requires Roomy(x, l, start, |toks|) && Roomy(x, m, start, |toks|)
    requires Agrees(x, l, m, Lo(start, x.window), start)
    ensures Agrees(x, StoreBatch(x, l, start, toks), StoreBatch(x, m, start, toks), Lo(start, x.window), start + |toks|)
  {
    hide StoreAll, SlotOf, RowAt, Batch, Apart;
    StoreKeepsAgreement(x.g.KvWidth(), l.k, l.kRule, m.k, m.kRule, Lo(start, x.window), start, KRows(toks));
    StoreKeepsAgreement(x.g.KvWidth(), l.v, l.vRule, m.v, m.vRule, Lo(start, x.window), start, VRows(toks));
  }

  lemma SameAttendBatch(x: Setup, l: Layer, m: Layer, start: nat, toks: seq<Token>)
    requires Fits(x, toks) && MappedTo(l, start + |toks|) && MappedTo(m, start + |toks|)
    requires Agrees(x, l, m, Lo(start, x.window), start + |toks|)
    ensures AttendBatch(x, l, start, toks) == AttendBatch(x, m, start, toks)
  {
    hide Attend, Agrees, Lo;
    forall t: nat | t < |toks| ensures Attend(x, l, start + t, toks[t].q) == Attend(x, m, start + t, toks[t].q) {
      assert toks[t] in toks;
      LoMono(start, start + t, x.window);
      SameAttend(x, l, m, Lo(start, x.window), start + t, start + |toks|, toks[t].q);
    }
  }

  // ---------------------------------------------------------------- whole prompts

  /** Every part, with the window before it, fits the layer's rules. */
  ghost predicate AllRoomy(x: Setup, l: Layer, start: nat, parts: seq<seq<Token>>)
    decreases |parts|
  {
    parts != [] ==> Roomy(x, l, start, |parts[0]|) && AllRoomy(x, l, start + |parts[0]|, parts[1..])
  }

  lemma AgreesNarrows(x: Setup, l: Layer, m: Layer, a: nat, b: nat, c: nat)
    requires MappedTo(l, c) && MappedTo(m, c) && a <= b && Agrees(x, l, m, a, c)
    ensures Agrees(x, l, m, b, c)
  {}

  lemma {:induction false} AllRoomyByRule(x: Setup, l: Layer, m: Layer, start: nat, parts: seq<seq<Token>>)
    requires AllRoomy(x, l, start, parts) && m.kRule == l.kRule && m.vRule == l.vRule
    ensures AllRoomy(x, m, start, parts)
    decreases |parts|
  {
    if parts != [] {
      AllRoomyByRule(x, l, m, start + |parts[0]|, parts[1..]);
    }
  }

  /**
   Refinement.  Two layers with any two addressing rules, agreeing on the window before `start`, give
   the same outputs for every prompt whose parts fit both.
   */
  lemma {:induction false} SameOutputs(x: Setup, l: Layer, m: Layer, start: nat, parts: seq<seq<Token>>)
    requires Fits(x, Flatten(parts))
    requires MappedTo(l, start + |Flatten(parts)|) && MappedTo(m, start + |Flatten(parts)|)
    requires AllRoomy(x, l, start, parts) && AllRoomy(x, m, start, parts)
    requires Agrees(x, l, m, Lo(start, x.window), start)
    ensures Outputs(x, l, start, parts) == Outputs(x, m, start, parts)
    decreases |parts|
  {
    hide StoreBatch, AttendBatch, Agrees, Roomy, Lo;
    if parts != [] {
      var xs := parts[0];
      FlattenFits(x, parts);
      var l', m' := StoreBatch(x, l, start, xs), StoreBatch(x, m, start, xs);
      BatchKeepsAgreement(x, l, m, start, xs);
      SameAttendBatch(x, l', m', start, xs);
      LoMono(start, start + |xs|, x.window);
      AgreesNarrows(x, l', m', Lo(start, x.window), Lo(start + |xs|, x.window), start + |xs|);
      AllRoomyByRule(x, l, l', start + |xs|, parts[1..]);
      AllRoomyByRule(x, m, m', start + |xs|, parts[1..]);
      SameOutputs(x, l', m', start + |xs|, parts[1..]);
    }
  }

  lemma {:induction false} FlatRoomy(x: Setup, l: Layer, start: nat, parts: seq<seq<Token>>)
    requires l.kRule.Flat? && l.vRule.Flat?
    ensures AllRoomy(x, l, start, parts)
    decreases |parts|
  {
    if parts != [] {
      FlatRoomy(x, l, start + |parts[0]|, parts[1..]);
    }
  }

  lemma {:induction false} RingRoomy(x: Setup, l: Layer, k: nat, start: nat, parts: seq<seq<Token>>)
    requires l.kRule.Ring? && l.vRule.Ring? && l.kRule.size == l.vRule.size == Pow2(k) && x.window > 0
    requires forall part :: part in parts ==> x.window + |part| - 1 <= Pow2(k)
    ensures AllRoomy(x, l, start, parts)
    decreases |parts|
  {
    hide Apart, Pow2;
    if parts != [] {
      assert parts[0] in parts;
      LoMono(start, start, x.window);
      RingApart(k, l.kRule.base, Lo(start, x.window), start + |parts[0]|);
      RingApart(k, l.vRule.base, Lo(start, x.window), start + |parts[0]|);
      RingRoomy(x, l, k, start + |parts[0]|, parts[1..]);
    }
  }

  /** Ringed attention over any prompt equals attention over an unbounded flat cache. */
  lemma RingIsFlat(x: Setup, l: Layer, m: Layer, k: nat, parts: seq<seq<Token>>)
    requires Fits(x, Flatten(parts)) && x.window > 0
    requires l.kRule.Ring? && l.vRule.Ring? && l.kRule.size == l.vRule.size == Pow2(k)
    requires forall part :: part in parts ==> x.window + |part| - 1 <= Pow2(k)
    requires m.kRule.Flat? && m.vRule.Flat?
    ensures Outputs(x, l, 0, parts) == Outputs(x, m, 0, parts)
  {
    RingRoomy(x, l, k, 0, parts);
    FlatRoomy(x, m, 0, parts);
    SameOutputs(x, l, m, 0, parts);
  }

  lemma {:induction false} PagedRoomy(x: Setup, l: Layer, start: nat, parts: seq<seq<Token>>)
    requires l.kRule.Paged? && l.vRule == l.kRule && Injective(l.kRule.table)
    requires start + |Flatten(parts)| <= |l.kRule.table| * PAGE
    ensures AllRoomy(x, l, start, parts)
    decreases |parts|
  {
    if parts != [] {
      PagedApart(l.kRule.table);
      PagedRoomy(x, l, start + |parts[0]|, parts[1..]);
    }
  }

  /** Paged attention over any prompt that fits the table equals attention over a flat cache. */
  lemma PagedIsFlat(x: Setup, l: Layer, m: Layer, parts: seq<seq<Token>>)
    requires Fits(x, Flatten(parts))
    requires l.kRule.Paged? && l.vRule == l.kRule && Injective(l.kRule.table)
    requires |Flatten(parts)| <= |l.kRule.table| * PAGE
    requires m.kRule.Flat? && m.vRule.Flat?
    ensures Outputs(x, l, 0, parts) == Outputs(x, m, 0, parts)
  {
    PagedRoomy(x, l, 0, parts);
    FlatRoomy(x, m, 0, parts);
    SameOutputs(x, l, m, 0, parts);
  }

  // ---------------------------------------------------------------- blocks move

  /** The rows of one physical block. */
  function Block(c: Cells, w: nat, b: nat): seq<Row> {
    seq(PAGE, j requires 0 <= j < PAGE => RowAt(c, w, b * PAGE + j))
  }

  /** Page `i` of one cache lies in block `t[i]`, of the other in block `u[i]`. */
  predicate BlocksMoved(w: nat, c: Cells, t: seq<nat>, d: Cells, u: seq<nat>) {
    |t| == |u| && forall i :: 0 <= i < |t| ==> Block(c, w, t[i]) == Block(d, w, u[i])
  }

  lemma MovedRow(w: nat, c: Cells, t: seq<nat>, d: Cells, u: seq<nat>, p: nat)
    requires BlocksMoved(w, c, t, d, u) && p < |t| * PAGE
    ensures Mapped(Paged(t), p) && Mapped(Paged(u), p)
    ensures RowAt(c, w, SlotOf(Paged(t), p)) == RowAt(d, w, SlotOf(Paged(u), p))
  {
    hide SlotOf, RowAt;
    PagedSlot(t, p);
    PagedSlot(u, p);
    var i, j := p / PAGE, p % PAGE;
    assert Block(c, w, t[i])[j] == RowAt(c, w, t[i] * PAGE + j);
    assert Block(d, w, u[i])[j] == RowAt(d, w, u[i] * PAGE + j);
  }

  /** Relocating physical blocks and rewriting the table to match does not change any output. */
  lemma RelocationKeepsOutput(x: Setup, l: Layer, m: Layer, t: seq<nat>, u: seq<nat>, pos: nat, q: seq<F>)
    requires x.g.Valid() && |q| == x.g.QWidth() && pos < |t| * PAGE
    requires l.kRule == l.vRule == Paged(t) && m.kRule == m.vRule == Paged(u)
    requires BlocksMoved(x.g.KvWidth(), l.k, t, m.k, u) && BlocksMoved(x.g.KvWidth(), l.v, t, m.v, u)
    ensures MappedTo(l, pos + 1) && MappedTo(m, pos + 1)
    ensures Attend(x, l, pos, q) == Attend(x, m, pos, q)
  {
    hide Attend, BlocksMoved, Agrees;
    MovedAgree(x, l, m, t, u, 0, pos + 1);
    SameAttend(x, l, m, 0, pos, pos + 1, q);
  }

  lemma MovedAgree(x: Setup, l: Layer, m: Layer, t: seq<nat>, u: seq<nat>, a: nat, b: nat)
    requires l.kRule == l.vRule == Paged(t) && m.kRule == m.vRule == Paged(u) && b <= |t| * PAGE
    requires BlocksMoved(x.g.KvWidth(), l.k, t, m.k, u) && BlocksMoved(x.g.KvWidth(), l.v, t, m.v, u)
    ensures MappedTo(l, b) && MappedTo(m, b) && Agrees(x, l, m, a, b)
  {
    hide RowAt, SlotOf, BlocksMoved;
    var w := x.g.KvWidth();
    forall p: nat | p < b
      ensures Mapped(Paged(t), p) && Mapped(Paged(u), p)
      ensures RowAt(l.k, w, SlotOf(Paged(t), p)) == RowAt(m.k, w, SlotOf(Paged(u), p))
      ensures RowAt(l.v, w, SlotOf(Paged(t), p)) == RowAt(m.v, w, SlotOf(Paged(u), p))
    {
      MovedRow(w, l.k, t, m.k, u, p);
      MovedRow(w, l.v, t, m.v, u, p);
    }
  }

  /** Nor any output of a prompt that goes on after the move, whatever it stores on the way. */
  lemma RelocationKeepsPrompts(x: Setup, l: Layer, m: Layer, t: seq<nat>, u: seq<nat>, start: nat, parts: seq<seq<Token>>)
    requires Fits(x, Flatten(parts)) && start + |Flatten(parts)| <= |t| * PAGE
    requires l.kRule == l.vRule == Paged(t) && m.kRule == m.vRule == Paged(u) && Injective(t) && Injective(u)
    requires BlocksMoved(x.g.KvWidth(), l.k, t, m.k, u) && BlocksMoved(x.g.KvWidth(), l.v, t, m.v, u)
    ensures MappedTo(l, start + |Flatten(parts)|) && MappedTo(m, start + |Flatten(parts)|)
    ensures Outputs(x, l, start, parts) == Outputs(x, m, start, parts)
  {
    SameTables(x.g.KvWidth(), l.k, t, m.k, u);
    hide BlocksMoved, Agrees, Injective;
    MovedAgree(x, l, m, t, u, 0, start + |Flatten(parts)|);
    MovedAgree(x, l, m, t, u, Lo(start, x.window), start);
    PagedRoomy(x, l, start, parts);
    PagedRoomy(x, m, start, parts);
    SameOutputs(x, l, m, start, parts);
  }

  lemma SameTables(w: nat, c: Cells, t: seq<nat>, d: Cells, u: seq<nat>)
    requires BlocksMoved(w, c, t, d, u)
    ensures |t| == |u|
  {}

  // ---------------------------------------------------------------- regions

  /** A store by conversation `who`. */
  datatype Event = Event(who: nat, store: Store)

  /** Every conversation has a region of one ring, and no two regions overlap. */
  predicate RegionsDisjoint(bases: seq<nat>, ring: nat) {
    forall i, j :: 0 <= i < j < |bases| ==> bases[i] + ring <= bases[j] || bases[j] + ring <= bases[i]
  }

  predicate EventsFit(es: seq<Event>, w: nat, n: nat) {
    forall e :: e in es ==> e.who < n && |e.store.row| == w
  }

  /** The region is switched to each event's conversation before its store. */
  function StoreEvents(c: Cells, w: nat, ring: nat, bases: seq<nat>, es: seq<Event>): Cells
    requires EventsFit(es, w, |bases|)
  {
    if es == [] then c
    else
      var last := es[|es| - 1];
      StoreRow(StoreEvents(c, w, ring, bases, es[..|es| - 1]), w, SlotOf(Ring(ring, bases[last.who]), last.store.pos), last.store.row)
  }

  function Own(es: seq<Event>, who: nat): seq<Store> {
    if es == [] then []
    else
      var rest := Own(es[..|es| - 1], who);
      if es[|es| - 1].who == who then rest + [es[|es| - 1].store] else rest
  }

  lemma {:induction false} OwnStorable(es: seq<Event>, who: nat, w: nat, n: nat, rule: Rule)
    requires EventsFit(es, w, n) && rule.Ring?
    ensures Storable(rule, w, Own(es, who))
  {
    if es != [] {
      OwnStorable(es[..|es| - 1], who, w, n, rule);
      assert es[|es| - 1] in es;
    }
  }

  lemma InRegion(k: nat, base: nat, pos: nat)
    ensures base <= SlotOf(Ring(Pow2(k), base), pos) < base + Pow2(k)
  {
    RingSlot(k, base, pos);
  }

  /** Whatever the other conversations stored in between, a region holds what its owner alone would have stored. */
  lemma {:induction false} RegionsIsolated(c: Cells, w: nat, k: nat, bases: seq<nat>, es: seq<Event>, who: nat, slot: nat)
    requires EventsFit(es, w, |bases|) && who < |bases| && RegionsDisjoint(bases, Pow2(k))
    requires bases[who] <= slot < bases[who] + Pow2(k)
    ensures Storable(Ring(Pow2(k), bases[who]), w, Own(es, who))
    ensures RowAt(StoreEvents(c, w, Pow2(k), bases, es), w, slot)
      == RowAt(StoreAll(c, w, Ring(Pow2(k), bases[who]), Own(es, who)), w, slot)
  {
    hide RowAt, SlotOf, StoreRow, Pow2;
    var rule := Ring(Pow2(k), bases[who]);
    OwnStorable(es, who, w, |bases|, rule);
    if es != [] {
      var last, prefix := es[|es| - 1], es[..|es| - 1];
      assert last in es;
      var at := SlotOf(Ring(Pow2(k), bases[last.who]), last.store.pos);
      OwnStorable(prefix, who, w, |bases|, rule);
      RegionsIsolated(c, w, k, bases, prefix, who, slot);
      InRegion(k, bases[last.who], last.store.pos);
      StoredRow(StoreEvents(c, w, Pow2(k), bases, prefix), w, at, last.store.row, slot);
      if last.who == who {
        var own := Own(prefix, who);
        assert (own + [last.store])[..|own|] == own;
        StoredRow(StoreAll(c, w, rule, own), w, at, last.store.row, slot);
      }
    }
  }
}
