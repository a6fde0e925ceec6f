/**
 When a cut in a prompt shows.  A ring keeps every cut invisible, for every arithmetic and every content,
 exactly when the batch and the window before it fit the ring together.
 */
module KvCut {
  import opened Numbers
  import opened KvRule
  import opened KvRows
  import opened KvAttend
  import Half

  /** Running these parts one after another gives what the uncut batch gives. */
  ghost predicate CutHidden(x: Setup, l: Layer, start: nat, parts: seq<seq<Token>>) {
    Fits(x, Flatten(parts)) && MappedTo(l, start + |Flatten(parts)|) ==>
      Outputs(x, l, start, parts) == AttendBatch(x, StoreBatch(x, l, start, Flatten(parts)), start, Flatten(parts))
  }

  ghost predicate NoCutShows(rule: Rule, window: nat, start: nat, n: nat) {
    forall x: Setup, l: Layer, parts: seq<seq<Token>> ::
      x.window == window && l.kRule == l.vRule == rule && |Flatten(parts)| == n ==> CutHidden(x, l, start, parts)
  }

  // ---------------------------------------------------------------- an arithmetic that shows everything

  /** Sums are "some value in the window is not zero". */
  function Any(): Arith {
    Arith((_, v) => if v != 0 then 1 else 0, (s, v) => if s != 0 || v != 0 then 1 else 0,
          (_, _) => 0, (_, _) => 0, _ => 0, _ => 0, 0, 0, 0)
  }

  function Single(window: nat): Setup {
    Setup(Any(), Shape(1, 1, 1), ONE, window)
  }

  lemma {:induction false} MixIsAny(ws: seq<F>, vs: seq<seq<F>>, n: nat)
    requires n <= |ws| && n <= |vs| && forall v :: v in vs ==> 0 < |v|
    ensures Mix(Any(), ws, vs, 0, n) != 0 <==> exists s :: 0 <= s < n && vs[s][0] != 0
  {
    if n > 0 {
      MixIsAny(ws, vs, n - 1);
    }
  }

  lemma HeadIsAny(q: seq<F>, ks: seq<seq<F>>, vs: seq<seq<F>>)
    requires |q| == 1 && |ks| == |vs| && (forall k :: k in ks ==> |k| == 1) && forall v :: v in vs ==> |v| == 1
    ensures Head(Any(), q, ks, vs) != [0] <==> exists s :: 0 <= s < |vs| && vs[s][0] != 0
  {
    hide Any, Mix;
    var ws := Softmax(Any(), Scores(Any(), q, ks));
    MixIsAny(ws, vs, |vs|);
    assert Head(Any(), q, ks, vs) == [Mix(Any(), ws, vs, 0, |vs|)];
  }

  lemma OneHeadOnly(q: seq<F>, ks: seq<Row>, vs: seq<Row>)
    requires |q| == 1 && |ks| == |vs| && forall r :: r in ks || r in vs ==> |r| == 1
    ensures var g := Shape(1, 1, 1);
      g.Valid() && g.KvWidth() == 1 && g.QWidth() == 1 &&
      Heads(Any(), g, q, ks, vs, 1) == Head(Any(), q, KvParts(g, ks, 0), KvParts(g, vs, 0))
  {
    hide Head, Any, KvParts;
    var g := Shape(1, 1, 1);
    assert Heads(Any(), g, q, ks, vs, 0) == [];
    assert q[0..1] == q;
  }

  /** The head's part of the `s`-th row of the window is not zero exactly when that position shows. */
  lemma WindowShows(c: Cells, rule: Rule, lo: nat, pos: nat, s: nat)
    requires lo <= pos + 1 && s < pos + 1 - lo && forall p: nat :: p <= pos ==> Mapped(rule, p)
    ensures KvParts(Shape(1, 1, 1), Window(c, 1, rule, lo, pos), 0)[s][0] != 0 <==> ShowsAt(c, rule, lo + s)
  {
    hide SlotOf, Half.ToSingle, RowAt;
  }

  /** The output of a token under this arithmetic: whether any value row it reads is not zero. */
  lemma AttendIsAny(window: nat, l: Layer, pos: nat)
    requires MappedTo(l, pos + 1)
    ensures var x := Single(window);
      x.g.Valid() && x.g.QWidth() == 1 && x.g.KvWidth() == 1 &&
      (Attend(x, l, pos, [0]) != [0] <==>
        exists p: nat :: Lo(pos, window) <= p <= pos && ShowsAt(l.v, l.vRule, p))
  {
    hide Heads, Head, Any, KvParts, SlotOf, RowAt, ShowsAt, Window;
    var x, lo := Single(window), Lo(pos, window);
    var ks, vs := Window(l.k, 1, l.kRule, lo, pos), Window(l.v, 1, l.vRule, lo, pos);
    var parts := KvParts(x.g, vs, 0);
    OneHeadOnly([0], ks, vs);
    HeadIsAny([0], KvParts(x.g, ks, 0), parts);
    forall s: nat | s < pos + 1 - lo ensures parts[s][0] != 0 <==> ShowsAt(l.v, l.vRule, lo + s) {
      WindowShows(l.v, l.vRule, lo, pos, s);
    }
    if s: nat :| s < pos + 1 - lo && parts[s][0] != 0 {
      assert ShowsAt(l.v, l.vRule, lo + s);
    }
    if p: nat :| lo <= p <= pos && ShowsAt(l.v, l.vRule, p) {
      var s: nat := p - lo;
      assert parts[s][0] != 0;
    }
  }

  /** The value row read for position `p` is not zero. */
  predicate ShowsAt(c: Cells, rule: Rule, p: nat)
    requires Mapped(rule, p)
  {
    Half.ToSingle(RowAt(c, 1, SlotOf(rule, p))[0]) != 0
  }

  // ---------------------------------------------------------------- a cut that shows

  /** A batch whose last token alone carries a value. */
  function Tokens(n: nat): (toks: seq<Token>)
    ensures |toks| == n
  {
    seq<Token>(n, t requires 0 <= t < n => Token([0], [0], [if t + 1 == n then 1 else 0]))
  }

  function Empty(rule: Rule): Layer {
    Layer([], [], rule, rule)
  }

  lemma TokensFit(window: nat, n: nat, t: nat)
    requires 0 < t < n
    ensures Fits(Single(window), Tokens(n)) && Flatten([Tokens(n)[..t], Tokens(n)[t..]]) == Tokens(n)
  {
    var xs, ys := Tokens(n)[..t], Tokens(n)[t..];
    assert [xs, ys][1..] == [ys] && [ys][1..] == [];
    assert Flatten([ys]) == ys + Flatten([]);
    assert xs + ys == Tokens(n);
  }

  lemma EmptyShowsNothing(rule: Rule, p: nat)
    requires Mapped(rule, p)
    ensures !ShowsAt([], rule, p)
  {
    hide SlotOf;
    var s := SlotOf(rule, p);
    assert RowAt([], 1, s)[0] == Cell([], s * 1 + 0);
    assert Half.ToSingle(0) == 0;
  }

  lemma ZeroShowsNothing(c: Cells, rule: Rule, p: nat)
    requires Mapped(rule, p) && RowAt(c, 1, SlotOf(rule, p)) == [0]
    ensures !ShowsAt(c, rule, p)
  {
    hide SlotOf, RowAt;
    assert Half.ToSingle(0) == 0;
  }

  /** Zero rows stored into an empty cache show nothing anywhere. */
  lemma {:induction false} NothingShows(rule: Rule, es: seq<Store>, p: nat)
    requires Storable(rule, 1, es) && Mapped(rule, p) && forall e :: e in es ==> e.row == [0]
    ensures !ShowsAt(StoreAll([], 1, rule, es), rule, p)
  {
    hide StoreRow, SlotOf, RowAt, Half.ToSingle;
    if es == [] {
      EmptyShowsNothing(rule, p);
    } else {
      var last, prefix := es[|es| - 1], es[..|es| - 1];
      assert last in es;
      NothingShows(rule, prefix, p);
      var c := StoreAll([], 1, rule, prefix);
      StoredRow(c, 1, SlotOf(rule, last.pos), last.row, SlotOf(rule, p));
      if SlotOf(rule, last.pos) == SlotOf(rule, p) {
        ZeroShowsNothing(StoreAll([], 1, rule, es), rule, p);
      }
    }
  }

  lemma OneShows(c: Cells, rule: Rule, p: nat)
    requires Mapped(rule, p) && RowAt(c, 1, SlotOf(rule, p)) == [1]
    ensures ShowsAt(c, rule, p)
  {
    hide SlotOf, RowAt;
    assert Half.ToSingle(1) != 0;
  }

  /** The last row stored shows at every position that shares its slot. */
  lemma LastShows(c: Cells, rule: Rule, es: seq<Store>, p: nat)
    requires Storable(rule, 1, es) && Mapped(rule, p) && es != [] && es[|es| - 1].row == [1]
    requires SlotOf(rule, es[|es| - 1].pos) == SlotOf(rule, p)
    ensures ShowsAt(StoreAll(c, 1, rule, es), rule, p)
  {
    hide StoreRow, SlotOf, RowAt, ShowsAt;
    var last, prefix := es[|es| - 1], es[..|es| - 1];
    assert last in es;
    StoredRow(StoreAll(c, 1, rule, prefix), 1, SlotOf(rule, last.pos), last.row, SlotOf(rule, p));
    OneShows(StoreAll(c, 1, rule, es), rule, p);
  }

  lemma UncutShows(window: nat, rule: Rule, start: nat, n: nat, t: nat, p: nat)
    requires rule.Ring? && 0 < n && t < n && Lo(start + t, window) <= p <= start + t
    requires SlotOf(rule, p) == SlotOf(rule, start + n - 1)
    ensures Fits(Single(window), Tokens(n)) && MappedTo(Empty(rule), start + n)
    ensures AttendBatch(Single(window), StoreBatch(Single(window), Empty(rule), start, Tokens(n)), start, Tokens(n))[t] != [0]
  {
    hide StoreAll, ShowsAt, Attend, SlotOf, Any, StoreBatch, Lo;
    var x, l := Single(window), Empty(rule);
    var m := StoreBatch(x, l, start, Tokens(n));
    LastTokenShows(window, rule, start, n, p);
    AttendIsAny(window, m, start + t);
  }

  lemma LastTokenShows(window: nat, rule: Rule, start: nat, n: nat, p: nat)
    requires rule.Ring? && 0 < n && SlotOf(rule, p) == SlotOf(rule, start + n - 1)
    ensures Fits(Single(window), Tokens(n)) && MappedTo(Empty(rule), start + n)
    ensures ShowsAt(StoreBatch(Single(window), Empty(rule), start, Tokens(n)).v, rule, p)
  {
    hide StoreAll, ShowsAt, SlotOf, Any;
    BatchStorable(rule, 1, start, VRows(Tokens(n)));
    BatchSnoc(start, VRows(Tokens(n)));
    LastShows([], rule, Batch(start, VRows(Tokens(n))), p);
  }

  lemma CutHides(window: nat, rule: Rule, start: nat, n: nat, t: nat)
    requires rule.Ring? && t + 1 < n
    ensures Fits(Single(window), Tokens(n)[..n - 1]) && MappedTo(Empty(rule), start + n)
    ensures AttendBatch(Single(window), StoreBatch(Single(window), Empty(rule), start, Tokens(n)[..n - 1]), start, Tokens(n)[..n - 1])[t] == [0]
  {
    hide StoreAll, ShowsAt, Attend, SlotOf, Any;
    var x, l, toks := Single(window), Empty(rule), Tokens(n)[..n - 1];
    var m := StoreBatch(x, l, start, toks);
    BatchStorable(rule, 1, start, VRows(toks));
    forall p: nat | p <= start + t ensures !ShowsAt(m.v, rule, p) {
      NothingShows(rule, Batch(start, VRows(toks)), p);
    }
    AttendIsAny(window, m, start + t);
  }

  /** A collision inside the batch and its window lets the cut before the last token be seen. */
  lemma CutShows(window: nat, rule: Rule, start: nat, n: nat, p: nat)
    requires rule.Ring? && n >= 2 && Lo(start, window) <= p < start + n - 1 && SlotOf(rule, p) == SlotOf(rule, start + n - 1)
    ensures !NoCutShows(rule, window, start, n)
  {
    hide StoreBatch, AttendBatch, SlotOf, Any, Fits;
    var x, l := Single(window), Empty(rule);
    var t := if p < start then 0 else p - start;
    var xs, ys := Tokens(n)[..n - 1], Tokens(n)[n - 1..];
    UncutShows(window, rule, start, n, t, p);
    CutHides(window, rule, start, n, t);
    TokensFit(window, n, n - 1);
    FlattenFits(x, [xs, ys]);
    var m := StoreBatch(x, l, start, xs);
    assert Outputs(x, l, start, [xs, ys]) == AttendBatch(x, m, start, xs) + Outputs(x, m, start + |xs|, [xs, ys][1..]);
    assert !CutHidden(x, l, start, [xs, ys]);
  }

  /** The exact condition, for a power-of-two ring and a batch that can be cut at all. */
  lemma RingHidesCuts(k: nat, base: nat, window: nat, start: nat, n: nat)
    requires n >= 2
    ensures NoCutShows(Ring(Pow2(k), base), window, start, n) <==> start + n - Lo(start, window) <= Pow2(k)
  {
    hide Outputs, AttendBatch, StoreBatch, Fits, MappedTo, Pow2, SlotOf;
    var rule := Ring(Pow2(k), base);
    RingApart(k, base, Lo(start, window), start + n);
    if start + n - Lo(start, window) <= Pow2(k) {
      forall x: Setup, l: Layer, parts: seq<seq<Token>> |
        x.window == window && l.kRule == l.vRule == rule && |Flatten(parts)| == n
        ensures CutHidden(x, l, start, parts)
      {
        if Fits(x, Flatten(parts)) && MappedTo(l, start + n) {
          SplitInvariance(x, l, start, parts);
        }
      }
    } else {
      var p := start + n - 1 - Pow2(k);
      RingCollides(k, base, p, start + n - 1);
      Remainder(Pow2(k), Pow2(k), 1, 0);
      CutShows(window, rule, start, n, p);
    }
  }
}
