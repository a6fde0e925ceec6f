/**
 Which columns and which positions an attention output depends on: query heads in groups, each group on the
 columns of its own key-value head, over the positions of the window.
 */
module KvHeads {
  import opened Numbers
  import opened KvRule
  import opened KvRows
  import opened KvAttend
  import Half

  /** A token reads position `p` exactly when `p` is not after it and fewer than `window` before it. */
  lemma WindowHolds(p: nat, pos: nat, window: nat)
    ensures Lo(pos, window) <= p <= pos <==> p <= pos && (window == 0 || pos < p + window)
  {}

  lemma HeadInGroup(per: nat, kvHeads: nat, hd: nat, j: nat, i: nat)
    requires j < kvHeads && i < per
    ensures j * per + i < per * kvHeads && (j * per + i) / per == j && j * hd + hd <= kvHeads * hd
  {
    MulMono(j + 1, kvHeads, per);
    MulMono(j + 1, kvHeads, hd);
    Remainder(j * per + i, per, j, i);
  }

  /** Query head `i` of group `j`. */
  function HeadOf(g: Shape, j: nat, i: nat): (h: nat)
    requires g.Valid() && j < g.kvHeads && i < g.heads / g.kvHeads
    ensures h < g.heads
  {
    PerKvPositive(g);
    HeadInGroup(g.heads / g.kvHeads, g.kvHeads, g.hd, j, i);
    j * (g.heads / g.kvHeads) + i
  }

  /** Where the columns of key-value head `j` start. */
  function ColumnBase(g: Shape, j: nat): (b: nat)
    requires j < g.kvHeads
    ensures b + g.hd <= g.KvWidth()
  {
    MulMono(j + 1, g.kvHeads, g.hd);
    j * g.hd
  }

  /** Of a K or V row, query head `i` of group `j` reads the columns of key-value head `j`, widened. */
  lemma GroupReads(g: Shape, row: Row, j: nat, i: nat)
    requires g.Valid() && |row| == g.KvWidth() && j < g.kvHeads && i < g.heads / g.kvHeads
    ensures forall c :: 0 <= c < g.hd ==> KvPart(g, row, HeadOf(g, j, i))[c] == Half.ToSingle(row[ColumnBase(g, j) + c])
  {
    hide Half.ToSingle;
    PerKvPositive(g);
    HeadInGroup(g.heads / g.kvHeads, g.kvHeads, g.hd, j, i);
    assert KvBase(g, HeadOf(g, j, i)) == ColumnBase(g, j);
  }

  /** The columns of one key-value head of a row, widened. */
  function ColumnsOf(g: Shape, row: Row, j: nat): (r: seq<F>)
    requires j < g.kvHeads && |row| == g.KvWidth()
    ensures |r| == g.hd
  {
    seq<F>(g.hd, c requires 0 <= c < g.hd => Half.ToSingle(row[ColumnBase(g, j) + c]))
  }

  function Columns(g: Shape, rows: seq<Row>, j: nat): (r: seq<seq<F>>)
    requires j < g.kvHeads && forall x :: x in rows ==> |x| == g.KvWidth()
    ensures |r| == |rows| && forall x :: x in r ==> |x| == g.hd
  {
    seq(|rows|, s requires 0 <= s < |rows| => ColumnsOf(g, rows[s], j))
  }

  lemma PartIsColumns(g: Shape, row: Row, j: nat, i: nat)
    requires g.Valid() && j < g.kvHeads && i < g.heads / g.kvHeads && |row| == g.KvWidth()
    ensures KvPart(g, row, HeadOf(g, j, i)) == ColumnsOf(g, row, j)
  {
    hide Half.ToSingle, KvPart, HeadOf, ColumnBase;
    GroupReads(g, row, j, i);
  }

  lemma PartsAreColumns(g: Shape, rows: seq<Row>, j: nat, i: nat)
    requires g.Valid() && j < g.kvHeads && i < g.heads / g.kvHeads && forall x :: x in rows ==> |x| == g.KvWidth()
    ensures KvParts(g, rows, HeadOf(g, j, i)) == Columns(g, rows, j)
  {
    hide KvPart, HeadOf, ColumnsOf;
    forall s | 0 <= s < |rows| ensures KvParts(g, rows, HeadOf(g, j, i))[s] == Columns(g, rows, j)[s] {
      PartIsColumns(g, rows[s], j, i);
    }
  }

  /** The part of a query, or of an output, that is head `h`'s: from `h * hd` on. */
  function OwnPart(g: Shape, o: seq<F>, h: nat): (r: seq<F>)
    requires h < g.heads && |o| == g.QWidth()
    ensures |r| == g.hd
  {
    MulMono(h + 1, g.heads, g.hd);
    o[h * g.hd..h * g.hd + g.hd]
  }

  /** Head `h` of the heads so far stands where its part of the output is. */
  lemma {:induction false} HeadAt(a: Arith, g: Shape, q: seq<F>, ks: seq<Row>, vs: seq<Row>, h: nat, n: nat)
    requires g.Valid() && h < n <= g.heads && |q| == g.QWidth() && |ks| == |vs|
    requires forall x :: x in ks || x in vs ==> |x| == g.KvWidth()
    ensures QBase(g, h) + g.hd <= |Heads(a, g, q, ks, vs, n)|
    ensures Heads(a, g, q, ks, vs, n)[QBase(g, h)..QBase(g, h) + g.hd] ==
      Head(a, OwnPart(g, q, h), KvParts(g, ks, h), KvParts(g, vs, h))
    decreases n
  {
    hide Head, KvParts, QBase, OwnPart, Heads;
    var b, most := QBase(g, h), Heads(a, g, q, ks, vs, n - 1);
    LastHead(a, g, q, ks, vs, n);
    if h < n - 1 {
      HeadAt(a, g, q, ks, vs, h, n - 1);
      SliceOfPrefix(most, Head(a, OwnPart(g, q, n - 1), KvParts(g, ks, n - 1), KvParts(g, vs, n - 1)), b, b + g.hd);
    }
  }

  lemma SliceOfPrefix<T>(a: seq<T>, b: seq<T>, i: nat, j: nat)
    requires i <= j <= |a|
    ensures (a + b)[i..j] == a[i..j]
  {}

  lemma LastHead(a: Arith, g: Shape, q: seq<F>, ks: seq<Row>, vs: seq<Row>, n: nat)
    requires g.Valid() && 0 < n <= g.heads && |q| == g.QWidth() && |ks| == |vs|
    requires forall x :: x in ks || x in vs ==> |x| == g.KvWidth()
    ensures var head := Head(a, OwnPart(g, q, n - 1), KvParts(g, ks, n - 1), KvParts(g, vs, n - 1));
      && |Heads(a, g, q, ks, vs, n - 1)| == QBase(g, n - 1) && |head| == g.hd
      && Heads(a, g, q, ks, vs, n) == Heads(a, g, q, ks, vs, n - 1) + head
  {
    hide Head, KvParts;
  }

  lemma AttendWidth(x: Setup, l: Layer, pos: nat, q: seq<F>)
    requires x.g.Valid() && |q| == x.g.QWidth() && MappedTo(l, pos + 1)
    ensures |Attend(x, l, pos, q)| == x.g.QWidth()
  {
    hide Window, Heads, Scaled;
  }

  /** The rows of the window, as one side of the layer holds them. */
  function Read(c: Cells, rule: Rule, x: Setup, pos: nat): (rows: seq<Row>)
    requires forall p: nat :: p <= pos ==> Mapped(rule, p)
    ensures |rows| == pos + 1 - Lo(pos, x.window) && forall r :: r in rows ==> |r| == x.g.KvWidth()
  {
    Window(c, x.g.KvWidth(), rule, Lo(pos, x.window), pos)
  }

  /**
   The output of query head `i` of group `j`: scores against, and a mix of, the columns of key-value head `j` in
   the rows of the window, with that head's part of the query.
   */
  lemma OutputOfHead(x: Setup, l: Layer, pos: nat, q: seq<F>, j: nat, i: nat)
    requires x.g.Valid() && |q| == x.g.QWidth() && MappedTo(l, pos + 1) && j < x.g.kvHeads && i < x.g.heads / x.g.kvHeads
    ensures |Attend(x, l, pos, q)| == x.g.QWidth()
    ensures OwnPart(x.g, Attend(x, l, pos, q), HeadOf(x.g, j, i)) ==
      Head(x.a, OwnPart(x.g, Scaled(x.a, x.scale, q), HeadOf(x.g, j, i)),
           Columns(x.g, Read(l.k, l.kRule, x, pos), j), Columns(x.g, Read(l.v, l.vRule, x, pos), j))
  {
    hide Head, KvParts, Columns, Window, Scaled, Heads, HeadOf, Lo;
    var g := x.g;
    var ks, vs := Read(l.k, l.kRule, x, pos), Read(l.v, l.vRule, x, pos);
    AttendWidth(x, l, pos, q);
    PartsAreColumns(g, ks, j, i);
    PartsAreColumns(g, vs, j, i);
    HeadAt(x.a, g, Scaled(x.a, x.scale, q), ks, vs, HeadOf(g, j, i), g.heads);
  }

  // ---------------------------------------------------------------- nothing else is seen

  predicate SameColumn(g: Shape, c: Cells, cRule: Rule, d: Cells, dRule: Rule, p: nat, i: nat) {
    && Mapped(cRule, p) && Mapped(dRule, p)
    && Cell(c, SlotOf(cRule, p) * g.KvWidth() + i) == Cell(d, SlotOf(dRule, p) * g.KvWidth() + i)
  }

  /** Two caches hold the same in the columns of key-value head `j` at every position the token reads. */
  ghost predicate SameColumns(g: Shape, c: Cells, cRule: Rule, d: Cells, dRule: Rule, pos: nat, window: nat, j: nat) {
    forall p: nat, i: nat :: p <= pos && (window == 0 || pos < p + window) && j * g.hd <= i < j * g.hd + g.hd ==>
      SameColumn(g, c, cRule, d, dRule, p, i)
  }

  lemma RowColumnsAgree(g: Shape, c: Cells, cRule: Rule, d: Cells, dRule: Rule, pos: nat, window: nat, j: nat, p: nat)
    requires j < g.kvHeads && SameColumns(g, c, cRule, d, dRule, pos, window, j)
    requires Lo(pos, window) <= p <= pos && Mapped(cRule, p) && Mapped(dRule, p)
    ensures ColumnsOf(g, RowAt(c, g.KvWidth(), SlotOf(cRule, p)), j) == ColumnsOf(g, RowAt(d, g.KvWidth(), SlotOf(dRule, p)), j)
  {
    hide SlotOf, Half.ToSingle;
    WindowHolds(p, pos, window);
    var a, b := RowAt(c, g.KvWidth(), SlotOf(cRule, p)), RowAt(d, g.KvWidth(), SlotOf(dRule, p));
    forall i | 0 <= i < g.hd ensures ColumnsOf(g, a, j)[i] == ColumnsOf(g, b, j)[i] {
      assert SameColumn(g, c, cRule, d, dRule, p, ColumnBase(g, j) + i);
    }
  }

  lemma ColumnsAgree(x: Setup, c: Cells, cRule: Rule, d: Cells, dRule: Rule, pos: nat, j: nat)
    requires j < x.g.kvHeads && SameColumns(x.g, c, cRule, d, dRule, pos, x.window, j)
    requires forall p: nat :: p <= pos ==> Mapped(cRule, p) && Mapped(dRule, p)
    ensures Columns(x.g, Read(c, cRule, x, pos), j) == Columns(x.g, Read(d, dRule, x, pos), j)
  {
    hide SlotOf, RowAt, ColumnsOf, SameColumns;
    var lo := Lo(pos, x.window);
    var a, b := Read(c, cRule, x, pos), Read(d, dRule, x, pos);
    forall s | 0 <= s < |a| ensures ColumnsOf(x.g, a[s], j) == ColumnsOf(x.g, b[s], j) {
      RowColumnsAgree(x.g, c, cRule, d, dRule, pos, x.window, j, lo + s);
    }
  }

  lemma OwnPartAt(g: Shape, o: seq<F>, h: nat, i: nat)
    requires h < g.heads && |o| == g.QWidth() && i < g.hd
    ensures OwnPart(g, o, h)[i] == o[QBase(g, h) + i]
  {
    hide QBase;
  }

  lemma ScaledAt(x: Setup, q: seq<F>, i: nat)
    requires i < |q|
    ensures Scaled(x.a, x.scale, q)[i] == if x.scale == ONE then q[i] else x.a.mul(q[i], x.scale)
  {}

  lemma ScaledPart(x: Setup, q: seq<F>, r: seq<F>, h: nat)
    requires h < x.g.heads && |q| == |r| == x.g.QWidth() && OwnPart(x.g, q, h) == OwnPart(x.g, r, h)
    ensures OwnPart(x.g, Scaled(x.a, x.scale, q), h) == OwnPart(x.g, Scaled(x.a, x.scale, r), h)
  {
    hide OwnPart, Scaled;
    var sq, sr := Scaled(x.a, x.scale, q), Scaled(x.a, x.scale, r);
    forall i | 0 <= i < x.g.hd ensures OwnPart(x.g, sq, h)[i] == OwnPart(x.g, sr, h)[i] {
      OwnPartAt(x.g, q, h, i);
      OwnPartAt(x.g, r, h, i);
      OwnPartAt(x.g, sq, h, i);
      OwnPartAt(x.g, sr, h, i);
      ScaledAt(x, q, QBase(x.g, h) + i);
      ScaledAt(x, r, QBase(x.g, h) + i);
    }
  }

  /**
   A query head sees nothing else: caches that agree on the columns of its key-value head at the positions of the
   window, and queries that agree on its own part, give it the same output, whatever the rest holds.
   */
  lemma GroupSeesItsColumns(x: Setup, l: Layer, m: Layer, pos: nat, q: seq<F>, r: seq<F>, j: nat, i: nat)
    requires x.g.Valid() && |q| == |r| == x.g.QWidth() && MappedTo(l, pos + 1) && MappedTo(m, pos + 1)
    requires j < x.g.kvHeads && i < x.g.heads / x.g.kvHeads
    requires SameColumns(x.g, l.k, l.kRule, m.k, m.kRule, pos, x.window, j)
    requires SameColumns(x.g, l.v, l.vRule, m.v, m.vRule, pos, x.window, j)
    requires OwnPart(x.g, q, HeadOf(x.g, j, i)) == OwnPart(x.g, r, HeadOf(x.g, j, i))
    ensures |Attend(x, l, pos, q)| == |Attend(x, m, pos, r)| == x.g.QWidth()
    ensures OwnPart(x.g, Attend(x, l, pos, q), HeadOf(x.g, j, i)) == OwnPart(x.g, Attend(x, m, pos, r), HeadOf(x.g, j, i))
  {
    hide Head, Columns, Attend, SameColumns, OwnPart, HeadOf, Read, Mapped;
    OutputOfHead(x, l, pos, q, j, i);
    OutputOfHead(x, m, pos, r, j, i);
    ColumnsAgree(x, l.k, l.kRule, m.k, m.kRule, pos, j);
    ColumnsAgree(x, l.v, l.vRule, m.v, m.vRule, pos, j);
    ScaledPart(x, q, r, HeadOf(x.g, j, i));
  }
}
