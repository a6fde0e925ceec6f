/**
 The host backend's process-wide state and the operations that change it: storing K and V rows,
 attending, reading and writing raw cache bytes, and switching tables and regions.
 */
module KvHost {
  import opened Numbers
  import opened KvRule
  import opened KvRows
  import opened KvAttend
  import opened Half

  type Byte = n: nat | n < 256

  const BUF_Q := 0
  const BUF_ATTN := 1

  // ---------------------------------------------------------------- what the operations compute

  function Narrowed(buf: seq<F>, from: nat, w: nat): (r: Row)
    requires from + w <= |buf|
    ensures |r| == w
  {
    seq<Bits16>(w, i requires 0 <= i < w => FromSingle(buf[from + i]))
  }

  /** Row `t` of a buffer of `w`-wide rows, narrowed. */
  function NarrowRow(buf: seq<F>, w: nat, t: nat): (r: Row)
    requires (t + 1) * w <= |buf|
    ensures |r| == w
  {
    assert (t + 1) * w == t * w + w;
    Narrowed(buf, t * w, w)
  }

  lemma RowFits(w: nat, t: nat, n: nat)
    requires t < n
    ensures (t + 1) * w <= n * w && (t + 1) * w == t * w + w
  {
    MulMono(t + 1, n, w);
  }

  function NarrowRows(buf: seq<F>, w: nat, n: nat): (r: seq<Row>)
    requires n * w <= |buf|
    ensures |r| == n && forall x :: x in r ==> |x| == w
  {
    if n == 0 then []
    else
      RowFits(w, n - 1, n);
      NarrowRows(buf, w, n - 1) + [NarrowRow(buf, w, n - 1)]
  }

  lemma {:induction false} NarrowPrefix(buf: seq<F>, w: nat, t: nat, n: nat)
    requires t <= n && n * w <= |buf|
    ensures t * w <= |buf| && NarrowRows(buf, w, n)[..t] == NarrowRows(buf, w, t)
    ensures t < n ==> (t + 1) * w <= |buf| && NarrowRows(buf, w, n)[t] == NarrowRow(buf, w, t)
    decreases n - t
  {
    MulMono(t, n, w);
    if t < n {
      RowFits(w, t, n);
      NarrowPrefix(buf, w, t + 1, n);
      assert NarrowRows(buf, w, t + 1)[..t] == NarrowRows(buf, w, t);
    }
  }

  function LowByte(c: Bits16): Byte { c % 256 }

  function HighByte(c: Bits16): Byte { c / 256 }

  function Joined(low: Byte, high: Byte): Bits16 { low + 256 * high }

  /** The little-endian bytes of a run of cells. */
  function Bytes(cells: seq<Bits16>): (b: seq<Byte>)
    ensures |b| == 2 * |cells|
  {
    seq<Byte>(2 * |cells|, i requires 0 <= i < 2 * |cells| =>
      if i % 2 == 0 then LowByte(cells[i / 2]) else HighByte(cells[i / 2]))
  }

  lemma BytesAt(cells: seq<Bits16>, i: nat)
    requires i < |cells|
    ensures Bytes(cells)[2 * i] == LowByte(cells[i]) && Bytes(cells)[2 * i + 1] == HighByte(cells[i])
  {
    hide LowByte, HighByte;
    assert 2 * i / 2 == i && 2 * i % 2 == 0 && (2 * i + 1) / 2 == i && (2 * i + 1) % 2 == 1;
  }

  /** The cells that `chunks_exact(2)` decodes; an odd last byte is ignored. */
  function Unpack(b: seq<Byte>): (cells: seq<Bits16>)
    ensures |cells| == |b| / 2
  {
    seq<Bits16>(|b| / 2, i requires 0 <= i < |b| / 2 => Joined(b[2 * i], b[2 * i + 1]))
  }

  lemma UnpackBytes(cells: seq<Bits16>)
    ensures Unpack(Bytes(cells)) == cells
  {
    var b := Bytes(cells);
    forall i | 0 <= i < |cells| ensures Unpack(b)[i] == cells[i] {
      BytesAt(cells, i);
    }
  }

  /** Cells from `lo` on replaced, growing the vector when it is too short. */
  function Overwrite(c: Cells, lo: nat, cells: seq<Bits16>): Cells {
    var g := Grown(c, lo + |cells|);
    g[..lo] + cells + g[lo + |cells|..]
  }

  lemma OverwrittenCell(c: Cells, lo: nat, cells: seq<Bits16>, j: nat)
    ensures Cell(Overwrite(c, lo, cells), j) == if lo <= j < lo + |cells| then cells[j - lo] else Cell(c, j)
  {}

  // ---------------------------------------------------------------- the state

  class Ctx {
    var bufs: map<nat, seq<F>>
    var kvK: seq<Cells>
    var kvV: seq<Cells>
    var kvPt: seq<seq<nat>>
    var regK: seq<nat>
    var regV: seq<nat>

    constructor ()
      ensures bufs == map[] && kvK == [] && kvV == [] && kvPt == [] && regK == [] && regV == []
    {
      bufs, kvK, kvV, kvPt, regK, regV := map[], [], [], [], [], [];
    }

    function Buf(id: nat): seq<F>
      reads this`bufs
    {
      if id in bufs then bufs[id] else []
    }

    function Region(layer: nat, isV: bool): nat
      reads this`regK, this`regV
    {
      var reg := if isV then regV else regK;
      if layer < |reg| then reg[layer] else 0
    }

    /** The addressing rule of one side of a layer; `row` is its bytes per position. */
    function RuleOf(layer: nat, ring: nat, isV: bool, row: nat): Rule
      reads this`kvPt, this`regK, this`regV
    {
      if ring > 0 then Ring(ring, Region(layer, isV) / (if row > 1 then row else 1))
      else if layer < |kvPt| && kvPt[layer] != [] then Paged(kvPt[layer])
      else Flat
    }

    /** Both sides of a layer, as attention over rows of `width` sees them. */
    function LayerOf(layer: nat, ring: nat, width: nat): Layer
      reads this`kvK, this`kvV, this`kvPt, this`regK, this`regV
      requires layer < |kvK| && layer < |kvV|
    {
      Layer(kvK[layer], kvV[layer], RuleOf(layer, ring, false, 2 * width), RuleOf(layer, ring, true, 2 * width))
    }

    method SetPageTable(layer: nat, entries: seq<nat>)
      modifies this`kvPt
      ensures |kvPt| == if |old(kvPt)| <= layer then layer + 1 else |old(kvPt)|
      ensures forall i :: 0 <= i < |kvPt| ==>
        kvPt[i] == if i == layer then entries else if i < |old(kvPt)| then old(kvPt)[i] else []
    {
      if |kvPt| <= layer {
        kvPt := kvPt + seq(layer + 1 - |kvPt|, _ => []);
      }
      kvPt := kvPt[layer := entries];
    }

    method SetRegion(layer: nat, kOff: nat, vOff: nat)
      requires |regK| == |regV|
      modifies this`regK, this`regV
      ensures |regK| == |regV|
      ensures forall i: nat :: Region(i, false) == if i == layer then kOff else old(Region(i, false))
      ensures forall i: nat :: Region(i, true) == if i == layer then vOff else old(Region(i, true))
    {
      if |regK| < layer + 1 {
        var n := layer + 1 - |regK|;
        regK, regV := regK + seq(n, _ => 0), regV + seq(n, _ => 0);
      }
      regK, regV := regK[layer := kOff], regV[layer := vOff];
    }

    /** The inner copy loop, cell by cell. */
    method CopyCells(g: Cells, lo: nat, buf: seq<F>, from: nat, w: nat) returns (r: Cells)
      requires lo + w <= |g| && from + w <= |buf|
      ensures r == g[..lo] + Narrowed(buf, from, w) + g[lo + w..]
    {
      hide FromSingle;
      r := g;
      ghost var row := Narrowed(buf, from, w);
      var i := 0;
      while i < w
        invariant i <= w && |r| == |g|
        invariant forall j :: 0 <= j < |r| ==> r[j] == if lo <= j < lo + i then row[j - lo] else g[j]
      {
        r := r[lo + i := FromSingle(buf[from + i])];
        i := i + 1;
      }
    }

    /** Copies one row into its slot, growing the cache when the slot lies past its end. */
    method CopyRow(cells: Cells, w: nat, slot: nat, buf: seq<F>, t: nat) returns (r: Cells)
      requires (t + 1) * w <= |buf|
      ensures r == StoreRow(cells, w, slot, NarrowRow(buf, w, t))
    {
      hide Narrowed;
      RowFits(w, t, t + 1);
      RowFits(w, slot, slot + 1);
      r := cells;
      if |r| < (slot + 1) * w {
        r := r + seq((slot + 1) * w - |r|, _ => 0);
      }
      r := CopyCells(r, slot * w, buf, t * w, w);
    }

    /** The loop over a batch's tokens. */
    method StoreRows(c: Cells, w: nat, rule: Rule, start: nat, buf: seq<F>, n: nat) returns (r: Cells)
      requires n * w <= |buf| && forall p: nat :: p < start + n ==> Mapped(rule, p)
      ensures Storable(rule, w, Batch(start, NarrowRows(buf, w, n)))
      ensures r == StoreAll(c, w, rule, Batch(start, NarrowRows(buf, w, n)))
    {
      hide StoreAll, SlotOf, StoreRow, NarrowRows, Batch, Storable, NarrowRow;
      EmptyBatch(c, w, rule, start);
      NoRow(buf, w);
      r := c;
      var t := 0;
      while t < n
        invariant t <= n && t * w <= |buf|
        invariant Storable(rule, w, Batch(start, NarrowRows(buf, w, t)))
        invariant r == StoreAll(c, w, rule, Batch(start, NarrowRows(buf, w, t)))
      {
        RowFits(w, t, n);
        NextStore(c, w, rule, start, buf, t);
        r := CopyRow(r, w, SlotOf(rule, start + t), buf, t);
        t := t + 1;
      }
    }

    /** Stores `n` rows of a buffer at consecutive positions on one side of a layer. */
    method KvStore(src: nat, layer: nat, width: nat, start: nat, n: nat, isV: bool, ring: nat)
      requires layer < |kvK| && layer < |kvV| && n * width <= |Buf(src)|
      requires forall p: nat :: p < start + n ==> Mapped(RuleOf(layer, ring, isV, 2 * width), p)
      modifies this`kvK, this`kvV
      ensures
        var rule := RuleOf(layer, ring, isV, 2 * width);
        var es := Batch(start, NarrowRows(Buf(src), width, n));
        && Storable(rule, width, es)
        && (if isV then kvK == old(kvK) && kvV == old(kvV)[layer := StoreAll(old(kvV)[layer], width, rule, es)]
            else kvV == old(kvV) && kvK == old(kvK)[layer := StoreAll(old(kvK)[layer], width, rule, es)])
    {
      hide StoreAll, NarrowRows, Batch, Storable;
      var rule := RuleOf(layer, ring, isV, 2 * width);
      var cells := StoreRows(if isV then kvV[layer] else kvK[layer], width, rule, start, Buf(src), n);
      if isV {
        kvV := kvV[layer := cells];
      } else {
        kvK := kvK[layer := cells];
      }
    }

    // -------------------------------------------------------------- activation buffers

    /** Copies values into a buffer, growing it with zeros when they reach past its end. */
    method Write(id: nat, off: nat, src: seq<F>)
      modifies this`bufs
      ensures bufs.Keys == old(bufs).Keys + {id} && forall i :: i in bufs && i != id ==> bufs[i] == old(bufs)[i]
      ensures |Buf(id)| == if |old(Buf(id))| < off + |src| then off + |src| else |old(Buf(id))|
      ensures Buf(id)[off..off + |src|] == src
      ensures forall i :: 0 <= i < |Buf(id)| && !(off <= i < off + |src|) ==>
        Buf(id)[i] == if i < |old(Buf(id))| then old(Buf(id))[i] else 0
    {
      var b := Buf(id);
      if |b| < off + |src| {
        b := b + seq<F>(off + |src| - |b|, _ => 0);
      }
      bufs := bufs[id := b[..off] + src + b[off + |src|..]];
    }

    /** Copies a range of a buffer out. */
    method Read(id: nat, off: nat, n: nat) returns (dst: seq<F>)
      requires off + n <= |Buf(id)|
      ensures dst == Buf(id)[off..off + n]
    {
      dst := Buf(id)[off..off + n];
    }

    // -------------------------------------------------------------- raw bytes

    /** The first cell that a byte offset into the live region addresses. */
    function FirstCell(layer: nat, isV: bool, off: nat): nat
      reads this`regK, this`regV
    {
      (Region(layer, isV) + off) / 2
    }

    /** Copies `n` bytes of the live region out; an odd last byte of the destination keeps its value. */
    method ReadKvBytes(layer: nat, isV: bool, off: nat, dst: seq<Byte>) returns (r: seq<Byte>)
      requires layer < |kvK| && layer < |kvV|
      requires FirstCell(layer, isV, off) + |dst| / 2 <= |if isV then kvV[layer] else kvK[layer]|
      ensures
        var side := if isV then kvV[layer] else kvK[layer];
        var lo := FirstCell(layer, isV, off);
        r == Bytes(side[lo..lo + |dst| / 2]) + dst[|dst| / 2 * 2..]
    {
      var side := if isV then kvV[layer] else kvK[layer];
      var lo := FirstCell(layer, isV, off);
      r := CopyBytes(side, lo, dst);
    }

    /** The encoding loop. */
    method CopyBytes(side: Cells, lo: nat, dst: seq<Byte>) returns (r: seq<Byte>)
      requires lo + |dst| / 2 <= |side|
      ensures r == Bytes(side[lo..lo + |dst| / 2]) + dst[|dst| / 2 * 2..]
    {
      hide Bytes, LowByte, HighByte;
      ghost var b := Bytes(side[lo..lo + |dst| / 2]);
      r := dst;
      var i := 0;
      while i < |dst| / 2
        invariant i <= |dst| / 2 && |r| == |dst|
        invariant forall j :: 0 <= j < |dst| ==> r[j] == if j < 2 * i then b[j] else dst[j]
      {
        BytesAt(side[lo..lo + |dst| / 2], i);
        r := r[2 * i := LowByte(side[lo + i])][2 * i + 1 := HighByte(side[lo + i])];
        i := i + 1;
      }
    }

    /** Copies bytes into the live region, growing the cache when they reach past its end. */
    method WriteKvBytes(layer: nat, isV: bool, off: nat, src: seq<Byte>)
      requires layer < |kvK| && layer < |kvV|
      modifies this`kvK, this`kvV
      ensures
        var lo := FirstCell(layer, isV, off);
        if isV then kvK == old(kvK) && kvV == old(kvV)[layer := Overwrite(old(kvV)[layer], lo, Unpack(src))]
        else kvV == old(kvV) && kvK == old(kvK)[layer := Overwrite(old(kvK)[layer], lo, Unpack(src))]
    {
      var side := if isV then kvV[layer] else kvK[layer];
      var lo := FirstCell(layer, isV, off);
      if |side| < lo + |src| / 2 {
        side := side + seq(lo + |src| / 2 - |side|, _ => 0);
      }
      side := PutCells(side, lo, src);
      if isV {
        kvV := kvV[layer := side];
      } else {
        kvK := kvK[layer := side];
      }
    }

    /** The decoding loop. */
    method PutCells(g: Cells, lo: nat, src: seq<Byte>) returns (side: Cells)
      requires lo + |src| / 2 <= |g|
      ensures side == g[..lo] + Unpack(src) + g[lo + |src| / 2..]
    {
      side := g;
      ghost var cells := Unpack(src);
      var i := 0;
      while i < |src| / 2
        invariant i <= |src| / 2 && |side| == |g|
        invariant forall j :: 0 <= j < |side| ==> side[j] == if lo <= j < lo + i then cells[j - lo] else g[j]
      {
        side := side[lo + i := Joined(src[2 * i], src[2 * i + 1])];
        i := i + 1;
      }
    }

    // -------------------------------------------------------------- attention

    /** The slot of a position: ring, page table, or the position itself. */
    method Slot(layer: nat, pos: nat, ring: nat, isV: bool, row: nat) returns (slot: nat)
      requires Mapped(RuleOf(layer, ring, isV, row), pos)
      ensures slot == SlotOf(RuleOf(layer, ring, isV, row), pos)
    {
      hide And;
      if ring > 0 {
        var reg := if isV then regV else regK;
        var base := (if layer < |reg| then reg[layer] else 0) / if row >= 1 then row else 1;
        return base + And(pos, ring - 1);
      }
      if layer < |kvPt| && kvPt[layer] != [] {
        return kvPt[layer][pos / 64] * 64 + And(pos, 63);
      }
      return pos;
    }

    /** One dot product, summed from the left over the widened key. */
    method KeyScore(a: Arith, q: seq<F>, c: Cells, at: nat) returns (score: F)
      requires at + |q| <= |c|
      ensures score == Dot(a, q, Widen(c[at..at + |q|]), |q|)
    {
      hide ToSingle;
      ghost var k := Widen(c[at..at + |q|]);
      score := a.sumStart;
      var i := 0;
      while i < |q|
        invariant i <= |q| == |k| && score == Dot(a, q, k, i)
      {
        score := a.add(score, a.mul(q[i], ToSingle(c[at + i])));
        i := i + 1;
      }
    }

    /** `ops::softmax`: the largest, then the exponentials and their sum, then the scaling. */
    method Softened(a: Arith, xs: seq<F>) returns (ws: seq<F>)
      ensures ws == Softmax(a, xs)
    {
      var most := a.negInf;
      var i := 0;
      while i < |xs|
        invariant i <= |xs| && most == Largest(a, xs[..i])
      {
        assert xs[..i + 1][..i] == xs[..i];
        most := a.max(most, xs[i]);
        i := i + 1;
      }
      assert xs[..i] == xs;
      ghost var es := Exps(a, xs, most);
      var sum := a.zero;
      ws := xs;
      i := 0;
      while i < |ws|
        invariant i <= |ws| == |xs| == |es| && sum == Total(a, es[..i])
        invariant forall j :: 0 <= j < |ws| ==> ws[j] == if j < i then es[j] else xs[j]
      {
        assert es[..i + 1][..i] == es[..i];
        ws := ws[i := a.exp(a.sub(ws[i], most))];
        sum := a.add(sum, ws[i]);
        i := i + 1;
      }
      assert es[..i] == es;
      var inv := a.recip(sum);
      i := 0;
      while i < |ws|
        invariant i <= |ws| == |es|
        invariant forall j :: 0 <= j < |ws| ==> ws[j] == if j < i then a.mul(es[j], inv) else es[j]
      {
        ws := ws[i := a.mul(ws[i], inv)];
        i := i + 1;
      }
    }

    /** The dot products of one query head with the keys at `lo` on; `ks` are those keys. */
    method HeadScores(a: Arith, g: Shape, h: nat, q: seq<F>, c: Cells, rule: Rule, lo: nat, n: nat, ghost ks: seq<seq<F>>)
      returns (sc: seq<F>)
      requires g.Valid() && h < g.heads && |q| == g.hd && |ks| == n && PartsAt(c, g, h, rule, lo, ks)
      ensures (forall k :: k in ks ==> |k| == g.hd) && sc == Scores(a, q, ks)
    {
      hide SlotOf, Dot, Widen, KvBase, PartsAt, PartStart;
      PartLengths(c, g, h, rule, lo, ks);
      sc := [];
      var s := 0;
      while s < n
        invariant s <= n && |sc| == s
        invariant forall i :: 0 <= i < s ==> sc[i] == Dot(a, q, ks[i], |q|)
      {
        PartAt(c, g, h, rule, lo, ks, s);
        PartStarts(g, h, rule, lo + s);
        var at := SlotOf(rule, lo + s) * (g.kvHeads * g.hd) + h / (g.heads / g.kvHeads) * g.hd;
        var score := KeyScore(a, q, c, at);
        sc := sc + [score];
        s := s + 1;
      }
    }

    /** The values at `lo` on, weighted and added up channel by channel; `vs` are those values. */
    method HeadMix(a: Arith, g: Shape, h: nat, ws: seq<F>, c: Cells, rule: Rule, lo: nat, ghost vs: seq<seq<F>>)
      returns (o: seq<F>)
      requires g.Valid() && h < g.heads && |ws| == |vs| && PartsAt(c, g, h, rule, lo, vs)
      ensures |o| == g.hd && forall v :: v in vs ==> |v| == g.hd
      ensures forall i :: 0 <= i < g.hd ==> o[i] == Mix(a, ws, vs, i, |vs|)
    {
      hide SlotOf, Widen, KvBase, PartsAt, PartStart;
      PartLengths(c, g, h, rule, lo, vs);
      o := seq(g.hd, _ => a.zero);
      var s := 0;
      while s < |ws|
        invariant s <= |ws| && |o| == g.hd
        invariant forall i :: 0 <= i < g.hd ==> o[i] == Mix(a, ws, vs, i, s)
      {
        PartAt(c, g, h, rule, lo, vs, s);
        PartStarts(g, h, rule, lo + s);
        o := AddWeighted(a, o, ws[s], c, SlotOf(rule, lo + s) * (g.kvHeads * g.hd) + h / (g.heads / g.kvHeads) * g.hd);
        s := s + 1;
      }
    }

    /** `o += weight * v`, in place. */
    method AddWeighted(a: Arith, before: seq<F>, weight: F, c: Cells, at: nat) returns (o: seq<F>)
      requires at + |before| <= |c|
      ensures |o| == |before|
      ensures forall i :: 0 <= i < |o| ==> o[i] == a.add(before[i], a.mul(weight, Widen(c[at..at + |before|])[i]))
    {
      hide ToSingle;
      o := before;
      var i := 0;
      while i < |o|
        invariant i <= |o| == |before|
        invariant forall j :: 0 <= j < |o| ==>
          o[j] == if j < i then a.add(before[j], a.mul(weight, ToSingle(c[at + j]))) else before[j]
      {
        o := o[i := a.add(o[i], a.mul(weight, ToSingle(c[at + i])))];
        i := i + 1;
      }
    }

    /** One head: scores, softmax, weighted sum. */
    method OneHead(x: Setup, l: Layer, h: nat, qh: seq<F>, lo: nat, n: nat, ghost ks: seq<seq<F>>, ghost vs: seq<seq<F>>)
      returns (o: seq<F>)
      requires x.g.Valid() && h < x.g.heads && |qh| == x.g.hd && |ks| == |vs| == n
      requires PartsAt(l.k, x.g, h, l.kRule, lo, ks) && PartsAt(l.v, x.g, h, l.vRule, lo, vs)
      ensures (forall k :: k in ks ==> |k| == x.g.hd) && (forall v :: v in vs ==> |v| == x.g.hd)
      ensures o == Head(x.a, qh, ks, vs)
    {
      hide SlotOf, Softmax, Scores, PartsAt, Mix, Head;
      var sc := HeadScores(x.a, x.g, h, qh, l.k, l.kRule, lo, n, ks);
      SoftmaxKeepsLength(x.a, sc);
      ScoresKeepLength(x.a, qh, ks);
      var ws := Softened(x.a, sc);
      o := HeadMix(x.a, x.g, h, ws, l.v, l.vRule, lo, vs);
      HeadByParts(x.a, qh, ks, vs, sc, o);
    }

    /** All heads of one token. */
    method TokenHeads(x: Setup, l: Layer, pos: nat, q: seq<F>) returns (o: seq<F>)
      requires x.g.Valid() && |q| == x.g.QWidth() && MappedTo(l, pos + 1)
      requires Reachable(l.k, x.g.KvWidth(), l.kRule, Lo(pos, x.window), pos)
      requires Reachable(l.v, x.g.KvWidth(), l.vRule, Lo(pos, x.window), pos)
      ensures
        var w := x.g.KvWidth();
        var lo := Lo(pos, x.window);
        o == Heads(x.a, x.g, q, Window(l.k, w, l.kRule, lo, pos), Window(l.v, w, l.vRule, lo, pos), x.g.heads)
    {
      hide SlotOf, KvParts, Reachable, Head, PartsAt, Window, Heads, QBase;
      var g := x.g;
      var lo := if x.window > 0 && pos + 1 > x.window then pos + 1 - x.window else 0;
      ghost var w := g.KvWidth();
      ghost var ks, vs := Window(l.k, w, l.kRule, lo, pos), Window(l.v, w, l.vRule, lo, pos);
      NoHeads(x.a, g, q, ks, vs);
      o := [];
      var h := 0;
      while h < g.heads
        invariant h <= g.heads
        invariant o == Heads(x.a, g, q, ks, vs, h)
      {
        ghost var b := QBase(g, h);
        var base := h * g.hd;
        PartsOfWindow(l.k, g, h, l.kRule, lo, pos);
        PartsOfWindow(l.v, g, h, l.vRule, lo, pos);
        NextHead(x.a, g, q, ks, vs, h);
        var oh := OneHead(x, l, h, q[base..base + g.hd], lo, pos + 1 - lo, KvParts(g, ks, h), KvParts(g, vs, h));
        o := o + oh;
        h := h + 1;
      }
    }

    /** Multiplies the first `n` elements of a buffer by `k`, in place. */
    method Scale(a: Arith, id: nat, k: F, n: nat)
      requires n <= |Buf(id)|
      modifies this`bufs
      ensures bufs.Keys == old(bufs).Keys + {id} && forall i :: i in bufs && i != id ==> bufs[i] == old(bufs)[i]
      ensures |Buf(id)| == |old(Buf(id))|
      ensures forall i :: 0 <= i < |Buf(id)| ==> Buf(id)[i] == if i < n then a.mul(old(Buf(id))[i], k) else old(Buf(id))[i]
    {
      var b := Buf(id);
      ghost var was := b;
      var i := 0;
      while i < n
        invariant i <= n <= |b| == |was|
        invariant forall j :: 0 <= j < |b| ==> b[j] == if j < i then a.mul(was[j], k) else was[j]
      {
        b := b[i := a.mul(b[i], k)];
        i := i + 1;
      }
      bufs := bufs[id := b];
    }

    /**
     Attends the last `n` positions from `start` on, reading Q and writing the attention buffer: every
     token gets `KvAttend.Attend` of its own query, whatever rule places the rows.
     */
    method Attention(x: Setup, layer: nat, start: nat, n: nat, ring: nat)
      requires x.g.Valid() && layer < |kvK| && layer < |kvV| && n * x.g.QWidth() <= |Buf(BUF_Q)|
      requires var l := LayerOf(layer, ring, x.g.KvWidth());
        MappedTo(l, start + n) && AllReachable(x, l, start, n)
      modifies this`bufs
      ensures |Buf(BUF_Q)| == |old(Buf(BUF_Q))| && forall i :: 0 <= i < |Buf(BUF_Q)| ==>
        Buf(BUF_Q)[i] == if i < n * x.g.QWidth() && x.scale != ONE then x.a.mul(old(Buf(BUF_Q))[i], x.scale) else old(Buf(BUF_Q))[i]
      ensures
        var out := AttendRows(x, LayerOf(layer, ring, x.g.KvWidth()), start, old(Buf(BUF_Q)), n);
        Buf(BUF_ATTN) == out + (if |old(Buf(BUF_ATTN))| < |out| then [] else old(Buf(BUF_ATTN))[|out|..])
      ensures forall i :: i != BUF_Q && i != BUF_ATTN ==> Buf(i) == old(Buf(i))
    {
      hide MappedTo, AllReachable, AttendRows;
      var l := LayerOf(layer, ring, x.g.KvWidth());
      var qw := x.g.QWidth();
      ghost var q0 := Buf(BUF_Q);
      if x.scale != ONE {
        Scale(x.a, BUF_Q, x.scale, n * qw);
      }
      var out := Tokens(x, l, start, n, Buf(BUF_Q), q0);
      PutOut(BUF_ATTN, out, x.a.zero);
    }

    /** Puts the outputs at the head of a buffer, growing it when they reach past its end. */
    method PutOut(id: nat, out: seq<F>, zero: F)
      modifies this`bufs
      ensures Buf(id) == out + (if |old(Buf(id))| < |out| then [] else old(Buf(id))[|out|..])
      ensures forall i :: i != id ==> Buf(i) == old(Buf(i))
    {
      var d := Buf(id);
      if |d| < |out| {
        d := d + seq(|out| - |d|, _ => zero);
      }
      bufs := bufs[id := out + d[|out|..]];
    }

    /** One token, from its scaled query. */
    method OneToken(x: Setup, l: Layer, pos: nat, q: seq<F>, ghost q0: seq<F>) returns (o: seq<F>)
      requires x.g.Valid() && |q| == |q0| == x.g.QWidth() && q == Scaled(x.a, x.scale, q0)
      requires MappedTo(l, pos + 1) && TokenReachable(x, l, pos)
      ensures o == Attend(x, l, pos, q0)
    {
      hide Mapped, Heads, SlotOf, Scaled, Reachable, Window;
      o := TokenHeads(x, l, pos, q);
    }

    /** The loop body: token `t` of the batch. */
    method TokenOf(x: Setup, l: Layer, start: nat, n: nat, t: nat, q: seq<F>, ghost q0: seq<F>) returns (o: seq<F>)
      requires x.g.Valid() && t < n && MappedTo(l, start + n) && AllReachable(x, l, start, n) && ScaledFrom(x, q, q0, n)
      ensures MappedTo(l, start + t + 1) && IsToken(x, l, start, t, q0, o)
    {
      hide Mapped, SlotOf, Scaled, Reachable, QRow, AllReachable, ScaledFrom, Attend, TokenReachable;
      BatchToken(x, l, start, n, t);
      QRowScaled(x, q, q0, n, t);
      o := OneToken(x, l, start + t, QRow(q, x.g.QWidth(), t), QRow(q0, x.g.QWidth(), t));
    }

    /** The loop over tokens; `q` is the buffer `q0` after scaling. */
    method Tokens(x: Setup, l: Layer, start: nat, n: nat, q: seq<F>, ghost q0: seq<F>) returns (out: seq<F>)
      requires x.g.Valid() && MappedTo(l, start + n) && AllReachable(x, l, start, n) && ScaledFrom(x, q, q0, n)
      ensures AttendedTo(x, l, start, q0, n, out)
    {
      hide Mapped, AllReachable, ScaledFrom, AttendedTo, IsToken;
      NothingAttended(x, l, start, n, q0);
      out := [];
      var t := 0;
      while t < n
        invariant t <= n && AttendedTo(x, l, start, q0, t, out)
      {
        var o := TokenOf(x, l, start, n, t, q, q0);
        NextAttended(x, l, start, q0, t, out, o);
        out := out + o;
        t := t + 1;
      }
    }
  }

  /** Every row any token of the batch reads lies inside the caches. */
  ghost predicate AllReachable(x: Setup, l: Layer, start: nat, n: nat) {
    forall p: nat :: start <= p < start + n ==> TokenReachable(x, l, p)
  }

  ghost predicate TokenReachable(x: Setup, l: Layer, pos: nat) {
    && Reachable(l.k, x.g.KvWidth(), l.kRule, Lo(pos, x.window), pos)
    && Reachable(l.v, x.g.KvWidth(), l.vRule, Lo(pos, x.window), pos)
  }

  /** `q` is `q0` with the queries of `n` tokens scaled. */
  predicate ScaledFrom(x: Setup, q: seq<F>, q0: seq<F>, n: nat) {
    && n * x.g.QWidth() <= |q| == |q0|
    && forall i :: 0 <= i < n * x.g.QWidth() ==> q[i] == if x.scale != ONE then x.a.mul(q0[i], x.scale) else q0[i]
  }

  function QRow(q: seq<F>, qw: nat, t: nat): (r: seq<F>)
    requires (t + 1) * qw <= |q|
    ensures |r| == qw
  {
    assert (t + 1) * qw == t * qw + qw;
    q[t * qw..t * qw + qw]
  }

  lemma BatchToken(x: Setup, l: Layer, start: nat, n: nat, t: nat)
    requires t < n && MappedTo(l, start + n) && AllReachable(x, l, start, n)
    ensures MappedTo(l, start + t) && MappedTo(l, start + t + 1) && TokenReachable(x, l, start + t)
  {}

  lemma QRowScaled(x: Setup, q: seq<F>, q0: seq<F>, n: nat, t: nat)
    requires t < n && ScaledFrom(x, q, q0, n)
    ensures (t + 1) * x.g.QWidth() <= |q| == |q0| && QRow(q, x.g.QWidth(), t) == Scaled(x.a, x.scale, QRow(q0, x.g.QWidth(), t))
  {
    RowFits(x.g.QWidth(), t, n);
  }

  /** `out` is the output of the first `t` tokens. */
  ghost predicate AttendedTo(x: Setup, l: Layer, start: nat, q: seq<F>, t: nat, out: seq<F>) {
    x.g.Valid() && t * x.g.QWidth() <= |q| && MappedTo(l, start + t) && out == AttendRows(x, l, start, q, t)
  }

  ghost predicate IsToken(x: Setup, l: Layer, start: nat, t: nat, q: seq<F>, o: seq<F>) {
    && x.g.Valid() && (t + 1) * x.g.QWidth() <= |q| && MappedTo(l, start + t + 1)
    && o == Attend(x, l, start + t, QRow(q, x.g.QWidth(), t))
  }

  lemma NothingAttended(x: Setup, l: Layer, start: nat, n: nat, q: seq<F>)
    requires x.g.Valid() && MappedTo(l, start + n)
    ensures AttendedTo(x, l, start, q, 0, [])
  {}

  lemma NextAttended(x: Setup, l: Layer, start: nat, q: seq<F>, t: nat, out: seq<F>, o: seq<F>)
    requires AttendedTo(x, l, start, q, t, out)
    requires IsToken(x, l, start, t, q, o)
    ensures AttendedTo(x, l, start, q, t + 1, out + o)
  {
    hide Attend, QRow, Mapped;
    RowFits(x.g.QWidth(), t, t + 1);
  }

  /** The outputs of the first `n` tokens, one after the other. */
  function AttendRows(x: Setup, l: Layer, start: nat, q: seq<F>, n: nat): seq<F>
    requires x.g.Valid() && n * x.g.QWidth() <= |q| && MappedTo(l, start + n)
  {
    if n == 0 then []
    else
      RowFits(x.g.QWidth(), n - 1, n);
      AttendRows(x, l, start, q, n - 1) + Attend(x, l, start + n - 1, QRow(q, x.g.QWidth(), n - 1))
  }

  function Concat(rows: seq<seq<F>>): seq<F> {
    if rows == [] then [] else Concat(rows[..|rows| - 1]) + rows[|rows| - 1]
  }

  /** The attention buffer holds the batch's outputs in order, so what is proved of batches holds of it. */
  lemma {:induction false} RowsAreBatch(x: Setup, l: Layer, start: nat, q: seq<F>, toks: seq<Token>)
    requires Fits(x, toks) && |toks| * x.g.QWidth() <= |q| && MappedTo(l, start + |toks|)
    requires forall t: nat :: t < |toks| ==> (t + 1) * x.g.QWidth() <= |q| && toks[t].q == QRow(q, x.g.QWidth(), t)
    ensures AttendRows(x, l, start, q, |toks|) == Concat(AttendBatch(x, l, start, toks))
  {
    hide Attend, QRow, Mapped;
    var n := |toks|;
    if n > 0 {
      RowFits(x.g.QWidth(), n - 1, n);
      RowsAreBatch(x, l, start, q, toks[..n - 1]);
      assert AttendBatch(x, l, start, toks)[..n - 1] == AttendBatch(x, l, start, toks[..n - 1]);
    }
  }

  /** The rows at `lo` to `pos` lie inside the cache; the source indexes past its end otherwise. */
  ghost predicate Reachable(c: Cells, w: nat, rule: Rule, lo: nat, pos: nat) {
    forall p: nat :: p <= pos ==> Mapped(rule, p) && (lo <= p ==> (SlotOf(rule, p) + 1) * w <= |c|)
  }

  /** The source's slice of the cache is the head's part of the row. */
  lemma PartInCells(c: Cells, g: Shape, h: nat, slot: nat)
    requires g.Valid() && h < g.heads && (slot + 1) * g.KvWidth() <= |c|
    ensures slot * g.KvWidth() + KvBase(g, h) + g.hd <= |c|
    ensures var at := slot * g.KvWidth() + KvBase(g, h);
      Widen(c[at..at + g.hd]) == KvPart(g, RowAt(c, g.KvWidth(), slot), h)
  {
    var w, b := g.KvWidth(), KvBase(g, h);
    hide KvBase, ToSingle;
    RowFits(w, slot, slot + 1);
    SliceOfRow(c, w, slot, slot * w, b, g.hd);
  }

  /** Slot after slot from position `lo` on, the source's slices are the parts `ks`. */
  ghost predicate PartsAt(c: Cells, g: Shape, h: nat, rule: Rule, lo: nat, ks: seq<seq<F>>)
    requires g.Valid() && h < g.heads
  {
    forall s: nat :: s < |ks| ==> PartIs(c, g, h, rule, lo + s, ks[s])
  }

  /** The first cell of the source's slice for head `h` at position `p`. */
  function PartStart(g: Shape, h: nat, rule: Rule, p: nat): nat
    requires g.Valid() && h < g.heads && Mapped(rule, p)
  {
    RowStart(SlotOf(rule, p), g.KvWidth()) + KvBase(g, h)
  }

  lemma PartStarts(g: Shape, h: nat, rule: Rule, p: nat)
    requires g.Valid() && h < g.heads && Mapped(rule, p)
    ensures PartStart(g, h, rule, p) == SlotOf(rule, p) * (g.kvHeads * g.hd) + h / (g.heads / g.kvHeads) * g.hd
  {
    hide SlotOf;
  }

  function RowStart(slot: nat, w: nat): nat {
    slot * w
  }

  ghost predicate PartIs(c: Cells, g: Shape, h: nat, rule: Rule, p: nat, k: seq<F>)
    requires g.Valid() && h < g.heads
  {
    && Mapped(rule, p)
    && var at := PartStart(g, h, rule, p);
       at + g.hd <= |c| && k == Widen(c[at..at + g.hd])
  }

  lemma PartAt(c: Cells, g: Shape, h: nat, rule: Rule, lo: nat, ks: seq<seq<F>>, s: nat)
    requires g.Valid() && h < g.heads && s < |ks| && PartsAt(c, g, h, rule, lo, ks)
    ensures Mapped(rule, lo + s)
    ensures var at := PartStart(g, h, rule, lo + s);
      at + g.hd <= |c| && ks[s] == Widen(c[at..at + g.hd])
  {
    assert PartIs(c, g, h, rule, lo + s, ks[s]);
  }

  lemma PartLengths(c: Cells, g: Shape, h: nat, rule: Rule, lo: nat, ks: seq<seq<F>>)
    requires g.Valid() && h < g.heads && PartsAt(c, g, h, rule, lo, ks)
    ensures forall k :: k in ks ==> |k| == g.hd
  {
    hide SlotOf, KvBase;
    forall s: nat | s < |ks| ensures |ks[s]| == g.hd {
      PartAt(c, g, h, rule, lo, ks, s);
    }
  }

  lemma PartsOfWindow(c: Cells, g: Shape, h: nat, rule: Rule, lo: nat, pos: nat)
    requires g.Valid() && h < g.heads && lo <= pos + 1 && Reachable(c, g.KvWidth(), rule, lo, pos)
    requires forall p: nat :: p <= pos ==> Mapped(rule, p)
    ensures PartsAt(c, g, h, rule, lo, KvParts(g, Window(c, g.KvWidth(), rule, lo, pos), h))
  {
    hide SlotOf, RowAt, KvBase, KvPart, Widen, Reachable, PartIs;
    var rows := Window(c, g.KvWidth(), rule, lo, pos);
    forall s: nat | s < |rows| ensures PartIs(c, g, h, rule, lo + s, KvPart(g, rows[s], h)) {
      PartOfRow(c, g, h, rule, lo, pos, lo + s);
    }
  }

  lemma PartOfRow(c: Cells, g: Shape, h: nat, rule: Rule, lo: nat, pos: nat, p: nat)
    requires g.Valid() && h < g.heads && lo <= p <= pos && Reachable(c, g.KvWidth(), rule, lo, pos)
    ensures Mapped(rule, p) && PartIs(c, g, h, rule, p, KvPart(g, RowAt(c, g.KvWidth(), SlotOf(rule, p)), h))
  {
    hide SlotOf, RowAt, KvBase, KvPart, Widen;
    assert Mapped(rule, p) && (SlotOf(rule, p) + 1) * g.KvWidth() <= |c|;
    PartInCells(c, g, h, SlotOf(rule, p));
  }

  lemma ScoresKeepLength(a: Arith, q: seq<F>, ks: seq<seq<F>>)
    requires forall k :: k in ks ==> |k| == |q|
    ensures |Scores(a, q, ks)| == |ks|
  {}

  lemma SliceOfRow(c: Cells, w: nat, slot: nat, at: nat, b: nat, n: nat)
    requires at == slot * w && b + n <= w && at + w <= |c|
    ensures c[at + b..at + b + n] == RowAt(c, w, slot)[b..b + n]
  {
    forall j | b <= j < b + n ensures RowAt(c, w, slot)[j] == c[at + j] {
      assert RowAt(c, w, slot)[j] == Cell(c, slot * w + j);
    }
  }

  lemma NoHeads(a: Arith, g: Shape, q: seq<F>, ks: seq<Row>, vs: seq<Row>)
    requires g.Valid() && |q| == g.QWidth() && |ks| == |vs| && forall x :: x in ks || x in vs ==> |x| == g.KvWidth()
    ensures Heads(a, g, q, ks, vs, 0) == []
  {}

  lemma NextHead(a: Arith, g: Shape, q: seq<F>, ks: seq<Row>, vs: seq<Row>, h: nat)
    requires g.Valid() && h < g.heads && |q| == g.QWidth() && |ks| == |vs|
    requires forall x :: x in ks || x in vs ==> |x| == g.KvWidth()
    ensures QBase(g, h) + g.hd <= |q|
    ensures Heads(a, g, q, ks, vs, h + 1) == Heads(a, g, q, ks, vs, h)
      + Head(a, q[QBase(g, h)..QBase(g, h) + g.hd], KvParts(g, ks, h), KvParts(g, vs, h))
  {
    hide Head, KvParts, QBase;
  }

  lemma SoftmaxKeepsLength(a: Arith, xs: seq<F>)
    ensures |Softmax(a, xs)| == |xs|
  {}

  lemma HeadByParts(a: Arith, q: seq<F>, ks: seq<seq<F>>, vs: seq<seq<F>>, sc: seq<F>, o: seq<F>)
    requires |ks| == |vs| && (forall k :: k in ks ==> |k| == |q|) && (forall v :: v in vs ==> |v| == |q|)
    requires sc == Scores(a, q, ks) && |Softmax(a, sc)| == |vs| && |o| == |q|
    requires forall i :: 0 <= i < |q| ==> o[i] == Mix(a, Softmax(a, sc), vs, i, |vs|)
    ensures o == Head(a, q, ks, vs)
  {}

  lemma EmptyBatch(c: Cells, w: nat, rule: Rule, start: nat)
    ensures Storable(rule, w, Batch(start, [])) && StoreAll(c, w, rule, Batch(start, [])) == c
  {}

  lemma NoRow(buf: seq<F>, w: nat)
    ensures NarrowRows(buf, w, 0) == []
  {}

  lemma SnocStore(c: Cells, w: nat, rule: Rule, start: nat, rows: seq<Row>, row: Row)
    requires Storable(rule, w, Batch(start, rows)) && |row| == w && Mapped(rule, start + |rows|)
    ensures Storable(rule, w, Batch(start, rows + [row]))
    ensures StoreAll(c, w, rule, Batch(start, rows + [row]))
      == StoreRow(StoreAll(c, w, rule, Batch(start, rows)), w, SlotOf(rule, start + |rows|), row)
  {
    hide SlotOf, StoreRow, StoreAll, Storable;
    BatchAppend(start, rows, [row]);
    assert Batch(start + |rows|, [row]) == [KvRows.Store(start + |rows|, row)];
    StoreSnoc(c, w, rule, Batch(start, rows), KvRows.Store(start + |rows|, row));
  }

  lemma StoreSnoc(c: Cells, w: nat, rule: Rule, es: seq<KvRows.Store>, e: KvRows.Store)
    requires Storable(rule, w, es) && Mapped(rule, e.pos) && |e.row| == w
    ensures Storable(rule, w, es + [e])
    ensures StoreAll(c, w, rule, es + [e]) == StoreRow(StoreAll(c, w, rule, es), w, SlotOf(rule, e.pos), e.row)
  {
    hide SlotOf, StoreRow;
    assert (es + [e])[..|es|] == es;
  }

  lemma NextStore(c: Cells, w: nat, rule: Rule, start: nat, buf: seq<F>, t: nat)
    requires (t + 1) * w <= |buf| && t * w <= |buf| && Mapped(rule, start + t)
    requires Storable(rule, w, Batch(start, NarrowRows(buf, w, t)))
    ensures Storable(rule, w, Batch(start, NarrowRows(buf, w, t + 1)))
    ensures StoreAll(c, w, rule, Batch(start, NarrowRows(buf, w, t + 1)))
      == StoreRow(StoreAll(c, w, rule, Batch(start, NarrowRows(buf, w, t))), w, SlotOf(rule, start + t), NarrowRow(buf, w, t))
  {
    hide SlotOf, StoreRow, NarrowRow, StoreAll, Storable, Batch;
    SnocStore(c, w, rule, start, NarrowRows(buf, w, t), NarrowRow(buf, w, t));
  }

  // ---------------------------------------------------------------- checkpoints

  /** Cell `i` of ring slot `j` in the region at byte `reg`, through the slot rule. */
  function SlotCell(reg: nat, w: nat, j: nat, i: nat): int
    requires w > 0
  {
    (reg / (2 * w) + j) * w + i
  }

  /** The same cell through the byte view: the region's bytes are the rows in slot order. */
  function ByteCell(reg: nat, w: nat, j: nat, i: nat): int {
    (reg + 2 * (j * w + i)) / 2
  }

  /** The byte view and the slot view agree exactly when the region starts on a whole row. */
  lemma ViewsAgree(reg: nat, w: nat)
    requires w > 0
    ensures (forall j: nat, i: nat :: SlotCell(reg, w, j, i) == ByteCell(reg, w, j, i)) <==> reg / 2 % w == 0
  {
    Quotient(reg, 2);
    Quotient(reg / 2, w);
    HalveTwice(reg, w);
    var h := reg / 2;
    forall j: nat, i: nat
      ensures SlotCell(reg, w, j, i) == h / w * w + j * w + i && ByteCell(reg, w, j, i) == h + j * w + i
    {
      assert (h / w + j) * w == h / w * w + j * w;
    }
    assert h == h / w * w + h % w;
    if h % w != 0 {
      assert SlotCell(reg, w, 0, 0) != ByteCell(reg, w, 0, 0);
    }
  }

  lemma HalveTwice(n: nat, w: nat)
    requires w > 0
    ensures n / (2 * w) == n / 2 / w
  {
    var q, r := n / 2 / w, n / 2 % w;
    assert n / 2 == q * w + r;
    assert n == q * (2 * w) + (2 * r + n % 2);
    Remainder(n, 2 * w, q, 2 * r + n % 2);
  }

  /** Writing back the bytes read changes no cell. */
  lemma WriteBackIsIdentity(c: Cells, lo: nat, n: nat)
    requires lo + n <= |c|
    ensures Overwrite(c, lo, Unpack(Bytes(c[lo..lo + n]))) == c
  {
    hide Unpack, Bytes;
    UnpackBytes(c[lo..lo + n]);
  }

  /**
   A checkpoint: bytes read from one cache and written, whatever happened since, restore exactly their
   own range and disturb no other cell.
   */
  lemma RestoreFromCheckpoint(c: Cells, later: Cells, lo: nat, n: nat, j: nat)
    requires lo + n <= |c|
    ensures Cell(Overwrite(later, lo, Unpack(Bytes(c[lo..lo + n]))), j)
      == if lo <= j < lo + n then c[j] else Cell(later, j)
  {
    hide Unpack, Bytes;
    UnpackBytes(c[lo..lo + n]);
    OverwrittenCell(later, lo, c[lo..lo + n], j);
  }
}
