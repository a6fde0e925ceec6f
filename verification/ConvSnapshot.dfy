/**
 The causal convolution's history register, and the closed form that computes it for any token of a
 batch without shifting.
 */
module ConvSnapshot {
  import opened Numbers

  /** What the taps run over: a product of two chunks of the source row, or the row itself. */
  datatype Form = GatedBcx | PlainSilu {
    function Stride(w: nat): nat {
      if GatedBcx? then 3 * w else w
    }
  }

  type Row<F> = seq<F>

  // ---------------------------------------------------------------- the register

  /** One token: the oldest row leaves, the new one enters. */
  function Shift<F>(reg: seq<Row<F>>, v: Row<F>): seq<Row<F>> {
    (reg + [v])[1..]
  }

  function ShiftAll<F>(reg: seq<Row<F>>, vs: seq<Row<F>>): seq<Row<F>> {
    if vs == [] then reg else Shift(ShiftAll(reg, vs[..|vs| - 1]), vs[|vs| - 1])
  }

  /** The closed form: the rows from `n` on of the register followed by the batch's values. */
  function After<F>(reg: seq<Row<F>>, vs: seq<Row<F>>, n: nat): (r: seq<Row<F>>)
    requires n <= |vs|
    ensures |r| == |reg|
  {
    (reg + vs)[n..n + |reg|]
  }

  /** After `n` tokens the closed form is `n` shifts, whether or not `n` reaches past the history. */
  lemma {:induction false} AfterIsShifts<F>(reg: seq<Row<F>>, vs: seq<Row<F>>, n: nat)
    requires n <= |vs|
    ensures After(reg, vs, n) == ShiftAll(reg, vs[..n])
  {
    if n == 0 {
      assert (reg + vs)[..|reg|] == reg;
    } else {
      AfterIsShifts(reg, vs, n - 1);
      assert vs[..n][..n - 1] == vs[..n - 1];
      assert Shift(After(reg, vs, n - 1), vs[n - 1]) == After(reg, vs, n);
    }
  }

  /** Snapshots compose: `m` tokens and then `n` more are `m + n` tokens. */
  lemma AfterComposes<F>(reg: seq<Row<F>>, vs: seq<Row<F>>, m: nat, n: nat)
    requires m + n <= |vs|
    ensures After(After(reg, vs, m), vs[m..], n) == After(reg, vs, m + n)
  {
    assert After(reg, vs, m) + vs[m..] == (reg + vs)[m..];
  }

  // ---------------------------------------------------------------- the flat buffers

  /** Row `s` of a flat buffer of `w`-wide rows. */
  function RowOf<F>(b: seq<F>, w: nat, s: nat): (r: Row<F>)
    requires Cells(s + 1, w) <= |b|
    ensures |r| == w
  {
    RowSpan(w, s);
    b[Cells(s, w)..Cells(s, w) + w]
  }

  /** The cells of `rows` rows. */
  function Cells(rows: nat, w: nat): nat {
    rows * w
  }

  lemma RowSpan(w: nat, s: nat)
    ensures Cells(s + 1, w) == Cells(s, w) + w && Cells(0, w) == 0
  {}

  lemma CellsGrow(m: nat, n: nat, w: nat)
    requires m <= n
    ensures Cells(m, w) <= Cells(n, w)
  {
    MulMono(m, n, w);
  }

  lemma RowBound(w: nat, s: nat, n: nat)
    requires s < n
    ensures Cells(s + 1, w) <= Cells(n, w) && Cells(s, w) + w <= Cells(n, w)
  {
    CellsGrow(s + 1, n, w);
    RowSpan(w, s);
  }

  function RowsOf<F>(b: seq<F>, w: nat, n: nat): (r: seq<Row<F>>)
    requires Cells(n, w) <= |b|
    ensures |r| == n && forall x :: x in r ==> |x| == w
  {
    seq(n, s requires 0 <= s < n => RowBound(w, s, n); RowOf(b, w, s))
  }

  /** The value of token `t` in channel `ch`. */
  function ValueAt<F>(mul: (F, F) -> F, form: Form, x: seq<F>, w: nat, t: nat, ch: nat): F
    requires Cells(t + 1, form.Stride(w)) <= |x| && ch < w
  {
    RowSpan(form.Stride(w), t);
    var row := Cells(t, form.Stride(w));
    match form
    case GatedBcx => mul(x[row + ch], x[row + 2 * w + ch])
    case PlainSilu => x[row + ch]
  }

  function ValueRow<F>(mul: (F, F) -> F, form: Form, x: seq<F>, w: nat, t: nat): (r: Row<F>)
    requires Cells(t + 1, form.Stride(w)) <= |x|
    ensures |r| == w
  {
    seq(w, ch requires 0 <= ch < w => ValueAt(mul, form, x, w, t, ch))
  }

  function Values<F>(mul: (F, F) -> F, form: Form, x: seq<F>, w: nat, n: nat): (r: seq<Row<F>>)
    requires Cells(n, form.Stride(w)) <= |x|
    ensures |r| == n && forall v :: v in r ==> |v| == w
  {
    seq(n, t requires 0 <= t < n => RowBound(form.Stride(w), t, n); ValueRow(mul, form, x, w, t))
  }

  /**
   `causal_conv_snapshot`: the register as of `n` tokens into the batch, written at `snapOff`.  The source
   buffer must hold at least as many rows as the history, even when `n` is smaller.
   */
  method Snapshot<F>(mul: (F, F) -> F, zero: F, form: Form, src: seq<F>, state: seq<F>, stateOff: nat,
      snap: seq<F>, snapOff: nat, w: nat, kernel: nat, n: nat) returns (d: seq<F>)
    requires kernel > 0 && stateOff + Cells(kernel - 1, w) <= |state|
    requires Cells(if n > kernel - 1 then n else kernel - 1, form.Stride(w)) <= |src|
    ensures Cells(n, form.Stride(w)) <= |src|
    ensures |d| == if |snap| < snapOff + Cells(kernel - 1, w) then snapOff + Cells(kernel - 1, w) else |snap|
    ensures RowsOf(d[snapOff..], w, kernel - 1)
      == After(RowsOf(state[stateOff..], w, kernel - 1), Values(mul, form, src, w, n), n)
    ensures forall j: nat :: j < |d| && (j < snapOff || snapOff + Cells(kernel - 1, w) <= j) ==>
      d[j] == if j < |snap| then snap[j] else zero
  {
    hide After, Values, RowsOf, Cells;
    var hist := kernel - 1;
    CellsGrow(n, if n > hist then n else hist, form.Stride(w));
    var prev := state[stateOff..stateOff + Cells(hist, w)];
    var next := History(mul, zero, form, src, prev, w, hist, n);
    d := Placed(snap, snapOff, next, zero);
    SameRows(d[snapOff..], next, w, hist);
    SameRows(state[stateOff..], prev, w, hist);
  }

  /** The snapshot buffer, grown with zeros if it is short, with `next` copied in. */
  method Placed<F>(snap: seq<F>, snapOff: nat, next: seq<F>, zero: F) returns (d: seq<F>)
    ensures |d| == if |snap| < snapOff + |next| then snapOff + |next| else |snap|
    ensures next <= d[snapOff..]
    ensures forall j: nat :: j < |d| && (j < snapOff || snapOff + |next| <= j) ==>
      d[j] == if j < |snap| then snap[j] else zero
  {
    d := snap;
    if |d| < snapOff + |next| {
      d := d + seq(snapOff + |next| - |d|, _ => zero);
    }
    d := d[..snapOff] + next + d[snapOff + |next|..];
  }

  lemma SameRow<F>(b: seq<F>, c: seq<F>, w: nat, s: nat, n: nat)
    requires s < n && Cells(n, w) <= |c| && c <= b
    ensures Cells(s + 1, w) <= |c| && RowOf(b, w, s) == RowOf(c, w, s)
  {
    RowBound(w, s, n);
  }

  lemma SameRows<F>(b: seq<F>, c: seq<F>, w: nat, n: nat)
    requires Cells(n, w) <= |c| && c <= b
    ensures RowsOf(b, w, n) == RowsOf(c, w, n)
  {
    hide RowOf;
    forall s: nat | s < n ensures RowsOf(b, w, n)[s] == RowsOf(c, w, n)[s] {
      SameRow(b, c, w, s, n);
    }
  }

  /** The two nested loops over history rows and channels. */
  method History<F>(mul: (F, F) -> F, zero: F, form: Form, src: seq<F>, prev: seq<F>, w: nat, hist: nat, n: nat)
      returns (next: seq<F>)
    requires |prev| == Cells(hist, w) && Cells(n, form.Stride(w)) <= |src|
    ensures |next| == Cells(hist, w)
    ensures RowsOf(next, w, hist) == After(RowsOf(prev, w, hist), Values(mul, form, src, w, n), n)
  {
    hide After, Values, RowsOf, Cells;
    ghost var want := After(RowsOf(prev, w, hist), Values(mul, form, src, w, n), n);
    next := [];
    NoRows(next, w);
    var si := 0;
    while si < hist
      invariant si <= hist && |next| == Cells(si, w)
      invariant RowsOf(next, w, si) == want[..si]
    {
      var row := HistoryRow(mul, form, src, prev, w, hist, n, si);
      RowSpan(w, si);
      AppendRow(next, row, w, si);
      next := next + row;
      si := si + 1;
    }
  }

  lemma NoRows<F>(b: seq<F>, w: nat)
    ensures Cells(0, w) == 0 && RowsOf(b, w, 0) == []
  {}

  lemma AppendRow<F>(b: seq<F>, row: seq<F>, w: nat, n: nat)
    requires |b| == Cells(n, w) && |row| == w
    ensures |b + row| == Cells(n + 1, w)
    ensures RowsOf(b + row, w, n + 1) == RowsOf(b, w, n) + [row]
  {
    RowSpan(w, n);
    LastRow(b, row, w, n);
    hide RowOf;
    forall s: nat | s < n ensures RowsOf(b + row, w, n + 1)[s] == RowsOf(b, w, n)[s] {
      SameRow(b + row, b, w, s, n);
    }
  }

  lemma LastRow<F>(b: seq<F>, row: seq<F>, w: nat, n: nat)
    requires |b| == Cells(n, w) && |row| == w
    ensures Cells(n + 1, w) <= |b + row| && RowOf(b + row, w, n) == row
  {
    RowSpan(w, n);
  }

  /** One history row: the old register while it lasts, then the batch. */
  method HistoryRow<F>(mul: (F, F) -> F, form: Form, src: seq<F>, prev: seq<F>, w: nat, hist: nat, n: nat, si: nat)
      returns (row: seq<F>)
    requires si < hist && |prev| == Cells(hist, w) && Cells(n, form.Stride(w)) <= |src|
    ensures |row| == w && row == After(RowsOf(prev, w, hist), Values(mul, form, src, w, n), n)[si]
  {
    hide After, Values, RowsOf, ValueRow, ValueAt, Cells;
    ghost var reg, vs := RowsOf(prev, w, hist), Values(mul, form, src, w, n);
    AfterAt(reg, vs, n, si);
    var e := n + si;
    if e < hist {
      RowBound(w, e, hist);
      RowsAt(prev, w, hist, e);
      row := prev[Cells(e, w)..Cells(e, w) + w];
    } else {
      RowBound(form.Stride(w), e - hist, n);
      ValuesAt(mul, form, src, w, n, e - hist);
      row := BatchRow(mul, form, src, w, e - hist);
    }
  }

  lemma ValueCells(form: Form, n: nat, w: nat, t: nat, ch: nat)
    requires Cells(t + 1, form.Stride(w)) <= n && ch < w
    ensures var stride := if form.GatedBcx? then 3 * w else w;
      && t * stride + ch < n
      && (form.GatedBcx? ==> t * stride + 2 * w + ch < n)
  {
    RowSpan(form.Stride(w), t);
  }

  lemma ValueIs<F>(mul: (F, F) -> F, form: Form, x: seq<F>, w: nat, t: nat, ch: nat)
    requires Cells(t + 1, form.Stride(w)) <= |x| && ch < w
    requires form.GatedBcx? ==> t * (3 * w) + 2 * w + ch < |x|
    requires form.PlainSilu? ==> t * w + ch < |x|
    ensures ValueAt(mul, form, x, w, t, ch) ==
      if form.GatedBcx? then mul(x[t * (3 * w) + ch], x[t * (3 * w) + 2 * w + ch]) else x[t * w + ch]
  {}

  /** Of a row in three equal chunks the first is multiplied by the third; the row of the other form is taken as it is. */
  lemma RowByChunks<F>(mul: (F, F) -> F, before: seq<F>, b: seq<F>, c: seq<F>, x: seq<F>, after: seq<F>, t: nat, ch: nat)
    requires |b| == |c| == |x| && ch < |b|
    ensures |before| == t * (3 * |b|) ==>
      && Cells(t + 1, GatedBcx.Stride(|b|)) <= |before + b + c + x + after|
      && ValueRow(mul, GatedBcx, before + b + c + x + after, |b|, t)[ch] == mul(b[ch], x[ch])
    ensures |before| == t * |b| ==>
      && Cells(t + 1, PlainSilu.Stride(|b|)) <= |before + b + after|
      && ValueRow(mul, PlainSilu, before + b + after, |b|, t)[ch] == b[ch]
  {
    var w := |b|;
    RowSpan(3 * w, t);
    RowSpan(w, t);
    hide Cells;
    if |before| == t * (3 * w) {
      var s := before + b + c + x + after;
      assert s[|before| + ch] == b[ch] && s[|before| + 2 * w + ch] == x[ch];
      ValueIs(mul, GatedBcx, s, w, t, ch);
    }
    if |before| == t * w {
      var s := before + b + after;
      assert s[|before| + ch] == b[ch];
      ValueIs(mul, PlainSilu, s, w, t, ch);
    }
  }

  /** One row of the batch, channel by channel. */
  method BatchRow<F>(mul: (F, F) -> F, form: Form, src: seq<F>, w: nat, t: nat) returns (row: seq<F>)
    requires Cells(t + 1, form.Stride(w)) <= |src|
    ensures row == ValueRow(mul, form, src, w, t)
  {
    hide ValueAt;
    row := [];
    var ch := 0;
    while ch < w
      invariant ch <= w && row == ValueRow(mul, form, src, w, t)[..ch]
    {
      var stride := if form.GatedBcx? then 3 * w else w;
      ValueCells(form, |src|, w, t, ch);
      var at := t * stride;
      var v := match form
        case GatedBcx => mul(src[at + ch], src[at + 2 * w + ch])
        case PlainSilu => src[at + ch];
      assert v == ValueAt(mul, form, src, w, t, ch) by {
        ValueIs(mul, form, src, w, t, ch);
      }
      row := row + [v];
      ch := ch + 1;
    }
  }

  lemma AfterAt<F>(reg: seq<Row<F>>, vs: seq<Row<F>>, n: nat, si: nat)
    requires n <= |vs| && si < |reg|
    ensures After(reg, vs, n)[si] == if n + si < |reg| then reg[n + si] else vs[n + si - |reg|]
  {}

  lemma RowsAt<F>(b: seq<F>, w: nat, n: nat, s: nat)
    requires s < n && Cells(n, w) <= |b|
    ensures Cells(s + 1, w) <= |b| && RowsOf(b, w, n)[s] == RowOf(b, w, s)
  {
    RowBound(w, s, n);
  }

  lemma ValuesAt<F>(mul: (F, F) -> F, form: Form, x: seq<F>, w: nat, n: nat, t: nat)
    requires t < n && Cells(n, form.Stride(w)) <= |x|
    ensures Cells(t + 1, form.Stride(w)) <= |x| && Values(mul, form, x, w, n)[t] == ValueRow(mul, form, x, w, t)
  {
    RowBound(form.Stride(w), t, n);
  }
}
