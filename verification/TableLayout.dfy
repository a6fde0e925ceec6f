/**
 Tables with spanning cells, printed row by row.  A cell that spans rows is held back, column by column,
 and its text goes out in the last row it covers.
 */
module TableLayout {
  /** A source cell; `raw` is its content and its own style attribute. */
  datatype Cell = Cell(cspan: nat, rspan: nat, raw: string)

  /** One column (or run of columns) of a printed row. */
  datatype Piece = Blank | Plain(text: string) | Multirow(rows: nat, text: string) | Multicolumn(columns: nat, text: string) {
    function Width(): nat {
      if Multicolumn? then columns else 1
    }
  }

  datatype Option<T> = None | Some(value: T)

  /** A column still covered from above: rows left, rows in all, and the text if it is the cell's first column. */
  datatype Held = Held(left: int, rows: nat, text: Option<string>)

  type Pending = map<nat, Held>

  // ---------------------------------------------------------------- dressing a cell

  datatype Class = Em | Grp | Other

  /** How a row's cells are dressed.  `tex` is the cell's own formatting, for an alignment and a paragraph column. */
  datatype Style = Style(tex: (string, char, bool) -> string, cls: Class, header: bool, aligns: seq<char>) {
    /** A header row has no class. */
    function RowClass(): Class {
      if header then Other else cls
    }

    function AlignAt(col: nat): char {
      if col < |aligns| then aligns[col] else 'r'
    }
  }

  /** The cell's text in column `col`; the row's class wraps it unless it is empty. */
  function Dress(st: Style, c: Cell, col: nat): string {
    var a := st.AlignAt(col);
    var align := if a == 'l' || a == 'X' || a == 'p' then 'l' else 'r';
    var t := st.tex(c.raw, if st.header && c.cspan > 1 then 'c' else align, a == 'X' && c.cspan == 1);
    if t == "" then t
    else if st.RowClass().Em? then "\\textbf{" + t + "}"
    else if st.RowClass().Grp? then "\\textit{" + t + "}"
    else t
  }

  /** A header row has no class, an empty text stays empty, and no cell is both bold and italic. */
  lemma HowCellsAreDressed(st: Style, c: Cell, col: nat, align: char)
    requires col < |st.aligns| && align == if st.aligns[col] in {'l', 'X', 'p'} then 'l' else 'r'
    ensures st.header ==>
      Dress(st, c, col) == st.tex(c.raw, if c.cspan > 1 then 'c' else align, st.aligns[col] == 'X' && c.cspan == 1)
    ensures !st.header ==>
      var t := st.tex(c.raw, align, st.aligns[col] == 'X' && c.cspan == 1);
      && (t == "" || st.cls.Other? ==> Dress(st, c, col) == t)
      && (t != "" && st.cls.Em? ==> Dress(st, c, col) == "\\textbf{" + t + "}")
      && (t != "" && st.cls.Grp? ==> Dress(st, c, col) == "\\textit{" + t + "}")
  {}

  function RowPrefix(st: Style): string {
    match st.RowClass()
    case Em => "\\rowcolor{tint1}"
    case Grp => "\\rowcolor{band2}"
    case Other => ""
  }

  // ---------------------------------------------------------------- the renderer

  function HeldPiece(h: Held): Piece {
    if h.left == 1 && h.text.Some? then Multirow(h.rows, h.text.value) else Blank
  }

  function AfterHeld(pending: Pending, col: nat): Pending
    requires col in pending
  {
    if pending[col].left == 1 then pending - {col}
    else pending[col := pending[col].(left := pending[col].left - 1)]
  }

  /** The first `n` columns of a cell that spans rows, held for the rows below. */
  function Hold(pending: Pending, col: nat, rspan: nat, text: string, n: nat): Pending
    requires rspan > 1
  {
    if n == 0 then pending
    else Hold(pending, col, rspan, text, n - 1)[col + n - 1 := Held(rspan - 1, rspan, if n == 1 then Some(text) else None)]
  }

  function Blanks(n: nat): (b: seq<Piece>)
    ensures |b| == n
  {
    seq<Piece>(n, i requires 0 <= i < n => Blank)
  }

  function CellPieces(cspan: nat, rspan: nat, text: string): seq<Piece> {
    if rspan > 1 then Blanks(cspan)
    else if cspan > 1 then [Multicolumn(cspan, text)]
    else [Plain(text)]
  }

  /** The pieces of a row from column `col` on, and what is held for the next row. */
  function Render(st: Style, cells: seq<Cell>, col: nat, ncol: nat, pending: Pending): (seq<Piece>, Pending)
    decreases ncol + |cells| - col
  {
    if col >= ncol then ([], pending)
    else if col in pending then
      var rest := Render(st, cells, col + 1, ncol, AfterHeld(pending, col));
      ([HeldPiece(pending[col])] + rest.0, rest.1)
    else if cells == [] then
      var rest := Render(st, cells, col + 1, ncol, pending);
      ([Blank] + rest.0, rest.1)
    else
      var c := cells[0];
      var t := Dress(st, c, col);
      var rest := Render(st, cells[1..], col + c.cspan, ncol, if c.rspan > 1 then Hold(pending, col, c.rspan, t, c.cspan) else pending);
      (CellPieces(c.cspan, c.rspan, t) + rest.0, rest.1)
  }

  /** Rendering the rest of a row after `out` completes the row. */
  predicate Continues(st: Style, all: seq<Cell>, ncol: nat, before: Pending, out: seq<Piece>, cells: seq<Cell>, col: nat, pending: Pending) {
    var rest := Render(st, cells, col, ncol, pending);
    Render(st, all, 0, ncol, before).0 == out + rest.0 && Render(st, all, 0, ncol, before).1 == rest.1
  }

  /** One more step of the row. */
  lemma Continue(st: Style, all: seq<Cell>, ncol: nat, before: Pending, out: seq<Piece>, cells: seq<Cell>, col: nat, pending: Pending,
                 pieces: seq<Piece>, fewer: seq<Cell>, next: nat, after: Pending)
    requires Continues(st, all, ncol, before, out, cells, col, pending)
    requires Render(st, cells, col, ncol, pending).0 == pieces + Render(st, fewer, next, ncol, after).0
    requires Render(st, cells, col, ncol, pending).1 == Render(st, fewer, next, ncol, after).1
    ensures Continues(st, all, ncol, before, out + pieces, fewer, next, after)
  {
    hide Render;
  }

  /** The held columns of a table being printed. */
  class Printer {
    var pending: Pending

    constructor ()
      ensures pending == map[]
    {
      pending := map[];
    }

    method RenderRow(cells: seq<Cell>, ncol: nat, st: Style) returns (prefix: string, out: seq<Piece>)
      modifies this
      ensures prefix == RowPrefix(st) && (out, pending) == Render(st, cells, 0, ncol, old(pending))
    {
      hide Hold, Dress;
      prefix, out := RowPrefix(st), [];
      var col: nat, next: nat := 0, 0;
      assert cells[0..] == cells;
      while col < ncol
        invariant next <= |cells|
        invariant Continues(st, cells, ncol, old(pending), out, cells[next..], col, pending)
        decreases ncol + |cells| - next - col
      {
        ghost var held, at, row := pending, col, out;
        if col in pending {
          var h := pending[col];
          var piece := Blank;
          if h.left == 1 {
            pending := pending - {col};
            piece := if h.text.Some? then Multirow(h.rows, h.text.value) else Blank;
          } else {
            pending := pending[col := h.(left := h.left - 1)];
          }
          out := out + [piece];
          col := col + 1;
          Continue(st, cells, ncol, old(pending), row, cells[next..], at, held, [piece], cells[next..], col, pending);
          continue;
        }
        if next == |cells| {
          out := out + [Blank];
          col := col + 1;
          Continue(st, cells, ncol, old(pending), row, cells[next..], at, held, [Blank], cells[next..], col, pending);
          continue;
        }
        var c := cells[next];
        assert cells[next..][0] == c && cells[next..][1..] == cells[next + 1..];
        next := next + 1;
        var t := DressCell(st, c, col);
        if c.rspan > 1 {
          HoldCell(col, c.rspan, c.cspan, t);
          out := out + Blanks(c.cspan);
        } else if c.cspan > 1 {
          out := out + [Multicolumn(c.cspan, t)];
        } else {
          out := out + [Plain(t)];
        }
        col := col + c.cspan;
        Continue(st, cells, ncol, old(pending), row, cells[next - 1..], at, held, CellPieces(c.cspan, c.rspan, t), cells[next..], col, pending);
      }
      assert out + [] == out;
    }

    /** The cell's own text, and then the row's style around it. */
    method DressCell(st: Style, c: Cell, col: nat) returns (t: string)
      ensures t == Dress(st, c, col)
    {
      var a := if col < |st.aligns| then st.aligns[col] else 'r';
      var align := if a in {'l', 'X', 'p'} then 'l' else 'r';
      if st.header && c.cspan > 1 {
        align := 'c';
      }
      t := st.tex(c.raw, align, a == 'X' && c.cspan == 1);
      var cls := if st.header then Other else st.cls;
      if t != "" && cls == Em {
        t := "\\textbf{" + t + "}";
      } else if t != "" && cls == Grp {
        t := "\\textit{" + t + "}";
      }
    }

    /** Hold every column of a cell that spans rows. */
    method HoldCell(col: nat, rspan: nat, cspan: nat, text: string)
      requires rspan > 1
      modifies this
      ensures pending == Hold(old(pending), col, rspan, text, cspan)
    {
      var j: nat := 0;
      while j < cspan
        invariant 0 <= j <= cspan
        invariant pending == Hold(old(pending), col, rspan, text, j)
      {
        pending := pending[col + j := Held(rspan - 1, rspan, if j == 0 then Some(text) else None)];
        j := j + 1;
      }
    }
  }

  // ---------------------------------------------------------------- tables that tile a grid

  /** A cell where it lies: its first row and column, and how far it reaches. */
  datatype Rect = Rect(row: nat, col: nat, rspan: nat, cspan: nat, raw: string, text: string) {
    predicate Covers(r: nat, x: nat) {
      row <= r < row + rspan && col <= x < col + cspan
    }
  }

  type Grid = (nat, nat) -> Rect

  /** The rectangle at (r, x) covers it, stays inside the grid, and is the rectangle of all it covers. */
  ghost predicate Fits(g: Grid, height: nat, width: nat, r: nat, x: nat) {
    var b := g(r, x);
    && b.Covers(r, x) && b.row + b.rspan <= height && b.col + b.cspan <= width
    && forall s: nat, y: nat :: b.Covers(s, y) ==> g(s, y) == b
  }

  ghost predicate Tiles(g: Grid, height: nat, width: nat) {
    forall r: nat, x: nat :: r < height && x < width ==> Fits(g, height, width, r, x)
  }

  /** Two rows of three columns: one cell over both rows, one over two columns, and two plain ones. */
  function Example(r: nat, x: nat): Rect {
    if x == 0 then Rect(0, 0, 2, 1, "a", "a")
    else if r == 0 then Rect(0, 1, 1, 2, "b", "b")
    else if x == 1 then Rect(1, 1, 1, 1, "c", "c")
    else Rect(1, 2, 1, 1, "d", "d")
  }

  lemma ExampleTiles()
    ensures Tiles(Example, 2, 3)
  {
    forall r: nat, x: nat | r < 2 && x < 3 ensures Fits(Example, 2, 3, r, x) {
      var b := Example(r, x);
      forall s: nat, y: nat | b.Covers(s, y) ensures Example(s, y) == b {}
    }
  }

  /** The text of every cell that begins in row `r` is dressed by that row's style. */
  ghost predicate Dressed(g: Grid, width: nat, r: nat, st: Style) {
    forall x: nat :: x < width && g(r, x).row == r && g(r, x).col == x ==>
      var b := g(r, x); b.text == Dress(st, Cell(b.cspan, b.rspan, b.raw), x)
  }

  /** The cells a row's source lists from column `x` on: those that begin in that row. */
  function RowCells(g: Grid, r: nat, x: nat, width: nat): seq<Cell>
    decreases width - x
  {
    if x >= width then []
    else
      var b := g(r, x);
      var rest := RowCells(g, r, x + 1, width);
      if b.row == r && b.col == x then [Cell(b.cspan, b.rspan, b.raw)] + rest else rest
  }

  /** What a reader should find at (r, x): the text of the cell whose last row and first column this is. */
  function Shown(g: Grid, r: nat, x: nat): Piece {
    var b := g(r, x);
    if x != b.col || r + 1 != b.row + b.rspan then Blank
    else if b.rspan > 1 then Multirow(b.rspan, b.text)
    else if b.cspan > 1 then Multicolumn(b.cspan, b.text)
    else Plain(b.text)
  }

  function Span(out: seq<Piece>): nat {
    if out == [] then 0 else out[0].Width() + Span(out[1..])
  }

  /** The piece that begins at column `x` of a printed row; blank inside a piece that began before. */
  function PieceAt(out: seq<Piece>, x: nat): Piece {
    if out == [] then Blank
    else if x == 0 then out[0]
    else if x < out[0].Width() then Blank
    else if out[0].Width() == 0 then PieceAt(out[1..], x) else PieceAt(out[1..], x - out[0].Width())
  }

  /** What is held for column `j` before row `r` is printed, and after. */
  function HeldBefore(g: Grid, r: nat, j: nat): Option<Held> {
    var b := g(r, j);
    if b.row < r && r < b.row + b.rspan then Some(Held(b.row + b.rspan - r, b.rspan, if j == b.col then Some(b.text) else None)) else None
  }

  function HeldAfter(g: Grid, r: nat, j: nat): Option<Held> {
    var b := g(r, j);
    if r + 1 < b.row + b.rspan then Some(Held(b.row + b.rspan - r - 1, b.rspan, if j == b.col then Some(b.text) else None)) else None
  }

  function Lookup(pending: Pending, j: nat): Option<Held> {
    if j in pending then Some(pending[j]) else None
  }

  /** Columns before `x` are ready for the next row, the others for this one. */
  ghost predicate Holds(g: Grid, width: nat, r: nat, x: nat, pending: Pending) {
    forall j: nat :: Lookup(pending, j) ==
      if j >= width then None else if j < x then HeldAfter(g, r, j) else HeldBefore(g, r, j)
  }

  // ---------------------------------------------------------------- what is printed

  lemma HeldCarries(g: Grid, height: nat, width: nat, r: nat, j: nat)
    requires Tiles(g, height, width) && r < height && j < width
    ensures r + 1 < height ==> HeldAfter(g, r, j) == HeldBefore(g, r + 1, j)
    ensures r + 1 == height ==> HeldAfter(g, r, j) == None
  {
    assert Fits(g, height, width, r, j);
    if r + 1 < height {
      assert Fits(g, height, width, r + 1, j);
      var b, c := g(r, j), g(r + 1, j);
      assert b.Covers(r + 1, j) ==> g(r + 1, j) == b;
      assert c.Covers(r, j) ==> g(r, j) == c;
    }
  }

  /** Column `x` of row `r` does not lie inside a cell that began further left in the same row. */
  predicate AtEdge(g: Grid, width: nat, r: nat, x: nat) {
    x < width && g(r, x).row == r ==> g(r, x).col == x
  }

  lemma NextEdge(g: Grid, height: nat, width: nat, r: nat, x: nat, y: nat)
    requires Tiles(g, height, width) && r < height && x < width && AtEdge(g, width, r, x)
    requires y == if g(r, x).row < r then x + 1 else x + g(r, x).cspan
    ensures x < y <= width && AtEdge(g, width, r, y)
  {
    var b := g(r, x);
    assert Fits(g, height, width, r, x);
    if y < width {
      var c := g(r, y);
      assert Fits(g, height, width, r, y);
      assert b.Covers(r, y - 1) && g(r, y - 1) == b;
      assert c.Covers(r, y - 1) ==> g(r, y - 1) == c;
    }
  }

  lemma {:induction false} RowCellsSkip(g: Grid, height: nat, width: nat, r: nat, x: nat, y: nat)
    requires Tiles(g, height, width) && r < height && x < y <= width
    requires forall z: nat :: x <= z < y ==> g(r, z).row < r || g(r, z).col < z
    ensures RowCells(g, r, x, width) == RowCells(g, r, y, width)
    decreases y - x
  {
    assert g(r, x).row < r || g(r, x).col < x;
    if x + 1 < y {
      RowCellsSkip(g, height, width, r, x + 1, y);
    }
  }

  lemma RowCellsStep(g: Grid, height: nat, width: nat, r: nat, x: nat)
    requires Tiles(g, height, width) && r < height && x < width && AtEdge(g, width, r, x)
    ensures g(r, x).row < r ==> RowCells(g, r, x, width) == RowCells(g, r, x + 1, width)
    ensures var b := g(r, x); b.row == r ==>
      RowCells(g, r, x, width) == [Cell(b.cspan, b.rspan, b.raw)] + RowCells(g, r, x + b.cspan, width)
  {
    var b := g(r, x);
    assert Fits(g, height, width, r, x);
    if b.row == r && b.cspan > 1 {
      forall z: nat | x + 1 <= z < x + b.cspan ensures g(r, z).col < z {
        assert b.Covers(r, z);
      }
      RowCellsSkip(g, height, width, r, x + 1, x + b.cspan);
    }
  }

  lemma {:induction false} HoldLooksUp(pending: Pending, col: nat, rspan: nat, text: string, n: nat, j: nat)
    requires rspan > 1
    ensures Lookup(Hold(pending, col, rspan, text, n), j) ==
      if col <= j < col + n then Some(Held(rspan - 1, rspan, if j == col then Some(text) else None)) else Lookup(pending, j)
  {
    if n > 0 {
      HoldLooksUp(pending, col, rspan, text, n - 1, j);
    }
  }

  /** What is held after the piece or cell at column `x`. */
  function PendingPast(g: Grid, r: nat, x: nat, pending: Pending): Pending {
    var b := g(r, x);
    if x in pending then AfterHeld(pending, x)
    else if b.rspan > 1 then Hold(pending, x, b.rspan, b.text, b.cspan)
    else pending
  }

  lemma HoldsPast(g: Grid, height: nat, width: nat, r: nat, x: nat, pending: Pending)
    requires Tiles(g, height, width) && r < height && x < width && AtEdge(g, width, r, x) && Holds(g, width, r, x, pending)
    ensures x in pending <==> g(r, x).row < r
    ensures g(r, x).row < r ==> pending[x] == HeldBefore(g, r, x).value
    ensures Holds(g, width, r, if g(r, x).row < r then x + 1 else x + g(r, x).cspan, PendingPast(g, r, x, pending))
  {
    var b := g(r, x);
    assert Fits(g, height, width, r, x);
    assert Lookup(pending, x) == HeldBefore(g, r, x);
    var y := if b.row < r then x + 1 else x + b.cspan;
    var past := PendingPast(g, r, x, pending);
    forall j: nat ensures Lookup(past, j) ==
        if j >= width then None else if j < y then HeldAfter(g, r, j) else HeldBefore(g, r, j)
    {
      assert Lookup(pending, j) == if j >= width then None else if j < x then HeldAfter(g, r, j) else HeldBefore(g, r, j);
      if b.row == r {
        if b.rspan > 1 {
          HoldLooksUp(pending, x, b.rspan, b.text, b.cspan, j);
        }
        if x <= j < y {
          assert b.Covers(r, j);
        }
      }
    }
  }

  /** What comes out at column `x`: blanks for a cell that goes on, the cell itself when this is its last row. */
  function Emitted(g: Grid, r: nat, x: nat, pending: Pending): seq<Piece> {
    var b := g(r, x);
    if x in pending then [HeldPiece(pending[x])] else CellPieces(b.cspan, b.rspan, b.text)
  }

  lemma {:induction false} BlanksShow(n: nat, rest: seq<Piece>, x: nat)
    ensures Span(Blanks(n) + rest) == n + Span(rest)
    ensures PieceAt(Blanks(n) + rest, x) == if x < n then Blank else PieceAt(rest, x - n)
  {
    if n == 0 {
      assert Blanks(0) + rest == rest;
    } else {
      assert (Blanks(n) + rest)[1..] == Blanks(n - 1) + rest;
      BlanksShow(n - 1, rest, if x == 0 then 0 else x - 1);
    }
  }

  lemma OneShows(p: Piece, rest: seq<Piece>, x: nat)
    requires p.Width() > 0
    ensures Span([p] + rest) == p.Width() + Span(rest)
    ensures PieceAt([p] + rest, x) == if x == 0 then p else if x < p.Width() then Blank else PieceAt(rest, x - p.Width())
  {
    assert ([p] + rest)[1..] == rest;
  }

  lemma EmittedShows(g: Grid, height: nat, width: nat, r: nat, x: nat, pending: Pending, rest: seq<Piece>, y: nat)
    requires Tiles(g, height, width) && r < height && x < width && AtEdge(g, width, r, x) && Holds(g, width, r, x, pending)
    requires x <= y < width
    ensures var z := if g(r, x).row < r then x + 1 else x + g(r, x).cspan;
      && Span(Emitted(g, r, x, pending) + rest) == z - x + Span(rest)
      && PieceAt(Emitted(g, r, x, pending) + rest, y - x) == if y < z then Shown(g, r, y) else PieceAt(rest, y - z)
  {
    hide Span, PieceAt, Holds;
    var b := g(r, x);
    HoldsPast(g, height, width, r, x, pending);
    assert Fits(g, height, width, r, x);
    if b.row < r {
      OneShows(HeldPiece(pending[x]), rest, y - x);
    } else {
      if y < x + b.cspan {
        assert b.Covers(r, y);
      }
      if b.rspan > 1 {
        BlanksShow(b.cspan, rest, y - x);
      } else {
        OneShows(CellPieces(b.cspan, b.rspan, b.text)[0], rest, y - x);
      }
    }
  }

  lemma DressedHere(st: Style, g: Grid, width: nat, r: nat, x: nat)
    requires x < width && AtEdge(g, width, r, x) && Dressed(g, width, r, st)
    ensures var b := g(r, x); b.row == r ==> b.text == Dress(st, Cell(b.cspan, b.rspan, b.raw), x)
  {
    hide Dress;
  }

  /** One step of the renderer, on a table that tiles its grid. */
  lemma RenderStep(st: Style, g: Grid, height: nat, width: nat, r: nat, x: nat, pending: Pending)
    requires Tiles(g, height, width) && r < height && x < width && AtEdge(g, width, r, x) && Holds(g, width, r, x, pending)
    requires Dressed(g, width, r, st)
    ensures var y := if g(r, x).row < r then x + 1 else x + g(r, x).cspan;
      var rest := Render(st, RowCells(g, r, y, width), y, width, PendingPast(g, r, x, pending));
      Render(st, RowCells(g, r, x, width), x, width, pending) == (Emitted(g, r, x, pending) + rest.0, rest.1)
  {
    hide Holds, AtEdge, Hold, CellPieces, RowCells, Dress, Dressed;
    HoldsPast(g, height, width, r, x, pending);
    RowCellsStep(g, height, width, r, x);
    DressedHere(st, g, width, r, x);
    assert Fits(g, height, width, r, x);
  }

  lemma {:induction false} RenderShows(st: Style, g: Grid, height: nat, width: nat, r: nat, x: nat, pending: Pending, z: nat)
    requires Tiles(g, height, width) && r < height && x <= width && AtEdge(g, width, r, x) && Holds(g, width, r, x, pending)
    requires Dressed(g, width, r, st) && (x < width ==> x <= z < width)
    ensures var row := Render(st, RowCells(g, r, x, width), x, width, pending);
      && Span(row.0) == width - x
      && (x < width ==> PieceAt(row.0, z - x) == Shown(g, r, z))
      && Holds(g, width, r, width, row.1)
    decreases width - x
  {
    hide Holds, AtEdge, RowCells, PendingPast, Emitted, Shown, PieceAt, Tiles;
    if x < width {
      var y := if g(r, x).row < r then x + 1 else x + g(r, x).cspan;
      NextEdge(g, height, width, r, x, y);
      HoldsPast(g, height, width, r, x, pending);
      RenderStep(st, g, height, width, r, x, pending);
      var past := PendingPast(g, r, x, pending);
      RenderShows(st, g, height, width, r, y, past, if z < y then y else z);
      var rest := Render(st, RowCells(g, r, y, width), y, width, past);
      EmittedShows(g, height, width, r, x, pending, rest.0, z);
    }
  }

  ghost predicate RowShows(g: Grid, width: nat, r: nat, out: seq<Piece>) {
    Span(out) == width && forall x: nat :: x < width ==> PieceAt(out, x) == Shown(g, r, x)
  }

  /** A whole row: as wide as the grid, every column as it should be, and the held columns ready for the next. */
  lemma RowIsRight(st: Style, g: Grid, height: nat, width: nat, r: nat, pending: Pending)
    requires Tiles(g, height, width) && r < height && Holds(g, width, r, 0, pending) && width > 0 && Dressed(g, width, r, st)
    ensures var row := Render(st, RowCells(g, r, 0, width), 0, width, pending);
      && RowShows(g, width, r, row.0)
      && (r + 1 < height ==> Holds(g, width, r + 1, 0, row.1))
      && (r + 1 == height ==> row.1 == map[])
  {
    hide Render, RowCells, Span, PieceAt, Shown, HeldAfter, HeldBefore;
    var row := Render(st, RowCells(g, r, 0, width), 0, width, pending);
    assert Fits(g, height, width, r, 0);
    forall z: nat | z < width ensures PieceAt(row.0, z) == Shown(g, r, z) {
      RenderShows(st, g, height, width, r, 0, pending, z);
    }
    RenderShows(st, g, height, width, r, 0, pending, 0);
    forall j: nat | j < width
      ensures r + 1 < height ==> HeldAfter(g, r, j) == HeldBefore(g, r + 1, j)
      ensures r + 1 == height ==> HeldAfter(g, r, j) == None
    {
      HeldCarries(g, height, width, r, j);
    }
    if r + 1 == height {
      forall j: nat ensures j !in row.1 {
        assert Lookup(row.1, j) == None;
      }
    }
  }

  datatype Line = Line(prefix: string, pieces: seq<Piece>)

  /** Print a table's rows one after another, each in its own style. */
  method PrintTable(rows: seq<seq<Cell>>, ncol: nat, sts: nat -> Style, ghost g: Grid) returns (lines: seq<Line>)
    requires ncol > 0 && Tiles(g, |rows|, ncol)
    requires forall r :: 0 <= r < |rows| ==> rows[r] == RowCells(g, r, 0, ncol) && Dressed(g, ncol, r, sts(r))
    ensures |lines| == |rows| && forall r :: 0 <= r < |rows| ==>
      lines[r].prefix == RowPrefix(sts(r)) && RowShows(g, ncol, r, lines[r].pieces)
  {
    hide Render, RowCells, RowShows, Tiles, Dressed, RowPrefix;
    lines := [];
    var printer := new Printer();
    var r := 0;
    if rows != [] {
      NothingHeld(g, |rows|, ncol);
    }
    while r < |rows|
      invariant 0 <= r <= |rows| && |lines| == r
      invariant r < |rows| ==> Holds(g, ncol, r, 0, printer.pending)
      invariant forall k :: 0 <= k < r ==> lines[k].prefix == RowPrefix(sts(k)) && RowShows(g, ncol, k, lines[k].pieces)
    {
      RowIsRight(sts(r), g, |rows|, ncol, r, printer.pending);
      var prefix, line := printer.RenderRow(rows[r], ncol, sts(r));
      lines := lines + [Line(prefix, line)];
      r := r + 1;
    }
  }

  lemma NothingHeld(g: Grid, height: nat, width: nat)
    requires Tiles(g, height, width) && height > 0
    ensures Holds(g, width, 0, 0, map[])
  {}

  /** Each cell's text is printed at exactly one place: its first column, in its last row. */
  lemma PrintedOnce(g: Grid, height: nat, width: nat, r: nat, x: nat, s: nat, y: nat)
    requires Tiles(g, height, width) && r < height && x < width && s < height && y < width
    ensures var b := g(r, x);
      g(s, y) == b && Shown(g, s, y) != Blank <==> s == b.row + b.rspan - 1 && y == b.col
  {
    var b := g(r, x);
    assert Fits(g, height, width, r, x);
    assert b.Covers(b.row + b.rspan - 1, b.col);
  }

  // ---------------------------------------------------------------- the column count

  function Columns(cells: seq<Cell>): nat {
    if cells == [] then 0 else cells[0].cspan + Columns(cells[1..])
  }

  lemma {:induction false} RowColumns(g: Grid, height: nat, width: nat, r: nat, x: nat)
    requires Tiles(g, height, width) && r < height && x <= width && AtEdge(g, width, r, x)
    ensures Columns(RowCells(g, r, x, width)) <= width - x
    ensures r == 0 ==> Columns(RowCells(g, r, x, width)) == width - x
    decreases width - x
  {
    hide RowCells, AtEdge;
    if x == width {
      NoCells(g, r, width);
    } else {
      var b := g(r, x);
      assert Fits(g, height, width, r, x);
      var y := if b.row < r then x + 1 else x + b.cspan;
      NextEdge(g, height, width, r, x, y);
      RowCellsStep(g, height, width, r, x);
      RowColumns(g, height, width, r, y);
      assert ([Cell(b.cspan, b.rspan, b.raw)] + RowCells(g, r, y, width))[1..] == RowCells(g, r, y, width);
    }
  }

  lemma NoCells(g: Grid, r: nat, width: nat)
    ensures RowCells(g, r, width, width) == []
  {}

  /** The widest row's column count. */
  function Widest(rows: seq<seq<Cell>>): nat {
    if rows == [] then 0
    else
      var rest := Widest(rows[..|rows| - 1]);
      var last := Columns(rows[|rows| - 1]);
      if last > rest then last else rest
  }

  /** The count the printer takes is the grid's width: the first row has nothing above it. */
  lemma {:induction false} WidestIsWidth(g: Grid, height: nat, width: nat, rows: seq<seq<Cell>>)
    requires Tiles(g, height, width) && 0 < |rows| <= height && width > 0
    requires forall r :: 0 <= r < |rows| ==> rows[r] == RowCells(g, r, 0, width)
    ensures Widest(rows) == width
    decreases |rows|
  {
    hide RowCells, Columns, Tiles;
    var k := |rows| - 1;
    EdgeAtZero(g, height, width, k);
    RowColumns(g, height, width, k, 0);
    if k > 0 {
      WidestIsWidth(g, height, width, rows[..k]);
    } else {
      assert rows[..k] == [] && Widest(rows[..k]) == 0;
    }
  }

  lemma EdgeAtZero(g: Grid, height: nat, width: nat, r: nat)
    requires Tiles(g, height, width) && r < height && width > 0
    ensures AtEdge(g, width, r, 0)
  {
    assert Fits(g, height, width, r, 0);
  }
}
