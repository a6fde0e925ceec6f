/**
 The Q8_1 activation buffer: 20 groups of 512 records, each 128 value bytes and four binary32 scales.
 The normalisation kernel writes it by column and by block; the matrix kernel reads it by block and lane.
 */
module Q8Layout {
  import opened MmqFold
  import opened Numbers

  const WIDTH := 2560
  const BLOCKS := 80
  const N_TOK := 512
  const RECORD_BYTES := 144
  const RECORD_FLOATS := 36
  const SIZE := 1474560

  /** One byte of the buffer: a quantized column, or a byte of a block's scale. */
  datatype Cell = Value(tok: nat, col: nat) | Scale(tok: nat, block: nat, part: nat) {
    predicate Valid() {
      && tok < N_TOK
      && match this
         case Value(_, col) => col < WIDTH
         case Scale(_, block, part) => block < BLOCKS && part < 4
    }
  }

  function ValueOffset(tok: nat, col: nat): nat {
    (col / 32 / 4 * N_TOK + tok) * RECORD_BYTES + col / 32 % 4 * 32 + col % 32
  }

  /** The scale's index in the float view, which starts 128 bytes into the buffer. */
  function ScaleOffset(tok: nat, block: nat): nat {
    (block / 4 * N_TOK + tok) * RECORD_FLOATS + block % 4
  }

  function Address(c: Cell): nat {
    match c
    case Value(tok, col) => ValueOffset(tok, col)
    case Scale(tok, block, part) => 128 + 4 * ScaleOffset(tok, block) + part
  }

  /** The cell a byte belongs to. */
  function CellAt(a: nat): Cell {
    var record, offset := a / RECORD_BYTES, a % RECORD_BYTES;
    if offset < 128 then Value(record % N_TOK, record / N_TOK * 128 + offset)
    else Scale(record % N_TOK, record / N_TOK * 4 + (offset - 128) / 4, (offset - 128) % 4)
  }

  // ---------------------------------------------------------------- every byte is one cell's

  lemma RecordSplit(group: nat, tok: nat, offset: nat)
    requires tok < N_TOK && offset < RECORD_BYTES
    ensures var a := (group * N_TOK + tok) * RECORD_BYTES + offset;
      a / RECORD_BYTES / N_TOK == group && a / RECORD_BYTES % N_TOK == tok && a % RECORD_BYTES == offset
  {
    var r := group * 512 + tok;
    assert (r * 144 + offset) / 144 == r && (r * 144 + offset) % 144 == offset;
  }

  lemma ValueAt(group: nat, tok: nat, offset: nat)
    requires offset < 128
    ensures ValueOffset(tok, group * 128 + offset) == (group * N_TOK + tok) * RECORD_BYTES + offset
  {
    var col := group * 128 + offset;
    assert col / 32 == group * 4 + offset / 32 && col % 32 == offset % 32;
    assert col / 32 / 4 == group && col / 32 % 4 == offset / 32;
  }

  lemma ScaleAt(group: nat, tok: nat, rest: nat)
    requires rest < 16
    ensures 128 + 4 * ScaleOffset(tok, group * 4 + rest / 4) + rest % 4 == (group * N_TOK + tok) * RECORD_BYTES + 128 + rest
  {
    var block := group * 4 + rest / 4;
    assert block / 4 == group && block % 4 == rest / 4;
  }

  lemma CellOfAddress(c: Cell)
    requires c.Valid()
    ensures Address(c) < SIZE && CellAt(Address(c)) == c
  {
    hide ValueOffset, ScaleOffset;
    match c
    case Value(tok, col) =>
      ValueAt(col / 128, tok, col % 128);
      RecordSplit(col / 128, tok, col % 128);
      InBuffer(col / 128, tok, col % 128);
    case Scale(tok, block, part) =>
      var rest := block % 4 * 4 + part;
      ScaleAt(block / 4, tok, rest);
      RecordSplit(block / 4, tok, 128 + rest);
      InBuffer(block / 4, tok, 128 + rest);
  }

  lemma InBuffer(group: nat, tok: nat, offset: nat)
    requires group < 20 && tok < N_TOK && offset < RECORD_BYTES
    ensures (group * N_TOK + tok) * RECORD_BYTES + offset < SIZE
  {}

  lemma RecordOf(a: nat)
    requires a < SIZE
    ensures var record := a / RECORD_BYTES;
      record / N_TOK < 20 && (record / N_TOK * N_TOK + record % N_TOK) * RECORD_BYTES + a % RECORD_BYTES == a
  {}

  lemma AddressOfCell(a: nat)
    requires a < SIZE
    ensures CellAt(a).Valid() && Address(CellAt(a)) == a
  {
    hide ValueOffset, ScaleOffset;
    RecordOf(a);
    var record, offset := a / RECORD_BYTES, a % RECORD_BYTES;
    if offset < 128 {
      ValueAt(record / N_TOK, record % N_TOK, offset);
    } else {
      ScaleAt(record / N_TOK, record % N_TOK, offset - 128);
    }
  }

  /** No byte is written for two cells. */
  lemma CellsApart(c: Cell, d: Cell)
    requires c.Valid() && d.Valid() && c != d
    ensures Address(c) != Address(d)
  {
    hide Address, CellAt;
    CellOfAddress(c);
    CellOfAddress(d);
  }

  // ---------------------------------------------------------------- what is written

  /** A token's quantized columns and rounded scales. */
  datatype Row = Row(q: seq<Int8>, s: seq<F>)

  predicate Rows(rows: seq<Row>) {
    |rows| == N_TOK && forall r :: r in rows ==> |r.q| == WIDTH && |r.s| == BLOCKS
  }

  function AsByte(v: Int8): Byte {
    v % 256
  }

  function Signed(b: Byte): Int8 {
    if b < 128 then b else b - 256
  }

  function BytePart(x: F, part: nat): Byte
    requires part < 4
  {
    if part == 0 then x % 256
    else if part == 1 then x / 256 % 256
    else if part == 2 then x / 65536 % 256
    else x / 16777216
  }

  function Float(b0: Byte, b1: Byte, b2: Byte, b3: Byte): F {
    b0 + 256 * b1 + 65536 * b2 + 16777216 * b3
  }

  function CellByte(rows: seq<Row>, c: Cell): Byte
    requires Rows(rows) && c.Valid()
  {
    match c
    case Value(tok, col) => AsByte(rows[tok].q[col])
    case Scale(tok, block, part) => BytePart(rows[tok].s[block], part)
  }

  /** The cells of `tok` among its first `cols` columns and `blocks` scales. */
  predicate Reached(c: Cell, tok: nat, cols: nat, blocks: nat) {
    match c
    case Value(t, col) => t == tok && col < cols
    case Scale(t, block, _) => t == tok && block < blocks
  }

  ghost predicate Written(rows: seq<Row>, now: seq<Byte>, before: seq<Byte>, tok: nat, cols: nat, blocks: nat)
    requires Rows(rows)
  {
    && |now| == |before| == SIZE
    && forall c: Cell :: c.Valid() ==>
         && Address(c) < SIZE
         && now[Address(c)] == (if Reached(c, tok, cols, blocks) then CellByte(rows, c) else before[Address(c)])
  }

  lemma ValueStored(rows: seq<Row>, now: seq<Byte>, next: seq<Byte>, before: seq<Byte>, tok: nat, col: nat)
    requires Rows(rows) && tok < N_TOK && col < WIDTH && Written(rows, now, before, tok, col, 0)
    requires Address(Value(tok, col)) < |now| && next == now[Address(Value(tok, col)) := AsByte(rows[tok].q[col])]
    ensures Written(rows, next, before, tok, col + 1, 0)
  {
    hide Address, CellAt, AsByte;
    forall c: Cell | c.Valid()
      ensures next[Address(c)] == if Reached(c, tok, col + 1, 0) then CellByte(rows, c) else before[Address(c)]
    {
      if c != Value(tok, col) {
        CellsApart(c, Value(tok, col));
      }
    }
  }

  /** `next` is `now` with the four bytes of one scale stored. */
  ghost predicate ScaleStored(rows: seq<Row>, now: seq<Byte>, next: seq<Byte>, tok: nat, block: nat)
    requires Rows(rows) && tok < N_TOK && block < BLOCKS
  {
    && |next| == |now| == SIZE
    && forall a :: 0 <= a < SIZE ==>
         next[a] == (if Address(Scale(tok, block, 0)) <= a < Address(Scale(tok, block, 0)) + 4
                     then BytePart(rows[tok].s[block], a - Address(Scale(tok, block, 0))) else now[a])
  }

  lemma ScaleReached(rows: seq<Row>, now: seq<Byte>, next: seq<Byte>, before: seq<Byte>, tok: nat, block: nat)
    requires Rows(rows) && tok < N_TOK && block < BLOCKS && Written(rows, now, before, tok, WIDTH, block)
    requires ScaleStored(rows, now, next, tok, block)
    ensures Written(rows, next, before, tok, WIDTH, block + 1)
  {
    hide CellAt, BytePart, AsByte;
    forall c: Cell | c.Valid()
      ensures next[Address(c)] == if Reached(c, tok, WIDTH, block + 1) then CellByte(rows, c) else before[Address(c)]
    {
      CellOfAddress(c);
      var base := Address(Scale(tok, block, 0));
      if base <= Address(c) < base + 4 {
        var d := Scale(tok, block, Address(c) - base);
        CellOfAddress(d);
        assert c == d;
      } else {
        assert forall part :: c == Scale(tok, block, part) ==> part < 4;
      }
    }
  }

  /** One token's program: its columns, then its scales. */
  method WriteToken(rows: seq<Row>, tok: nat, bytes: array<Byte>)
    requires Rows(rows) && tok < N_TOK && bytes.Length == SIZE
    modifies bytes
    ensures Written(rows, bytes[..], old(bytes[..]), tok, WIDTH, BLOCKS)
  {
    hide Written, CellAt, BytePart, AsByte;
    var col := 0;
    assert Written(rows, bytes[..], old(bytes[..]), tok, 0, 0) by {
      NothingWritten(rows, bytes[..], tok);
    }
    while col < WIDTH
      invariant 0 <= col <= WIDTH
      invariant Written(rows, bytes[..], old(bytes[..]), tok, col, 0)
    {
      CellOfAddress(Value(tok, col));
      ghost var now := bytes[..];
      bytes[ValueOffset(tok, col)] := AsByte(rows[tok].q[col]);
      ValueStored(rows, now, bytes[..], old(bytes[..]), tok, col);
      col := col + 1;
    }
    var block := 0;
    while block < BLOCKS
      invariant 0 <= block <= BLOCKS
      invariant Written(rows, bytes[..], old(bytes[..]), tok, WIDTH, block)
    {
      ghost var now := bytes[..];
      StoreScale(rows, tok, block, bytes);
      ScaleReached(rows, now, bytes[..], old(bytes[..]), tok, block);
      block := block + 1;
    }
  }

  method StoreScale(rows: seq<Row>, tok: nat, block: nat, bytes: array<Byte>)
    requires Rows(rows) && tok < N_TOK && block < BLOCKS && bytes.Length == SIZE
    modifies bytes
    ensures ScaleStored(rows, old(bytes[..]), bytes[..], tok, block)
  {
    hide CellAt, BytePart;
    CellOfAddress(Scale(tok, block, 3));
    var base, x := 128 + 4 * ScaleOffset(tok, block), rows[tok].s[block];
    bytes[base] := BytePart(x, 0);
    bytes[base + 1] := BytePart(x, 1);
    bytes[base + 2] := BytePart(x, 2);
    bytes[base + 3] := BytePart(x, 3);
  }

  lemma NothingWritten(rows: seq<Row>, now: seq<Byte>, tok: nat)
    requires Rows(rows) && |now| == SIZE
    ensures Written(rows, now, now, tok, 0, 0)
  {
    hide Address, CellAt;
    forall c: Cell | c.Valid() ensures Address(c) < SIZE {
      CellOfAddress(c);
    }
  }

  /** The buffer once every token's program has run: no byte is left over. */
  ghost predicate Holds(rows: seq<Row>, bytes: seq<Byte>)
    requires Rows(rows)
  {
    |bytes| == SIZE && forall a :: 0 <= a < SIZE ==> CellAt(a).Valid() && bytes[a] == CellByte(rows, CellAt(a))
  }

  ghost predicate WrittenBut(rows: seq<Row>, now: seq<Byte>, todo: set<nat>)
    requires Rows(rows)
  {
    && |now| == SIZE
    && forall c: Cell :: c.Valid() && c.tok !in todo ==> Address(c) < SIZE && now[Address(c)] == CellByte(rows, c)
  }

  lemma TokenAdvances(rows: seq<Row>, now: seq<Byte>, next: seq<Byte>, todo: set<nat>, tok: nat)
    requires Rows(rows) && WrittenBut(rows, now, todo) && Written(rows, next, now, tok, WIDTH, BLOCKS)
    ensures WrittenBut(rows, next, todo - {tok})
  {
    hide Address, AsByte, BytePart;
  }

  function Tokens(n: nat): (all: set<nat>)
    ensures forall tok: nat :: tok in all <==> tok < n
  {
    if n == 0 then {} else Tokens(n - 1) + {n - 1}
  }

  /** The programs of all tokens, in any order. */
  method WriteAll(rows: seq<Row>, bytes: array<Byte>)
    requires Rows(rows) && bytes.Length == SIZE
    modifies bytes
    ensures Holds(rows, bytes[..])
  {
    hide Written, CellByte, CellAt, Address;
    var todo := Tokens(N_TOK);
    while todo != {}
      invariant forall tok :: tok in todo ==> tok < N_TOK
      invariant WrittenBut(rows, bytes[..], todo)
    {
      var tok :| tok in todo;
      ghost var now := bytes[..];
      WriteToken(rows, tok, bytes);
      TokenAdvances(rows, now, bytes[..], todo, tok);
      todo := todo - {tok};
    }
    forall a | 0 <= a < SIZE ensures CellAt(a).Valid() && bytes[a] == CellByte(rows, CellAt(a)) {
      AddressOfCell(a);
    }
  }

  // ---------------------------------------------------------------- the reader

  lemma BytesRoundTrip(v: Int8)
    ensures Signed(AsByte(v)) == v
  {}

  lemma FloatRoundTrip(x: F)
    ensures Float(BytePart(x, 0), BytePart(x, 1), BytePart(x, 2), BytePart(x, 3)) == x
  {
    assert x / 65536 == x / 256 / 256 && x / 16777216 == x / 65536 / 256;
  }

  function FloatAt(bytes: seq<Byte>, i: nat): F
    requires i < |bytes| / 4 - 32
  {
    Float(bytes[128 + 4 * i], bytes[129 + 4 * i], bytes[130 + 4 * i], bytes[131 + 4 * i])
  }

  /** The matrix kernel's two views of the buffer. */
  ghost predicate Views(p: Problem, bytes: seq<Byte>) {
    && |bytes| == SIZE && p.nTok == N_TOK && p.blocks == BLOCKS
    && (forall a: nat :: a < SIZE ==> p.xQs(a) == Signed(bytes[a]))
    && forall i: nat :: i < SIZE / 4 - 32 ==> p.xD(i) == FloatAt(bytes, i)
  }

  lemma ByteAt(rows: seq<Row>, bytes: seq<Byte>, c: Cell)
    requires Rows(rows) && Holds(rows, bytes) && c.Valid()
    ensures Address(c) < SIZE && bytes[Address(c)] == CellByte(rows, c)
  {
    hide Address, CellAt, CellByte;
    CellOfAddress(c);
  }

  /** Lane by lane, the matrix kernel loads the column the normalisation kernel quantized. */
  lemma ReaderSeesValue(p: Problem, rows: seq<Row>, bytes: seq<Byte>, tok: nat, block: nat, lane: nat)
    requires Rows(rows) && Holds(rows, bytes) && Views(p, bytes) && tok < N_TOK && block < BLOCKS && lane < 32
    ensures Q8(p, tok, block, lane) == rows[tok].q[block * 32 + lane]
  {
    hide Holds, CellAt, AsByte, Signed, Rows, Float;
    var col := block * 32 + lane;
    assert col / 32 == block && col % 32 == lane && col < WIDTH;
    var c := Value(tok, col);
    ByteAt(rows, bytes, c);
    LoadedRow(rows, tok);
    assert Address(c) == (block / 4 * p.nTok + tok) * 144 + block % 4 * 32 + lane;
    BytesRoundTrip(rows[tok].q[col]);
  }

  lemma LoadedRow(rows: seq<Row>, tok: nat)
    requires Rows(rows) && tok < N_TOK
    ensures |rows| == N_TOK && |rows[tok].q| == WIDTH && |rows[tok].s| == BLOCKS
  {}

  /** And the scale it rounded for that block. */
  lemma ReaderSeesScale(p: Problem, rows: seq<Row>, bytes: seq<Byte>, tok: nat, block: nat)
    requires Rows(rows) && Holds(rows, bytes) && Views(p, bytes) && tok < N_TOK && block < BLOCKS
    ensures MmqFold.Scale8(p, tok, block) == rows[tok].s[block]
  {
    hide Holds, CellAt, BytePart, Float, Rows;
    LoadedRow(rows, tok);
    ByteAt(rows, bytes, Scale(tok, block, 0));
    ByteAt(rows, bytes, Scale(tok, block, 1));
    ByteAt(rows, bytes, Scale(tok, block, 2));
    ByteAt(rows, bytes, Scale(tok, block, 3));
    var i := ScaleOffset(tok, block);
    assert i == (block / 4 * p.nTok + tok) * 36 + block % 4;
    FloatRoundTrip(rows[tok].s[block]);
  }

  /** The reader's group stride is its token count and the writer's is fixed, so they agree only at 512. */
  lemma StridesAgree(nTok: nat, tok: nat, block: nat)
    requires 4 <= block
    ensures (block / 4 * nTok + tok) * 144 == (block / 4 * N_TOK + tok) * 144 <==> nTok == N_TOK
  {
    var g := block / 4;
    if g * nTok == g * 512 {
      if nTok < 512 {
        MulStrict(nTok, 512, g);
      } else if nTok > 512 {
        MulStrict(512, nTok, g);
      }
    }
  }
}
