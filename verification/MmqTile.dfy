/**
 The tiled kernel and its launch.  Each program computes a blockM x blockN tile in two accumulators and
 stores the valid part of it; the programs of a launch run in any order.
 */
module MmqTile {
  import opened Numbers
  import opened StreamK
  import opened MmqFold

  /** The block sizes a build accepts: they never straddle a native tile. */
  datatype Variant = Variant(m: nat, n: nat) {
    predicate Valid() {
      m > 0 && n > 0 && 128 % m == 0 && 128 % n == 0
    }
  }

  // ---------------------------------------------------------------- coordinates

  /** A block that divides 128 lies in one native tile, which its own first element names. */
  lemma BlockInTile(i: nat, m: nat, r: nat)
    requires m > 0 && 128 % m == 0 && r < m
    ensures (i * m + r) / 128 == i * m / 128
  {
    var c := 128 / m;
    assert 128 == c * m;
    DivDiv(i * m + r, m, c);
    DivDiv(i * m, m, c);
    MulSwap(m, c);
    Remainder(i * m + r, m, i, r);
    Remainder(i * m, m, i, 0);
  }

  /** The kernel's own formula for the native tile of a program. */
  function ProgramTile(p: Problem, v: Variant, pr: nat, pt: nat): nat {
    pr * v.m / 128 * p.TokenTiles() + pt * v.n / 128
  }

  lemma ProgramTileIsNative(p: Problem, v: Variant, pr: nat, pt: nat, i: nat, j: nat)
    requires v.Valid() && i < v.m && j < v.n
    ensures p.NativeTile(pr * v.m + i, pt * v.n + j) == ProgramTile(p, v, pr, pt)
  {
    BlockInTile(pr, v.m, i);
    BlockInTile(pt, v.n, j);
  }

  /** The 64 x 64 baseline halves its program numbers instead. */
  lemma BaselineTile(p: Problem, pr: nat, pt: nat)
    ensures ProgramTile(p, Variant(64, 64), pr, pt) == pr / 2 * p.TokenTiles() + pt / 2
  {
    assert pr * 64 / 128 == pr / 2 && pt * 64 / 128 == pt / 2;
  }

  /** Where an element is stored, and back. */
  lemma Address(p: Problem, row: nat, token: nat)
    requires p.Valid() && row < p.nOut
    ensures (token * p.stride + row) / p.stride == token && (token * p.stride + row) % p.stride == row
  {
    Remainder(token * p.stride + row, p.stride, token, row);
  }

  lemma AddressFits(p: Problem, row: nat, token: nat, size: nat)
    requires p.Valid() && row < p.nOut && token < p.nTok && p.nTok * p.stride <= size
    ensures token * p.stride + row < size
  {
    MulMono(token + 1, p.nTok, p.stride);
    assert (token + 1) * p.stride == token * p.stride + p.stride;
  }

  // ---------------------------------------------------------------- what a launch leaves

  function RowOf(p: Problem, a: nat): nat
    requires p.stride > 0
  {
    a % p.stride
  }

  function TokenOf(p: Problem, a: nat): nat
    requires p.stride > 0
  {
    a / p.stride
  }

  /** Address `a` holds an element of the rows and tokens in these ranges. */
  predicate Inside(p: Problem, a: nat, row0: nat, row1: nat, token0: nat, token1: nat)
    requires p.Valid()
  {
    row0 <= RowOf(p, a) < row1 && token0 <= TokenOf(p, a) < token1
  }

  predicate IsCell(p: Problem, a: nat)
    requires p.Valid()
  {
    Inside(p, a, 0, p.nOut, 0, p.nTok)
  }

  function CellValue(p: Problem, a: nat): F
    requires p.Valid()
  {
    Element(p, RowOf(p, a), TokenOf(p, a))
  }

  /** The whole output: every element in its place, and the padding as it was.  No block size appears. */
  function Output(p: Problem, before: seq<F>): seq<F>
    requires p.Valid()
  {
    seq<F>(|before|, a requires 0 <= a < |before| => if IsCell(p, a) then CellValue(p, a) else before[a])
  }

  /** `now` is `before` with the elements of these rows and tokens put in their places. */
  ghost predicate Patched(p: Problem, now: seq<F>, before: seq<F>, row0: nat, row1: nat, token0: nat, token1: nat)
    requires p.Valid()
  {
    && |now| == |before|
    && forall a :: 0 <= a < |now| ==>
         now[a] == (if Inside(p, a, row0, row1, token0, token1) then CellValue(p, a) else before[a])
  }

  // ---------------------------------------------------------------- one program

  /** The seam of a program, the same for every element it computes. */
  function ProgramSeam(p: Problem, v: Variant, pr: nat, pt: nat): nat
    requires p.Valid()
  {
    Seam(p.Work(), ProgramTile(p, v, pr, pt))
  }

  /** Both accumulators hold their first `n` blocks. */
  ghost predicate Accumulated(p: Problem, row0: nat, token0: nat, seam: nat, prefix: array2<F>, suffix: array2<F>, n: nat)
    requires n <= p.blocks
    requires prefix.Length0 == suffix.Length0 && prefix.Length1 == suffix.Length1
    reads prefix, suffix
  {
    forall i, j :: 0 <= i < prefix.Length0 && 0 <= j < prefix.Length1 ==>
      && prefix[i, j] == Prefix(p.ops, Terms(p, row0 + i, token0 + j), seam, n)
      && suffix[i, j] == Suffix(p.ops, Terms(p, row0 + i, token0 + j), seam, n)
  }

  lemma NextBlock(p: Problem, row: nat, token: nat, seam: nat, block: nat)
    requires block < p.blocks
    ensures var c := Terms(p, row, token);
      && Prefix(p.ops, c, seam, block + 1) == p.ops.add(Prefix(p.ops, c, seam, block),
           if seam == 0 || block < seam then Contribution(p, row, token, block) else p.ops.zero)
      && Suffix(p.ops, c, seam, block + 1) == p.ops.add(Suffix(p.ops, c, seam, block),
           if seam != 0 && block >= seam then Contribution(p, row, token, block) else p.ops.zero)
  {
    hide Contribution;
  }

  /** One element's part of a block: the integer dot product, then the weight scale, then the activation scale. */
  method BlockTerm(p: Problem, row: nat, token: nat, block: nat) returns (c: F)
    ensures c == Contribution(p, row, token, block)
  {
    hide Half.ToSingle;
    var record, activation := row * p.blocks + block, block / 4 * p.nTok + token;
    var dot := 0;
    var k := 0;
    while k < 32
      invariant 0 <= k <= 32 && dot == Dot(p, row, token, block, k)
    {
      var packed := p.wQs(record * 18 + k % 16);
      var nibble := if k < 16 then packed % 16 else packed / 16;
      var q8 := if token < p.nTok then p.xQs(activation * 144 + block % 4 * 32 + k) else 0;
      dot := dot + (nibble - 8) * q8;
      k := k + 1;
    }
    var d4 := Half.ToSingle(p.wD(record * 9));
    var d8: F := if token < p.nTok then p.xD(activation * 36 + block % 4) else 0;
    c := p.ops.mul(p.ops.mul(p.ops.ofInt(dot), d4), d8);
  }

  /** The tile's parts of one block. */
  method BlockTerms(p: Problem, row0: nat, token0: nat, block: nat, m: nat, n: nat) returns (c: array2<F>)
    ensures fresh(c) && c.Length0 == m && c.Length1 == n
    ensures forall i, j :: 0 <= i < m && 0 <= j < n ==> c[i, j] == Contribution(p, row0 + i, token0 + j, block)
  {
    hide Contribution;
    c := new F[m, n];
    for i := 0 to m
      invariant forall k, j :: 0 <= k < i && 0 <= j < n ==> c[k, j] == Contribution(p, row0 + k, token0 + j, block)
    {
      for l := 0 to n
        invariant forall k, j :: 0 <= k < i && 0 <= j < n ==> c[k, j] == Contribution(p, row0 + k, token0 + j, block)
        invariant forall j :: 0 <= j < l ==> c[i, j] == Contribution(p, row0 + i, token0 + j, block)
      {
        c[i, l] := BlockTerm(p, row0 + i, token0 + l, block);
      }
    }
  }

  /** One block added into both accumulators. */
  method Accumulate(p: Problem, row0: nat, token0: nat, seam: nat, prefix: array2<F>, suffix: array2<F>, block: nat)
    requires block < p.blocks && prefix != suffix
    requires prefix.Length0 == suffix.Length0 && prefix.Length1 == suffix.Length1
    requires Accumulated(p, row0, token0, seam, prefix, suffix, block)
    modifies prefix, suffix
    ensures Accumulated(p, row0, token0, seam, prefix, suffix, block + 1)
  {
    hide Contribution, Terms, Prefix, Suffix;
    forall i, j | 0 <= i < prefix.Length0 && 0 <= j < prefix.Length1
      ensures
        && Prefix(p.ops, Terms(p, row0 + i, token0 + j), seam, block + 1) == p.ops.add(prefix[i, j],
             if seam == 0 || block < seam then Contribution(p, row0 + i, token0 + j, block) else p.ops.zero)
        && Suffix(p.ops, Terms(p, row0 + i, token0 + j), seam, block + 1) == p.ops.add(suffix[i, j],
             if seam != 0 && block >= seam then Contribution(p, row0 + i, token0 + j, block) else p.ops.zero)
    {
      NextBlock(p, row0 + i, token0 + j, seam, block);
    }
    var terms := BlockTerms(p, row0, token0, block, prefix.Length0, prefix.Length1);
    forall i, j | 0 <= i < prefix.Length0 && 0 <= j < prefix.Length1 {
      prefix[i, j] := p.ops.add(prefix[i, j],
                                if seam == 0 || block < seam then terms[i, j] else p.ops.zero);
    }
    forall i, j | 0 <= i < suffix.Length0 && 0 <= j < suffix.Length1 {
      suffix[i, j] := p.ops.add(suffix[i, j],
                                if seam != 0 && block >= seam then terms[i, j] else p.ops.zero);
    }
  }

  ghost predicate Computed(p: Problem, v: Variant, pr: nat, pt: nat, acc: array2<F>)
    requires p.Valid()
    reads acc
  {
    && acc.Length0 == v.m && acc.Length1 == v.n
    && forall i, j :: 0 <= i < v.m && 0 <= j < v.n ==> acc[i, j] == Element(p, pr * v.m + i, pt * v.n + j)
  }

  /** The final fold of one element, from its two accumulators. */
  lemma FoldedElement(p: Problem, v: Variant, pr: nat, pt: nat, prefix: array2<F>, suffix: array2<F>, i: nat, j: nat)
    requires p.Valid() && v.Valid() && i < v.m && j < v.n
    requires prefix.Length0 == suffix.Length0 == v.m && prefix.Length1 == suffix.Length1 == v.n
    requires Accumulated(p, pr * v.m, pt * v.n, ProgramSeam(p, v, pr, pt), prefix, suffix, p.blocks)
    ensures Element(p, pr * v.m + i, pt * v.n + j) ==
      if ProgramSeam(p, v, pr, pt) != 0 then p.ops.add(suffix[i, j], prefix[i, j]) else prefix[i, j]
  {
    hide Terms, Prefix, Suffix, Seam;
    ProgramTileIsNative(p, v, pr, pt, i, j);
  }

  method Fold(p: Problem, v: Variant, pr: nat, pt: nat, prefix: array2<F>, suffix: array2<F>) returns (acc: array2<F>)
    requires p.Valid() && v.Valid()
    requires prefix.Length0 == suffix.Length0 == v.m && prefix.Length1 == suffix.Length1 == v.n
    requires Accumulated(p, pr * v.m, pt * v.n, ProgramSeam(p, v, pr, pt), prefix, suffix, p.blocks)
    ensures fresh(acc) && Computed(p, v, pr, pt, acc)
  {
    hide Element, ProgramSeam, Accumulated;
    var seam := ProgramSeam(p, v, pr, pt);
    forall i, j | 0 <= i < v.m && 0 <= j < v.n
      ensures Element(p, pr * v.m + i, pt * v.n + j) ==
        if seam != 0 then p.ops.add(suffix[i, j], prefix[i, j]) else prefix[i, j]
    {
      FoldedElement(p, v, pr, pt, prefix, suffix, i, j);
    }
    acc := new F[v.m, v.n]((i, j) => 0);
    forall i, j | 0 <= i < v.m && 0 <= j < v.n {
      acc[i, j] := if seam != 0 then p.ops.add(suffix[i, j], prefix[i, j]) else prefix[i, j];
    }
  }

  /** The seam from the program's own numbers. */
  method ProgramSeamIs(p: Problem, v: Variant, pr: nat, pt: nat) returns (seam: nat)
    requires p.Valid()
    ensures seam == ProgramSeam(p, v, pr, pt)
  {
    hide Seam;
    var nativeTokens := (p.nTok + 127) / 128;
    var tile := pr * v.m / 128 * nativeTokens + pt * v.n / 128;
    seam := LocateSeam(p.Work(), tile);
  }

  method Compute(p: Problem, v: Variant, pr: nat, pt: nat) returns (acc: array2<F>)
    requires p.Valid() && v.Valid()
    ensures fresh(acc) && Computed(p, v, pr, pt, acc)
  {
    hide Terms, ProgramSeam, Computed;
    var row0, token0 := pr * v.m, pt * v.n;
    var seam := ProgramSeamIs(p, v, pr, pt);
    var prefix := new F[v.m, v.n]((i, j) => p.ops.zero);
    var suffix := new F[v.m, v.n]((i, j) => p.ops.zero);
    var block := 0;
    while block < p.blocks
      invariant 0 <= block <= p.blocks
      invariant Accumulated(p, row0, token0, seam, prefix, suffix, block)
    {
      Accumulate(p, row0, token0, seam, prefix, suffix, block);
      block := block + 1;
    }
    acc := Fold(p, v, pr, pt, prefix, suffix);
  }

  function Least(a: nat, b: nat): nat {
    if a < b then a else b
  }

  /** No other address holds the element. */
  lemma OnlyAddress(p: Problem, row: nat, token: nat, a: nat)
    requires p.Valid() && row < p.nOut
    ensures Inside(p, a, row, row + 1, token, token + 1) <==> a == token * p.stride + row
  {
    Address(p, row, token);
    assert a == a / p.stride * p.stride + a % p.stride;
  }

  /** Storing one element extends a patched column by a row. */
  lemma StoreExtends(p: Problem, now: seq<F>, next: seq<F>, before: seq<F>, row0: nat, row: nat, token: nat)
    requires p.Valid() && row0 <= row < p.nOut && Patched(p, now, before, row0, row, token, token + 1)
    requires token * p.stride + row < |now| && next == now[token * p.stride + row := Element(p, row, token)]
    ensures Patched(p, next, before, row0, row + 1, token, token + 1)
  {
    hide Element;
    Address(p, row, token);
    forall a | 0 <= a < |now|
      ensures next[a] == (if Inside(p, a, row0, row + 1, token, token + 1) then CellValue(p, a) else before[a])
    {
      OnlyAddress(p, row, token, a);
    }
  }

  method StoreColumn(p: Problem, row0: nat, token: nat, acc: array2<F>, j: nat, y: array<F>)
    requires p.Valid() && row0 + acc.Length0 <= p.nOut && p.nTok * p.stride <= y.Length && token < p.nTok
    requires j < acc.Length1
    requires forall i :: 0 <= i < acc.Length0 ==> acc[i, j] == Element(p, row0 + i, token)
    modifies y
    ensures Patched(p, y[..], old(y[..]), row0, row0 + acc.Length0, token, token + 1)
  {
    hide Element, Patched, Inside;
    var i := 0;
    NothingPatched(p, y[..], row0, row0, token, token + 1);
    while i < acc.Length0
      invariant 0 <= i <= acc.Length0
      invariant Patched(p, y[..], old(y[..]), row0, row0 + i, token, token + 1)
    {
      AddressFits(p, row0 + i, token, y.Length);
      ghost var now := y[..];
      y[token * p.stride + (row0 + i)] := acc[i, j];
      StoreExtends(p, now, y[..], old(y[..]), row0, row0 + i, token);
      i := i + 1;
    }
  }

  lemma NothingPatched(p: Problem, now: seq<F>, row0: nat, row1: nat, token0: nat, token1: nat)
    requires p.Valid() && (row0 == row1 || token0 >= token1)
    ensures Patched(p, now, now, row0, row1, token0, token1)
  {}

  lemma ColumnExtends(p: Problem, before: seq<F>, now: seq<F>, next: seq<F>, row0: nat, row1: nat, token0: nat, token: nat)
    requires p.Valid() && token0 <= token
    requires Patched(p, now, before, row0, row1, token0, token) && Patched(p, next, now, row0, row1, token, token + 1)
    ensures Patched(p, next, before, row0, row1, token0, token + 1)
  {
    hide CellValue;
  }

  /** The masked store of a computed tile. */
  method Store(p: Problem, row0: nat, token0: nat, acc: array2<F>, y: array<F>)
    requires p.Valid() && row0 + acc.Length0 <= p.nOut && p.nTok * p.stride <= y.Length
    requires forall i, j :: 0 <= i < acc.Length0 && 0 <= j < acc.Length1 ==> acc[i, j] == Element(p, row0 + i, token0 + j)
    modifies y
    ensures Patched(p, y[..], old(y[..]), row0, row0 + acc.Length0, token0, Least(token0 + acc.Length1, p.nTok))
  {
    hide Element, Patched;
    var j := 0;
    NothingPatched(p, y[..], row0, row0 + acc.Length0, token0, Least(token0, p.nTok));
    while j < acc.Length1
      invariant 0 <= j <= acc.Length1
      invariant Patched(p, y[..], old(y[..]), row0, row0 + acc.Length0, token0, Least(token0 + j, p.nTok))
    {
      if token0 + j < p.nTok {
        ghost var now := y[..];
        StoreColumn(p, row0, token0 + j, acc, j, y);
        ColumnExtends(p, old(y[..]), now, y[..], row0, row0 + acc.Length0, token0, token0 + j);
      }
      j := j + 1;
    }
  }

  /** A program writes its own rows and valid tokens, each with its element, and nothing else. */
  method Program(p: Problem, v: Variant, pr: nat, pt: nat, y: array<F>)
    requires p.Valid() && v.Valid() && (pr + 1) * v.m <= p.nOut && p.nTok * p.stride <= y.Length
    modifies y
    ensures Patched(p, y[..], old(y[..]), pr * v.m, pr * v.m + v.m, pt * v.n, Least(pt * v.n + v.n, p.nTok))
  {
    hide Element, Patched;
    assert (pr + 1) * v.m == pr * v.m + v.m;
    var acc := Compute(p, v, pr, pt);
    Store(p, pr * v.m, pt * v.n, acc, y);
  }

  // ---------------------------------------------------------------- the launch

  function Grid(p: Problem, v: Variant): set<(nat, nat)>
    requires v.Valid()
  {
    set pr: nat, pt: nat | pr < (p.nOut + v.m - 1) / v.m && pt < (p.nTok + v.n - 1) / v.n :: (pr, pt)
  }

  /** The one program of a launch that computes an address's element. */
  function HomeOf(p: Problem, v: Variant, a: nat): (nat, nat)
    requires p.Valid() && v.Valid()
  {
    (RowOf(p, a) / v.m, TokenOf(p, a) / v.n)
  }

  lemma BlockOf(x: nat, m: nat, i: nat)
    requires m > 0
    ensures i * m <= x < i * m + m <==> x / m == i
  {
    Quotient(x, m);
    assert (i + 1) * m == i * m + m;
    if i * m <= x < i * m + m {
      Remainder(x, m, i, x - i * m);
    }
  }

  lemma ProgramCells(p: Problem, v: Variant, pr: nat, pt: nat, a: nat)
    requires p.Valid() && v.Valid() && (pr + 1) * v.m <= p.nOut
    ensures Inside(p, a, pr * v.m, pr * v.m + v.m, pt * v.n, Least(pt * v.n + v.n, p.nTok))
      <==> IsCell(p, a) && HomeOf(p, v, a) == (pr, pt)
  {
    hide RowOf, TokenOf;
    assert (pr + 1) * v.m == pr * v.m + v.m;
    BlockOf(RowOf(p, a), v.m, pr);
    BlockOf(TokenOf(p, a), v.n, pt);
  }

  lemma BlockCount(x: nat, n: nat, m: nat)
    requires m > 0
    ensures x < n ==> x / m < (n + m - 1) / m
  {
    Quotient(x, m);
    Quotient(n + m - 1, m);
    var q, c := x / m, (n + m - 1) / m;
    assert (c + 1) * m == c * m + m;
    if c <= q {
      MulMono(c, q, m);
    }
  }

  /** Every element has a program, and every program's rows are all output rows. */
  lemma GridCovers(p: Problem, v: Variant, a: nat)
    requires p.Valid() && v.Valid() && IsCell(p, a)
    ensures HomeOf(p, v, a) in Grid(p, v)
  {
    BlockCount(RowOf(p, a), p.nOut, v.m);
    BlockCount(TokenOf(p, a), p.nTok, v.n);
  }

  lemma WholeRows(p: Problem, v: Variant, pr: nat)
    requires p.Valid() && v.Valid() && pr < (p.nOut + v.m - 1) / v.m
    ensures (pr + 1) * v.m <= p.nOut
  {
    var c := 128 / v.m;
    var q := p.nOut / 128;
    assert 128 == c * v.m;
    assert p.nOut == q * 128;
    MulAssoc(q, c, v.m);
    Remainder(p.nOut + v.m - 1, v.m, q * c, v.m - 1);
    MulMono(pr + 1, q * c, v.m);
  }

  /** The elements of every program no longer in `todo` are in place. */
  ghost predicate Progress(p: Problem, v: Variant, now: seq<F>, before: seq<F>, todo: set<(nat, nat)>)
    requires p.Valid() && v.Valid()
  {
    && |now| == |before|
    && forall a :: 0 <= a < |now| ==>
         now[a] == (if IsCell(p, a) && HomeOf(p, v, a) !in todo then CellValue(p, a) else before[a])
  }

  lemma ProgramAdvances(p: Problem, v: Variant, before: seq<F>, now: seq<F>, next: seq<F>, todo: set<(nat, nat)>, pr: nat, pt: nat)
    requires p.Valid() && v.Valid() && (pr + 1) * v.m <= p.nOut && Progress(p, v, now, before, todo)
    requires Patched(p, next, now, pr * v.m, pr * v.m + v.m, pt * v.n, Least(pt * v.n + v.n, p.nTok))
    ensures Progress(p, v, next, before, todo - {(pr, pt)})
  {
    hide CellValue, Inside, IsCell, HomeOf;
    forall a | 0 <= a < |next|
      ensures next[a] == (if IsCell(p, a) && HomeOf(p, v, a) !in todo - {(pr, pt)} then CellValue(p, a) else before[a])
    {
      ProgramCells(p, v, pr, pt, a);
    }
  }

  lemma LaunchBegins(p: Problem, v: Variant, before: seq<F>)
    requires p.Valid() && v.Valid()
    ensures Progress(p, v, before, before, Grid(p, v))
  {
    hide Grid, IsCell, HomeOf;
    forall a | 0 <= a < |before| && IsCell(p, a) ensures HomeOf(p, v, a) in Grid(p, v) {
      GridCovers(p, v, a);
    }
  }

  /** The programs of a launch, in any order, leave every element in its place and the padding alone. */
  method Launch(p: Problem, v: Variant, y: array<F>)
    requires p.Valid() && v.Valid() && p.nTok * p.stride <= y.Length
    modifies y
    ensures y[..] == Output(p, old(y[..]))
  {
    hide Patched, Grid, IsCell, CellValue, HomeOf;
    var todo := Grid(p, v);
    LaunchBegins(p, v, y[..]);
    while todo != {}
      invariant todo <= Grid(p, v)
      invariant Progress(p, v, y[..], old(y[..]), todo)
      decreases |todo|
    {
      var next :| next in todo;
      InGrid(p, v, next);
      WholeRows(p, v, next.0);
      ghost var now := y[..];
      Program(p, v, next.0, next.1, y);
      ProgramAdvances(p, v, old(y[..]), now, y[..], todo, next.0, next.1);
      todo := todo - {next};
    }
  }

  lemma InGrid(p: Problem, v: Variant, next: (nat, nat))
    requires v.Valid() && next in Grid(p, v)
    ensures next.0 < (p.nOut + v.m - 1) / v.m
  {}

  /** A launch's output is the elements at their addresses, and is not any other sequence. */
  lemma OutputIsElements(p: Problem, before: seq<F>, row: nat, token: nat)
    requires p.Valid() && row < p.nOut && token < p.nTok && p.nTok * p.stride <= |before|
    ensures token * p.stride + row < |before| && Output(p, before)[token * p.stride + row] == Element(p, row, token)
  {
    hide Element;
    AddressFits(p, row, token, |before|);
    Address(p, row, token);
  }
}
