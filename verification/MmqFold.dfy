/**
 One output element of the Q4_0 x Q8_1 product: what its 32-value blocks contribute, and the two orders
 of adding them up around a Stream-K seam.  The floating-point operations are any functions.
 */
module MmqFold {
  import opened Numbers
  import opened StreamK
  import Half

  type F = Half.Bits32
  type Byte = b: nat | b < 256
  type Int8 = i: int | -128 <= i < 128

  datatype Ops = Ops(ofInt: int -> F, mul: (F, F) -> F, add: (F, F) -> F, zero: F)

  /** The launch arguments: the four operand buffers and the extents. */
  datatype Problem = Problem(
    ops: Ops,
    wQs: nat -> Byte,
    wD: nat -> Half.Bits16,
    xQs: nat -> Int8,
    xD: nat -> F,
    blocks: nat,
    nOut: nat,
    nTok: nat,
    stride: nat,
    grid: nat)
  {
    predicate Valid() {
      blocks > 0 && nOut > 0 && nOut % 128 == 0 && nTok > 0 && grid > 0 && stride >= nOut
    }

    function TokenTiles(): nat {
      (nTok + 127) / 128
    }

    function Work(): (w: Work)
      requires Valid()
      ensures w.Defined()
    {
      MulPositive(nOut / 128, TokenTiles());
      StreamK.Work(nOut / 128 * TokenTiles(), blocks, grid)
    }

    /** The 128 x 128 tile of the native kernel that holds an element. */
    function NativeTile(row: nat, token: nat): nat {
      row / 128 * TokenTiles() + token / 128
    }
  }

  /** Valid elements lie in tiles below the tile count, and share a tile exactly when they share a 128 x 128 block. */
  lemma TileNumbers(p: Problem, row: nat, token: nat, row': nat, token': nat)
    requires p.Valid() && row < p.nOut && token < p.nTok && row' < p.nOut && token' < p.nTok
    ensures p.NativeTile(row, token) < p.Work().tiles
    ensures p.NativeTile(row, token) == p.NativeTile(row', token') <==> row / 128 == row' / 128 && token / 128 == token' / 128
  {
    var n := p.TokenTiles();
    assert token / 128 < n && token' / 128 < n && row / 128 < p.nOut / 128;
    MulMono(row / 128 + 1, p.nOut / 128, n);
    assert (row / 128 + 1) * n == row / 128 * n + n;
    Remainder(p.NativeTile(row, token), n, row / 128, token / 128);
    Remainder(p.NativeTile(row', token'), n, row' / 128, token' / 128);
  }

  /** And every tile below the count holds one. */
  lemma TilesAreUsed(p: Problem, tile: nat)
    requires p.Valid() && tile < p.Work().tiles
    ensures exists row: nat, token: nat :: row < p.nOut && token < p.nTok && p.NativeTile(row, token) == tile
  {
    var n := p.TokenTiles();
    var r, t := tile / n, tile % n;
    Quotient(tile, n);
    if r >= p.nOut / 128 {
      MulMono(p.nOut / 128, r, n);
    }
    assert 128 * r < p.nOut && 128 * t < p.nTok;
    assert p.NativeTile(128 * r, 128 * t) == tile;
  }

  // ---------------------------------------------------------------- one block's contribution

  /** The k-th of a record's 32 four-bit weights: low nibbles first, biased by eight. */
  function Q4(p: Problem, row: nat, block: nat, k: nat): (q: int)
    ensures -8 <= q < 8
  {
    var packed := p.wQs((row * p.blocks + block) * 18 + k % 16);
    (if k < 16 then packed % 16 else packed / 16) - 8
  }

  /** The k-th of a block's 32 activations; a token past the end reads as zero. */
  function Q8(p: Problem, token: nat, block: nat, k: nat): Int8 {
    if token < p.nTok then p.xQs((block / 4 * p.nTok + token) * 144 + block % 4 * 32 + k) else 0
  }

  function Dot(p: Problem, row: nat, token: nat, block: nat, n: nat): int {
    if n == 0 then 0 else Dot(p, row, token, block, n - 1) + Q4(p, row, block, n - 1) * Q8(p, token, block, n - 1)
  }

  /** A packed byte: weight k in the low nibble, weight k + 16 in the high one. */
  function Packed(low: int, high: int): Byte
    requires -8 <= low < 8 && -8 <= high < 8
  {
    low + 8 + 16 * (high + 8)
  }

  /** The 32 weights packed into a record's 16 bytes are the ones the kernel multiplies. */
  lemma Q4Unpacks(p: Problem, row: nat, block: nat, weights: seq<int>, k: nat)
    requires |weights| == 32 && (forall i :: 0 <= i < 32 ==> -8 <= weights[i] < 8) && k < 32
    requires forall i: nat :: i < 16 ==> p.wQs((row * p.blocks + block) * 18 + i) == Packed(weights[i], weights[i + 16])
    ensures Q4(p, row, block, k) == weights[k]
  {
    var i := k % 16;
    assert p.wQs((row * p.blocks + block) * 18 + i) == Packed(weights[i], weights[i + 16]);
    assert k < 16 ==> i == k;
    assert k >= 16 ==> i == k - 16;
  }

  lemma SmallProduct(a: int, b: int)
    requires -8 <= a < 8 && -128 <= b < 128
    ensures -1024 <= a * b <= 1024
  {
    if a >= 0 {
      assert a * b <= a * 128 && a * -128 <= a * b;
    } else {
      assert -a * b <= -a * 128 && -a * -128 <= -a * b;
    }
  }

  /** The integer part of a block never leaves a 32-bit accumulator. */
  lemma {:induction false} DotFits(p: Problem, row: nat, token: nat, block: nat, n: nat)
    requires n <= 32
    ensures -1024 * n <= Dot(p, row, token, block, n) <= 1024 * n
    ensures -0x8000_0000 <= Dot(p, row, token, block, n) < 0x8000_0000
  {
    hide Q4, Q8;
    if n > 0 {
      DotFits(p, row, token, block, n - 1);
      SmallProduct(Q4(p, row, block, n - 1), Q8(p, token, block, n - 1));
    }
  }

  function Scale4(p: Problem, row: nat, block: nat): F {
    Half.ToSingle(p.wD((row * p.blocks + block) * 9))
  }

  function Scale8(p: Problem, token: nat, block: nat): F {
    if token < p.nTok then p.xD((block / 4 * p.nTok + token) * 36 + block % 4) else 0
  }

  function Contribution(p: Problem, row: nat, token: nat, block: nat): F {
    p.ops.mul(p.ops.mul(p.ops.ofInt(Dot(p, row, token, block, 32)), Scale4(p, row, block)), Scale8(p, token, block))
  }

  function Terms(p: Problem, row: nat, token: nat): (c: seq<F>)
    ensures |c| == p.blocks
  {
    seq<F>(p.blocks, b requires 0 <= b < p.blocks => Contribution(p, row, token, b))
  }

  // ---------------------------------------------------------------- two folds

  function Total(o: Ops, c: seq<F>): F {
    if c == [] then o.zero else o.add(Total(o, c[..|c| - 1]), c[|c| - 1])
  }

  /** The kernel's accumulators after `n` blocks: each block adds to one of them and zero to the other. */
  function Prefix(o: Ops, c: seq<F>, seam: nat, n: nat): F
    requires n <= |c|
  {
    if n == 0 then o.zero
    else o.add(Prefix(o, c, seam, n - 1), if seam == 0 || n - 1 < seam then c[n - 1] else o.zero)
  }

  function Suffix(o: Ops, c: seq<F>, seam: nat, n: nat): F
    requires n <= |c|
  {
    if n == 0 then o.zero
    else o.add(Suffix(o, c, seam, n - 1), if seam != 0 && n - 1 >= seam then c[n - 1] else o.zero)
  }

  function KernelFold(o: Ops, c: seq<F>, seam: nat): F {
    if seam != 0 then o.add(Suffix(o, c, seam, |c|), Prefix(o, c, seam, |c|)) else Prefix(o, c, seam, |c|)
  }

  /** What two workers leave behind: the later segment's sum, plus the earlier one's. */
  function SegmentFold(o: Ops, c: seq<F>, seam: nat): F
    requires seam <= |c|
  {
    if seam != 0 then o.add(Total(o, c[seam..]), Total(o, c[..seam])) else Total(o, c)
  }

  /** Adding zero to a sum that started at zero changes nothing, as in section 6.3 of IEEE 754-2019. */
  ghost predicate ZeroNeutral(o: Ops) {
    forall c: seq<F> :: o.add(Total(o, c), o.zero) == Total(o, c)
  }

  lemma {:induction false} PrefixIsTotal(o: Ops, c: seq<F>, seam: nat, n: nat)
    requires ZeroNeutral(o) && n <= |c| && seam <= |c|
    ensures Prefix(o, c, seam, n) == Total(o, c[..if seam == 0 || n < seam then n else seam])
  {
    if n > 0 {
      PrefixIsTotal(o, c, seam, n - 1);
      assert c[..n][..n - 1] == c[..n - 1];
    }
  }

  lemma {:induction false} SuffixIsTotal(o: Ops, c: seq<F>, seam: nat, n: nat)
    requires ZeroNeutral(o) && 0 < seam <= |c| && n <= |c|
    ensures Suffix(o, c, seam, n) == if n <= seam then o.zero else Total(o, c[seam..n])
  {
    if n > 0 {
      SuffixIsTotal(o, c, seam, n - 1);
      if n <= seam {
        assert Total(o, []) == o.zero;
      } else {
        assert c[seam..n][..n - 1 - seam] == c[seam..n - 1];
        assert n - 1 == seam ==> c[seam..n - 1] == [];
      }
    }
  }

  /** Selecting between two accumulators adds up exactly the two segments. */
  lemma KernelFoldIsSegments(o: Ops, c: seq<F>, seam: nat)
    requires ZeroNeutral(o) && seam < |c|
    ensures KernelFold(o, c, seam) == SegmentFold(o, c, seam)
  {
    PrefixIsTotal(o, c, seam, |c|);
    assert c[..|c|] == c;
    if seam != 0 {
      SuffixIsTotal(o, c, seam, |c|);
    }
  }

  // ---------------------------------------------------------------- the native walk

  /** The element the kernel stores. */
  function Element(p: Problem, row: nat, token: nat): F
    requires p.Valid()
  {
    KernelFold(p.ops, Terms(p, row, token), Seam(p.Work(), p.NativeTile(row, token)))
  }

  lemma SeamInside(w: Work, tile: nat)
    requires w.Defined()
    ensures Seam(w, tile) < w.blocks
  {}

  lemma ScanStep(w: Work, tile: nat, k: nat)
    requires w.Sparse() && 1 <= k < w.grid
    ensures Aligned(w, k) / w.blocks == tile ==> Scan(w, tile, k) == 0 && Scan(w, tile, k + 1) == Aligned(w, k) % w.blocks
    ensures Aligned(w, k) / w.blocks != tile ==> Scan(w, tile, k + 1) == Scan(w, tile, k)
  {
    hide Aligned, Worker;
    if Aligned(w, k) / w.blocks == tile {
      SeamIsOffset(w, tile, k);
      ScanMisses(w, tile, k);
    }
  }

  /** The latest boundary of `tile` before `end`, by looking at every worker's. */
  method SegmentBegin(w: Work, tile: nat, end: nat) returns (begin: nat)
    requires w.Sparse()
    ensures begin == if Seam(w, tile) < end then Seam(w, tile) else 0
  {
    hide Aligned, Scan, Seam;
    begin := 0;
    assert Scan(w, tile, 1) == 0 by {
      NothingScanned(w, tile);
    }
    var bi := 1;
    while bi < w.grid
      invariant 1 <= bi <= w.grid
      invariant begin == if Scan(w, tile, bi) < end then Scan(w, tile, bi) else 0
    {
      ScanStep(w, tile, bi);
      var boundary := Aligned(w, bi);
      if boundary / w.blocks == tile {
        var kb := boundary % w.blocks;
        if kb < end {
          begin := if begin < kb then kb else begin;
        }
      }
      bi := bi + 1;
    }
    SeamIsScan(w, tile);
  }

  lemma NothingScanned(w: Work, tile: nat)
    requires w.Defined()
    ensures Scan(w, tile, 1) == 0
  {}

  /** Walking a tile's segments from the last to the first gives the two-segment sum. */
  method WalkSegments(o: Ops, w: Work, tile: nat, c: seq<F>) returns (result: F)
    requires w.Sparse() && |c| == w.blocks
    ensures Seam(w, tile) < |c| && result == SegmentFold(o, c, Seam(w, tile))
  {
    hide Seam, Total;
    SeamInside(w, tile);
    ghost var seam := Seam(w, tile);
    var end := w.blocks;
    var suffixPhase, split := true, false;
    var suffix, partial := o.zero, o.zero;
    while end > 0
      invariant end == w.blocks || end == seam || end == 0
      invariant suffixPhase <==> end == w.blocks
      invariant !suffixPhase ==> split == (seam != 0) && suffix == Total(o, c[seam..])
      invariant end == 0 && seam != 0 ==> partial == Total(o, c[..seam])
    {
      var begin := SegmentBegin(w, tile, end);
      if suffixPhase {
        split := begin != 0;
      }
      partial := Total(o, c[begin..end]);
      assert end == w.blocks ==> c[begin..end] == c[begin..];
      assert begin == 0 ==> c[begin..end] == c[..end];
      if suffixPhase {
        suffix := partial;
      }
      suffixPhase := false;
      end := begin;
    }
    assert c[0..] == c;
    result := if split then o.add(suffix, partial) else suffix;
  }

  /** The kernel stores the two-segment sum at its seam, which is what `WalkSegments` returns. */
  lemma ElementIsNative(p: Problem, row: nat, token: nat)
    requires p.Valid() && ZeroNeutral(p.ops)
    ensures Seam(p.Work(), p.NativeTile(row, token)) < p.blocks
    ensures Element(p, row, token) ==
      SegmentFold(p.ops, Terms(p, row, token), Seam(p.Work(), p.NativeTile(row, token)))
  {
    hide Terms, Seam;
    SeamInside(p.Work(), p.NativeTile(row, token));
    KernelFoldIsSegments(p.ops, Terms(p, row, token), Seam(p.Work(), p.NativeTile(row, token)));
  }
}
