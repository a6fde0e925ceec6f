/**
 What an output element is as a number: where no operation rounds, the sum over all columns of the
 dequantized weight times the dequantized activation, each read from its buffers.
 */
module MmqProduct {
  import opened MmqFold
  import opened StreamK
  import Half

  /** A reading of the patterns as numbers. */
  type Value = F -> real

  /** A product, named so that equal factors are seen to give equal products. */
  function Times(a: real, b: real): real {
    a * b
  }

  /** Section 4.3 of IEEE 754-2019: an operation is exact whenever its result is one of the numbers `rep`. */
  ghost predicate ExactWhereRepresentable(o: Ops, val: Value, rep: real -> bool) {
    && val(o.zero) == 0.0
    && (forall n: int :: rep(n as real) ==> val(o.ofInt(n)) == n as real)
    && (forall x: F, y: F :: rep(Times(val(x), val(y))) ==> val(o.mul(x, y)) == Times(val(x), val(y)))
    && forall x: F, y: F :: rep(val(x) + val(y)) ==> val(o.add(x, y)) == val(x) + val(y)
  }

  lemma MulIsExact(o: Ops, val: Value, rep: real -> bool, x: F, y: F, a: real, b: real)
    requires ExactWhereRepresentable(o, val, rep) && val(x) == a && val(y) == b && rep(Times(a, b))
    ensures val(o.mul(x, y)) == Times(a, b)
  {
    hide Times;
  }

  lemma AddIsExact(o: Ops, val: Value, rep: real -> bool, x: F, y: F, sum: real)
    requires ExactWhereRepresentable(o, val, rep) && val(x) + val(y) == sum && rep(sum)
    ensures val(o.add(x, y)) == sum
  {}

  lemma IntIsExact(o: Ops, val: Value, rep: real -> bool, n: int)
    requires ExactWhereRepresentable(o, val, rep) && rep(n as real)
    ensures val(o.ofInt(n)) == n as real
  {}

  lemma ZeroIsZero(o: Ops, val: Value, rep: real -> bool)
    requires ExactWhereRepresentable(o, val, rep)
    ensures val(o.zero) == 0.0
  {}

  // ---------------------------------------------------------------- the operands, column by column

  /** The four-bit weight of column `c`, without its bias: a record holds 32 columns in 16 bytes. */
  function Nibble(p: Problem, row: nat, c: nat): nat {
    var b := p.wQs((row * p.blocks + c / 32) * 18 + c % 16);
    if c % 32 < 16 then b % 16 else b / 16
  }

  function Int8At(p: Problem, token: nat, c: nat): int {
    p.xQs((c / 128 * p.nTok + token) * 144 + c % 128)
  }

  function WeightScale(p: Problem, val: Value, row: nat, c: nat): real {
    val(Half.ToSingle(p.wD((row * p.blocks + c / 32) * 9)))
  }

  function ActivationScale(p: Problem, val: Value, token: nat, c: nat): real {
    val(p.xD((c / 128 * p.nTok + token) * 36 + c / 32 % 4))
  }

  function Weight(p: Problem, val: Value, row: nat, c: nat): real {
    WeightScale(p, val, row, c) * (Nibble(p, row, c) - 8) as real
  }

  function Activation(p: Problem, val: Value, token: nat, c: nat): real {
    ActivationScale(p, val, token, c) * Int8At(p, token, c) as real
  }

  /** The product of a weight row and an activation column over the columns from `a` up to `b`. */
  function Product(p: Problem, val: Value, row: nat, token: nat, a: nat, b: nat): real
    requires a <= b
    decreases b
  {
    if a == b then 0.0
    else Product(p, val, row, token, a, b - 1) + Weight(p, val, row, b - 1) * Activation(p, val, token, b - 1)
  }

  /** The integer part of the first `n` columns of a block. */
  function Whole(p: Problem, row: nat, token: nat, block: nat, n: nat): int {
    if n == 0 then 0
    else
      var c := 32 * block + n - 1;
      Whole(p, row, token, block, n - 1) + (Nibble(p, row, c) - 8) * Int8At(p, token, c)
  }

  // ---------------------------------------------------------------- one block

  lemma ColumnOf(block: nat, k: nat)
    requires k < 32
    ensures var c := 32 * block + k;
      && c / 32 == block && c % 32 == k && c % 16 == k % 16
      && c / 128 == block / 4 && c % 128 == block % 4 * 32 + k
  {
    var c := 32 * block + k;
    assert block == block / 4 * 4 + block % 4;
    assert c == 128 * (block / 4) + (block % 4 * 32 + k);
  }

  lemma OperandsAt(p: Problem, row: nat, token: nat, block: nat, k: nat)
    requires token < p.nTok && k < 32
    ensures Q4(p, row, block, k) == Nibble(p, row, 32 * block + k) - 8
    ensures Q8(p, token, block, k) == Int8At(p, token, 32 * block + k)
  {
    ColumnOf(block, k);
  }

  lemma ScalesAt(p: Problem, val: Value, row: nat, token: nat, block: nat, k: nat)
    requires token < p.nTok && k < 32
    ensures WeightScale(p, val, row, 32 * block + k) == val(Scale4(p, row, block))
    ensures ActivationScale(p, val, token, 32 * block + k) == val(Scale8(p, token, block))
  {
    hide Half.ToSingle;
    ColumnOf(block, k);
  }

  lemma {:induction false} DotIsWhole(p: Problem, row: nat, token: nat, block: nat, n: nat)
    requires token < p.nTok && n <= 32
    ensures Dot(p, row, token, block, n) == Whole(p, row, token, block, n)
  {
    hide Q4, Q8, Nibble, Int8At;
    if n > 0 {
      DotIsWhole(p, row, token, block, n - 1);
      OperandsAt(p, row, token, block, n - 1);
    }
  }

  lemma Regroup(n: int, w: int, x: int, s: real, t: real)
    ensures n as real * s * t + (s * w as real) * (t * x as real) == (n + w * x) as real * s * t
  {
    var a, b, c := n as real, w as real, x as real;
    assert (w * x) as real == b * c;
    assert (s * b) * (t * c) == (b * c) * (s * t);
    assert a * s * t == a * (s * t);
    assert (a + b * c) * s * t == (a + b * c) * (s * t);
  }

  /** The scales of a block stand outside the sum over its columns. */
  lemma {:induction false} BlockProduct(p: Problem, val: Value, row: nat, token: nat, block: nat, n: nat)
    requires token < p.nTok && n <= 32
    ensures Product(p, val, row, token, 32 * block, 32 * block + n) ==
      Whole(p, row, token, block, n) as real * val(Scale4(p, row, block)) * val(Scale8(p, token, block))
  {
    hide Nibble, Int8At, WeightScale, ActivationScale, Scale4, Scale8;
    if n > 0 {
      var c := 32 * block + n - 1;
      BlockProduct(p, val, row, token, block, n - 1);
      ScalesAt(p, val, row, token, block, n - 1);
      Regroup(Whole(p, row, token, block, n - 1), Nibble(p, row, c) - 8, Int8At(p, token, c),
              val(Scale4(p, row, block)), val(Scale8(p, token, block)));
    }
  }

  /** No operation of one block rounds. */
  predicate BlockRepresentable(p: Problem, val: Value, rep: real -> bool, row: nat, token: nat, block: nat) {
    var n := Whole(p, row, token, block, 32) as real;
    var s, t := WeightScale(p, val, row, 32 * block), ActivationScale(p, val, token, 32 * block);
    rep(n) && rep(Times(n, s)) && rep(Times(Times(n, s), t))
  }

  lemma BlockValue(p: Problem, val: Value, rep: real -> bool, row: nat, token: nat, block: nat)
    requires token < p.nTok && ExactWhereRepresentable(p.ops, val, rep) && BlockRepresentable(p, val, rep, row, token, block)
    ensures val(Contribution(p, row, token, block)) == Product(p, val, row, token, 32 * block, 32 * block + 32)
  {
    hide Whole, Dot, Product, Scale4, Scale8, WeightScale, ActivationScale, ExactWhereRepresentable;
    DotIsWhole(p, row, token, block, 32);
    ScalesAt(p, val, row, token, block, 0);
    BlockProduct(p, val, row, token, block, 32);
    var n := Whole(p, row, token, block, 32);
    var d, s, t := p.ops.ofInt(n), Scale4(p, row, block), Scale8(p, token, block);
    IntIsExact(p.ops, val, rep, n);
    MulIsExact(p.ops, val, rep, d, s, n as real, val(s));
    MulIsExact(p.ops, val, rep, p.ops.mul(d, s), t, Times(n as real, val(s)), val(t));
  }

  // ---------------------------------------------------------------- the folds

  lemma {:induction false} ProductJoins(p: Problem, val: Value, row: nat, token: nat, a: nat, b: nat, c: nat)
    requires a <= b <= c
    ensures Product(p, val, row, token, a, c) == Product(p, val, row, token, a, b) + Product(p, val, row, token, b, c)
    decreases c
  {
    hide Weight, Activation;
    if b < c {
      ProductJoins(p, val, row, token, a, b, c - 1);
    }
  }

  /** No operation of an element rounds: not in a block, and not in the running sum of either segment. */
  predicate NothingRounds(p: Problem, val: Value, rep: real -> bool, row: nat, token: nat, seam: nat) {
    && (forall b: nat :: b < p.blocks ==> BlockRepresentable(p, val, rep, row, token, b))
    && (forall n: nat :: n <= p.blocks ==> rep(Product(p, val, row, token, 0, 32 * n)))
    && (forall n: nat :: seam <= n <= p.blocks ==> rep(Product(p, val, row, token, 32 * seam, 32 * n)))
  }

  lemma {:induction false} PrefixValue(p: Problem, val: Value, rep: real -> bool, row: nat, token: nat, seam: nat, n: nat)
    requires token < p.nTok && seam < p.blocks && n <= p.blocks
    requires ExactWhereRepresentable(p.ops, val, rep) && NothingRounds(p, val, rep, row, token, seam)
    ensures val(Prefix(p.ops, Terms(p, row, token), seam, n)) ==
      Product(p, val, row, token, 0, 32 * if seam == 0 || n < seam then n else seam)
  {
    hide Product, Contribution, BlockRepresentable, ExactWhereRepresentable;
    NoColumns(p, val, row, token, 0);
    ZeroIsZero(p.ops, val, rep);
    if n > 0 {
      PrefixValue(p, val, rep, row, token, seam, n - 1);
      var before := Prefix(p.ops, Terms(p, row, token), seam, n - 1);
      if seam == 0 || n - 1 < seam {
        BlockValue(p, val, rep, row, token, n - 1);
        ProductJoins(p, val, row, token, 0, 32 * (n - 1), 32 * n);
        AddIsExact(p.ops, val, rep, before, Contribution(p, row, token, n - 1), Product(p, val, row, token, 0, 32 * n));
      } else {
        AddIsExact(p.ops, val, rep, before, p.ops.zero, Product(p, val, row, token, 0, 32 * seam));
      }
    }
  }

  lemma NoColumns(p: Problem, val: Value, row: nat, token: nat, a: nat)
    ensures Product(p, val, row, token, a, a) == 0.0
  {}

  lemma {:induction false} SuffixValue(p: Problem, val: Value, rep: real -> bool, row: nat, token: nat, seam: nat, n: nat)
    requires token < p.nTok && 0 < seam < p.blocks && n <= p.blocks
    requires ExactWhereRepresentable(p.ops, val, rep) && NothingRounds(p, val, rep, row, token, seam)
    ensures val(Suffix(p.ops, Terms(p, row, token), seam, n)) ==
      Product(p, val, row, token, 32 * seam, 32 * if n < seam then seam else n)
  {
    hide Product, Contribution, BlockRepresentable, ExactWhereRepresentable;
    NoColumns(p, val, row, token, 32 * seam);
    NoColumns(p, val, row, token, 0);
    ZeroIsZero(p.ops, val, rep);
    if n > 0 {
      SuffixValue(p, val, rep, row, token, seam, n - 1);
      var before := Suffix(p.ops, Terms(p, row, token), seam, n - 1);
      if n - 1 >= seam {
        BlockValue(p, val, rep, row, token, n - 1);
        ProductJoins(p, val, row, token, 32 * seam, 32 * (n - 1), 32 * n);
        AddIsExact(p.ops, val, rep, before, Contribution(p, row, token, n - 1), Product(p, val, row, token, 32 * seam, 32 * n));
      } else {
        AddIsExact(p.ops, val, rep, before, p.ops.zero, Product(p, val, row, token, 32 * seam, 32 * seam));
      }
    }
  }

  /**
   The stored element is the product of the dequantized weight row and the dequantized activation column, over
   every column, wherever the seam lies, when none of its operations rounds.
   */
  lemma ElementIsProduct(p: Problem, val: Value, rep: real -> bool, row: nat, token: nat)
    requires p.Valid() && token < p.nTok && ExactWhereRepresentable(p.ops, val, rep)
    requires NothingRounds(p, val, rep, row, token, Seam(p.Work(), p.NativeTile(row, token)))
    ensures val(Element(p, row, token)) == Product(p, val, row, token, 0, 32 * p.blocks)
  {
    hide Product, Contribution, Seam, Terms, Prefix, Suffix, BlockRepresentable, ExactWhereRepresentable;
    var seam := Seam(p.Work(), p.NativeTile(row, token));
    SeamInside(p.Work(), p.NativeTile(row, token));
    PrefixValue(p, val, rep, row, token, seam, p.blocks);
    if seam != 0 {
      SuffixValue(p, val, rep, row, token, seam, p.blocks);
      ProductJoins(p, val, row, token, 0, 32 * seam, 32 * p.blocks);
      var c := Terms(p, row, token);
      AddIsExact(p.ops, val, rep, Suffix(p.ops, c, seam, p.blocks), Prefix(p.ops, c, seam, p.blocks),
                 Product(p, val, row, token, 0, 32 * p.blocks));
    }
  }
}
