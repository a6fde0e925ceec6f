/**
 The hand-written conversions between binary32 and binary16 bit patterns, and what they round to.

 Bit patterns are natural numbers; shifts and masks of the source are the divisions and remainders
 they stand for.  Magnitudes are exact integers: `Mag32` counts units of 2^-149, `Mag16` units of
 2^-24, and the pattern of infinity stands for the next power of two, as section 4.3.1 of
 IEEE 754-2019 has it.
 */
module Half {
  import opened Numbers

  const HALF_INF := 0x7c00

  type Bits32 = n: nat | n < 0x1_0000_0000
  type Bits16 = n: nat | n < 0x1_0000

  /** The index of the top set bit. */
  function Log2(n: nat): (p: nat)
    requires n > 0
    ensures Pow2(p) <= n < Pow2(p + 1)
  {
    if n == 1 then 0 else Log2(n / 2) + 1
  }

  function Sign32(b: Bits32): nat { b / 0x8000_0000 }

  function Exp32(b: Bits32): nat { b / 0x80_0000 % 256 }

  function Mant32(b: Bits32): nat { b % 0x80_0000 }

  /** The narrowed pattern without its sign, from the rebased exponent and the mantissa. */
  function Narrow(exp: int, mant: nat): (g: nat)
    requires mant < 0x80_0000
    ensures g <= HALF_INF
  {
    if exp >= 31 then
      HALF_INF
    else if exp <= 0 then
      if exp < -10 then
        0
      else
        var m := (mant + 0x80_0000) / Pow2(1 - exp);
        SubnormalFits(mant, 1 - exp);
        (m + 0x1000) / 0x2000
    else
      var m := mant + 0x1000;
      if m >= 0x80_0000 then
        if exp + 1 >= 31 then HALF_INF else (exp + 1) * 1024
      else
        exp * 1024 + m / 0x2000
  }

  function FromSingle(b: Bits32): Bits16 {
    Sign32(b) * 0x8000 + Narrow(Exp32(b) - 112, Mant32(b))
  }

  lemma Pow2Even(s: nat)
    requires s >= 1
    ensures Pow2(s) >= 2
  {}

  lemma HalfQuotient(n: nat, d: nat, q: nat)
    requires d >= 2 && q * d <= n
    ensures 2 * q <= n
  {
    MulMono(2, d, q);
  }

  lemma SubnormalFits(mant: nat, s: nat)
    requires mant < 0x80_0000 && s >= 1
    ensures 0 <= ((mant + 0x80_0000) / Pow2(s) + 0x1000) / 0x2000 <= 0x400
  {
    hide Pow2;
    Pow2Even(s);
    var n, d := mant + 0x80_0000, Pow2(s);
    Quotient(n, d);
    var q: nat := n / d;
    HalfQuotient(n, d, q);
    RoundBound(q);
  }

  lemma RoundBound(m: nat)
    requires 2 * m < 0x100_0000
    ensures (m + 0x1000) / 0x2000 <= 0x400
  {}

  function ToSingle(h: Bits16): Bits32 {
    var sign := h / 0x8000 * 0x8000_0000;
    var exp := h / 1024 % 32;
    var mant := h % 1024;
    if exp == 0 then
      if mant == 0 then
        sign
      else
        var p := Log2(mant);
        var field := p + 103;
        SubnormalFraction(mant);
        sign + field * 0x80_0000 + (mant * Pow2(23 - p)) % 0x80_0000
    else if exp == 31 then
      sign + 0x7f80_0000 + mant * 0x2000
    else
      sign + (exp + 112) * 0x80_0000 + mant * 0x2000
  }

  /** A subnormal mantissa, shifted up to its top bit, lies in [2^23, 2^24). */
  lemma SubnormalFraction(mant: nat)
    requires 0 < mant < 1024
    ensures Log2(mant) <= 9
    ensures 0x80_0000 <= mant * Pow2(23 - Log2(mant)) < 0x100_0000
  {
    var p := Log2(mant);
    if p >= 10 {
      Pow2Mono(10, p);
      Powers();
      assert false;
    }
    ShiftUp(mant, p);
  }

  lemma Powers()
    ensures Pow2(9) == 512 && Pow2(10) == 1024 && Pow2(23) == 0x80_0000 && Pow2(24) == 0x100_0000
  {
    Pow2Add(10, 10);
    Pow2Add(20, 3);
    assert Pow2(3) == 8;
  }

  lemma ShiftUp(mant: nat, p: nat)
    requires p <= 23 && Pow2(p) <= mant < Pow2(p + 1)
    ensures 0x80_0000 <= mant * Pow2(23 - p) < 0x100_0000
  {
    var k := Pow2(23 - p);
    Pow2Add(p, 23 - p);
    Pow2Add(p + 1, 23 - p);
    Powers();
    MulMono(Pow2(p), mant, k);
    MulMono(mant + 1, Pow2(p + 1), k);
    assert (mant + 1) * k == mant * k + k;
  }

  // ---------------------------------------------------------------- magnitudes

  function Mag32(b: Bits32): nat {
    if Exp32(b) == 0 then Mant32(b) else (0x80_0000 + Mant32(b)) * Pow2(Exp32(b) - 1)
  }

  predicate Nan32(b: Bits32) {
    Exp32(b) == 255 && Mant32(b) != 0
  }

  /** `g` is a binary16 pattern without its sign. */
  function Mag16(g: nat): nat {
    if g < 1024 then g else (1024 + g % 1024) * Pow2(g / 1024 - 1)
  }

  function Units(g: nat): nat {
    Mag16(g) * Pow2(125)
  }

  function Magnitude(h: Bits16): nat {
    h % 0x8000
  }

  /** `x` lies in the half-open interval that rounds to `g`: from the lower midpoint up to the upper one. */
  predicate RoundsTo(x: nat, g: nat) {
    && g <= HALF_INF
    && (g > 0 ==> Units(g - 1) + Units(g) <= 2 * x)
    && (g < HALF_INF ==> 2 * x < Units(g) + Units(g + 1))
  }

  lemma MagGrows(g: nat)
    ensures Mag16(g) < Mag16(g + 1)
  {
    var e, q := g / 1024, g % 1024;
    if g >= 1024 {
      if q == 1023 {
        assert (g + 1) / 1024 == e + 1 && (g + 1) % 1024 == 0;
        assert Pow2(e) == 2 * Pow2(e - 1);
        MulMono(2047 + 1, 2048, Pow2(e - 1));
      } else {
        assert (g + 1) / 1024 == e && (g + 1) % 1024 == q + 1;
        MulMono(1024 + q + 1, 1024 + q + 1, Pow2(e - 1));
      }
    }
  }

  lemma {:induction false} UnitsMono(f: nat, g: nat)
    requires f <= g
    ensures Units(f) <= Units(g)
    ensures f < g ==> Units(f) < Units(g)
    decreases g - f
  {
    hide Pow2, Mag16;
    if f < g {
      MagGrows(f);
      MulStrict(Mag16(f), Mag16(f + 1), Pow2(125));
      UnitsMono(f + 1, g);
    }
  }

  lemma NormalScale(e: nat)
    requires 1 <= e
    ensures Pow2(e - 1) * Pow2(125) == 0x2000 * Pow2(e + 111) && Pow2(e) == 2 * Pow2(e - 1)
  {
    Thirteen();
    hide Pow2;
    Pow2Add(e - 1, 125);
    Pow2Add(13, e + 111);
    Pow2Add(1, e - 1);
  }

  lemma Thirteen()
    ensures Pow2(13) == 0x2000 && Pow2(1) == 2
  {
    Pow2Add(10, 3);
    Powers();
    assert Pow2(3) == 8;
  }

  lemma NormalUnits(e: nat, q: nat)
    requires 1 <= e && q <= 1024
    ensures Units(e * 1024 + q) == (1024 + q) * (0x2000 * Pow2(e + 111))
  {
    hide Pow2;
    var g := e * 1024 + q;
    NormalScale(e);
    if q < 1024 {
      assert g / 1024 == e && g % 1024 == q;
      MulAssoc(1024 + q, Pow2(e - 1), Pow2(125));
    } else {
      assert g / 1024 == e + 1 && g % 1024 == 0;
      MulAssoc(1024, 2 * Pow2(e - 1), Pow2(125));
      MulAssoc(2048, Pow2(e - 1), Pow2(125));
    }
  }

  lemma AtLeastMidpoint(a: nat, b: nat, x: nat, k: nat)
    requires (a + b) * 0x1000 <= x
    ensures a * (0x2000 * k) + b * (0x2000 * k) <= 2 * (x * k)
  {
    MulMono((a + b) * 0x1000, x, k);
    Spread(a, b, k);
  }

  lemma BelowMidpoint(a: nat, b: nat, x: nat, k: nat)
    requires x < (a + b) * 0x1000 && k > 0
    ensures 2 * (x * k) < a * (0x2000 * k) + b * (0x2000 * k)
  {
    MulStrict(x, (a + b) * 0x1000, k);
    Spread(a, b, k);
  }

  lemma Spread(a: nat, b: nat, k: nat)
    ensures a * (0x2000 * k) + b * (0x2000 * k) == 2 * ((a + b) * 0x1000 * k)
  {
    assert (a + b) * (0x2000 * k) == a * (0x2000 * k) + b * (0x2000 * k);
  }

  lemma NormalRounds(e: nat, mant: nat)
    requires 1 <= e <= 30 && mant < 0x80_0000
    ensures RoundsTo((0x80_0000 + mant) * Pow2(e + 111), e * 1024 + (mant + 0x1000) / 0x2000)
  {
    hide Pow2, Units;
    var q := (mant + 0x1000) / 0x2000;
    var h := e * 1024 + q;
    var k := Pow2(e + 111);
    var x := 0x80_0000 + mant;
    NormalUnits(e, q);
    if q > 0 {
      NormalUnits(e, q - 1);
      AtLeastMidpoint(1024 + q - 1, 1024 + q, x, k);
    } else {
      UnitsMono(h - 1, h);
      AtLeastMidpoint(1024, 1024, x, k);
    }
    if q < 1024 {
      NormalUnits(e, q + 1);
      BelowMidpoint(1024 + q, 1024 + q + 1, x, k);
    } else {
      UnitsMono(h, h + 1);
      BelowMidpoint(2048, 2048, x, k);
    }
  }

  lemma SmallUnits(j: nat, s: nat)
    requires j <= 1025 && s <= 112
    ensures Units(j) == j * (0x2000 * (Pow2(s) * Pow2(112 - s)))
  {
    assert Pow2(0) == 1 && Mag16(j) == j;
    SplitUnit(s);
  }

  lemma SplitUnit(s: nat)
    requires s <= 112
    ensures Pow2(125) == 0x2000 * (Pow2(s) * Pow2(112 - s))
  {
    Powers();
    assert Pow2(13) == 8 * Pow2(10);
    hide Pow2;
    Pow2Add(s, 112 - s);
    Pow2Add(13, 112);
  }

  lemma SubnormalRounds(s: nat, mant: nat)
    requires 1 <= s <= 11 && mant < 0x80_0000
    ensures var q := ((mant + 0x80_0000) / Pow2(s) + 0x1000) / 0x2000;
      q <= 1024 && RoundsTo((0x80_0000 + mant) * Pow2(112 - s), q)
  {
    hide Pow2, Units;
    SubnormalFits(mant, s);
    var x, ps, k := 0x80_0000 + mant, Pow2(s), Pow2(112 - s);
    var q := (x / ps + 0x1000) / 0x2000;
    SmallUnits(q, s);
    if q > 0 {
      SmallUnits(q - 1, s);
      SubnormalLower(x, ps, k, q);
    }
    SmallUnits(q + 1, s);
    SubnormalUpper(x, ps, k, q);
  }

  lemma SubnormalLower(x: nat, ps: nat, k: nat, q: nat)
    requires ps > 0 && q > 0 && q == (x / ps + 0x1000) / 0x2000
    ensures (q - 1) * (0x2000 * (ps * k)) + q * (0x2000 * (ps * k)) <= 2 * (x * k)
  {
    var m := x / ps;
    assert (2 * q - 1) * 0x1000 <= m;
    Quotient(x, ps);
    MulMono((2 * q - 1) * 0x1000, m, ps);
    MulMono((2 * q - 1) * 0x1000 * ps, x, k);
    Grid(2 * q - 1, ps, k);
    Spread(q - 1, q, ps * k);
  }

  lemma SubnormalUpper(x: nat, ps: nat, k: nat, q: nat)
    requires ps > 0 && k > 0 && q == (x / ps + 0x1000) / 0x2000
    ensures 2 * (x * k) < q * (0x2000 * (ps * k)) + (q + 1) * (0x2000 * (ps * k))
  {
    var m := x / ps;
    assert m + 1 <= (2 * q + 1) * 0x1000;
    Quotient(x, ps);
    MulMono(m + 1, (2 * q + 1) * 0x1000, ps);
    MulStrict(x, (2 * q + 1) * 0x1000 * ps, k);
    Grid(2 * q + 1, ps, k);
    Spread(q, q + 1, ps * k);
  }

  lemma Grid(n: nat, ps: nat, k: nat)
    ensures n * 0x1000 * (ps * k) == n * 0x1000 * ps * k
  {}

  /** Below half the smallest subnormal. */
  lemma TinyRounds(x: nat)
    requires x < Pow2(124)
    ensures RoundsTo(x, 0)
  {
    SmallUnits(0, 0);
    SmallUnits(1, 0);
    SplitUnit(0);
    assert Pow2(125) == 2 * Pow2(124);
  }

  /** From the last midpoint up. */
  lemma HugeRounds(x: nat, e: nat)
    requires e >= 31 && x >= 0x80_0000 * Pow2(e + 111)
    ensures RoundsTo(x, HALF_INF)
  {
    hide Pow2, Units;
    NormalUnits(30, 1024);
    UnitsMono(HALF_INF - 1, HALF_INF);
    Pow2Mono(142, e + 111);
    DoublePower(141);
    MulMono(Pow2(142), Pow2(e + 111), 0x80_0000);
  }

  lemma DoublePower(n: nat)
    ensures Pow2(n + 1) == 2 * Pow2(n)
  {}

  // ---------------------------------------------------------------- what the narrowing rounds to

  lemma NarrowRounds(e: nat, mant: nat, x: nat)
    requires mant < 0x80_0000
    requires x == if e == 0 then mant else (0x80_0000 + mant) * Pow2(e - 1)
    ensures RoundsTo(x, Narrow(e - 112, mant))
  {
    hide Pow2, RoundsTo;
    var exp := e - 112;
    if exp >= 31 {
      MulMono(0x80_0000, 0x80_0000 + mant, Pow2(e - 1));
      HugeRounds(x, exp);
    } else if exp >= 1 {
      NormalRounds(exp, mant);
    } else if exp >= -10 {
      SubnormalRounds(1 - exp, mant);
    } else {
      TinyMagnitude(e, mant);
      TinyRounds(x);
    }
  }

  lemma TinyMagnitude(e: nat, mant: nat)
    requires e < 102 && mant < 0x80_0000
    ensures mant < Pow2(124) && (e > 0 ==> (0x80_0000 + mant) * Pow2(e - 1) < Pow2(124))
  {
    Powers();
    hide Pow2;
    Pow2Mono(23, 124);
    if e > 0 {
      Pow2Mono(e - 1, 100);
      Pow2Add(24, 100);
      MulMono(Pow2(e - 1), Pow2(100), 0x80_0000 + mant);
      MulStrict(0x80_0000 + mant, 0x100_0000, Pow2(100));
    }
  }

  /** Every non-NaN input goes to the pattern whose interval holds it, with its sign. */
  lemma FromSingleRounds(b: Bits32)
    requires !Nan32(b)
    ensures RoundsTo(Mag32(b), Magnitude(FromSingle(b)))
    ensures FromSingle(b) / 0x8000 == Sign32(b)
  {
    hide Pow2, RoundsTo, Narrow, Nan32, FromSingle, Magnitude, Sign32, Exp32, Mant32;
    FractionFits(b);
    NarrowRounds(Exp32(b), Mant32(b), Mag32(b));
    SignKept(b);
  }

  lemma FractionFits(b: Bits32)
    ensures Mant32(b) < 0x80_0000
  {}

  /** The sign bit is copied and the other bits are the narrowed magnitude. */
  lemma SignKept(b: Bits32)
    ensures Magnitude(FromSingle(b)) == Narrow(Exp32(b) - 112, Mant32(b)) && FromSingle(b) / 0x8000 == Sign32(b)
  {
    hide Narrow, Exp32, Sign32;
    SignAndMagnitude(Sign32(b), Narrow(Exp32(b) - 112, Mant32(b)));
  }

  lemma SignAndMagnitude(s: nat, g: nat)
    requires g < 0x8000
    ensures (s * 0x8000 + g) / 0x8000 == s && (s * 0x8000 + g) % 0x8000 == g
  {}

  /** A NaN narrows to the infinity of its sign; the patterns above that of infinity are the NaNs. */
  lemma NanNarrows(b: Bits32)
    ensures Nan32(b) <==> b % 0x8000_0000 > 0x7f80_0000
    ensures b % 0x8000_0000 >= 0x7f80_0000 ==> FromSingle(b) == b / 0x8000_0000 * 0x8000 + 0x7c00
  {
    var r := b % 0x8000_0000;
    assert b / 0x80_0000 % 256 == r / 0x80_0000 && b % 0x80_0000 == r % 0x80_0000;
    assert r == r / 0x80_0000 * 0x80_0000 + r % 0x80_0000;
    hide Pow2;
  }

  function Gap(x: nat, y: nat): nat {
    if x < y then y - x else x - y
  }

  /** No binary16 magnitude is nearer, and of two equally near the larger was taken. */
  lemma Nearest(b: Bits32, g: nat)
    requires !Nan32(b) && g <= HALF_INF
    ensures var h := Magnitude(FromSingle(b));
      && Gap(Mag32(b), Units(h)) <= Gap(Mag32(b), Units(g))
      && (Gap(Mag32(b), Units(h)) == Gap(Mag32(b), Units(g)) ==> g <= h)
  {
    hide Units, Mag32, FromSingle;
    var h := Magnitude(FromSingle(b));
    FromSingleRounds(b);
    if g < h {
      UnitsMono(g, h - 1);
      UnitsMono(h - 1, h);
    } else if h < g {
      UnitsMono(h + 1, g);
      UnitsMono(h, h + 1);
    }
  }

  lemma RoundsToOne(x: nat, y: nat, g: nat, h: nat)
    requires x <= y && RoundsTo(x, g) && RoundsTo(y, h)
    ensures g <= h
  {
    hide Units;
    if h < g {
      UnitsMono(h, g - 1);
      UnitsMono(h + 1, g);
    }
  }

  /** Narrowing keeps the order of magnitudes. */
  lemma Monotone(a: Bits32, b: Bits32)
    requires !Nan32(a) && !Nan32(b) && Mag32(a) <= Mag32(b)
    ensures Magnitude(FromSingle(a)) <= Magnitude(FromSingle(b))
  {
    hide RoundsTo, Mag32, FromSingle;
    FromSingleRounds(a);
    FromSingleRounds(b);
    RoundsToOne(Mag32(a), Mag32(b), Magnitude(FromSingle(a)), Magnitude(FromSingle(b)));
  }

  /** Signed values, in the common unit. */
  function Value32(b: Bits32): int {
    var m: int := Mag32(b);
    if Sign32(b) == 0 then m else -m
  }

  function Value16(h: Bits16): int {
    var m: int := Units(Magnitude(h));
    if h / 0x8000 == 0 then m else -m
  }

  lemma ZeroStaysZero(b: Bits32)
    requires !Nan32(b) && Mag32(b) == 0
    ensures Units(Magnitude(FromSingle(b))) == 0
  {
    hide Mag32, FromSingle, Units;
    var h := Magnitude(FromSingle(b));
    FromSingleRounds(b);
    NoUnits();
    if h > 0 {
      UnitsMono(h - 1, h);
    }
  }

  lemma NoUnits()
    ensures Units(0) == 0
  {}

  /** Narrowing keeps the order of all values, signs and infinities included. */
  lemma KeepsOrder(a: Bits32, b: Bits32)
    requires !Nan32(a) && !Nan32(b) && Value32(a) <= Value32(b)
    ensures Value16(FromSingle(a)) <= Value16(FromSingle(b))
  {
    hide Mag32, FromSingle, Units, Nan32, Magnitude;
    FromSingleRounds(a);
    FromSingleRounds(b);
    if Mag32(a) <= Mag32(b) {
      Monotone(a, b);
      UnitsMono(Magnitude(FromSingle(a)), Magnitude(FromSingle(b)));
    }
    if Mag32(b) <= Mag32(a) {
      Monotone(b, a);
      UnitsMono(Magnitude(FromSingle(b)), Magnitude(FromSingle(a)));
    }
    if Mag32(a) == 0 && Mag32(b) == 0 {
      ZeroStaysZero(a);
      ZeroStaysZero(b);
    }
  }

  // ---------------------------------------------------------------- widening, and there and back

  lemma Fields(sign: nat, e: nat, m: nat)
    requires sign < 2 && e < 256 && m < 0x80_0000
    ensures var b := sign * 0x8000_0000 + e * 0x80_0000 + m;
      b < 0x1_0000_0000 && Sign32(b) == sign && Exp32(b) == e && Mant32(b) == m
  {}

  /** The fields of a widened pattern. */
  function Widened(h: Bits16): (f: (nat, nat, nat))
    ensures f.0 < 2 && f.1 < 256 && f.2 < 0x80_0000
    ensures ToSingle(h) == f.0 * 0x8000_0000 + f.1 * 0x80_0000 + f.2
  {
    var e, m := h / 1024 % 32, h % 1024;
    if e == 0 then
      if m == 0 then (h / 0x8000, 0, 0)
      else
        SubnormalFraction(m);
        (h / 0x8000, Log2(m) + 103, m * Pow2(23 - Log2(m)) % 0x80_0000)
    else if e == 31 then (h / 0x8000, 255, m * 0x2000)
    else (h / 0x8000, e + 112, m * 0x2000)
  }

  lemma SubnormalValue(m: nat)
    requires 0 < m < 1024
    ensures Log2(m) <= 9
    ensures (0x80_0000 + m * Pow2(23 - Log2(m)) % 0x80_0000) * Pow2(Log2(m) + 102) == m * Pow2(125)
  {
    var p := Log2(m);
    SubnormalFraction(m);
    hide Pow2, Log2;
    Pow2Add(23 - p, p + 102);
    MulAssoc(m, Pow2(23 - p), Pow2(p + 102));
  }

  /** Widening a finite pattern is exact. */
  lemma WidenExact(h: Bits16)
    requires Magnitude(h) < HALF_INF
    ensures Mag32(ToSingle(h)) == Units(Magnitude(h)) && Sign32(ToSingle(h)) == h / 0x8000 && !Nan32(ToSingle(h))
  {
    hide Pow2, ToSingle, Log2;
    var f := Widened(h);
    Fields(f.0, f.1, f.2);
    var e, m := h / 1024 % 32, h % 1024;
    assert Magnitude(h) == e * 1024 + m;
    if e > 0 {
      NormalUnits(e, m);
      MulAssoc(1024 + m, 0x2000, Pow2(e + 111));
    } else if m > 0 {
      SubnormalValue(m);
    }
  }

  lemma GridPointRounds(g: nat)
    requires g <= HALF_INF
    ensures RoundsTo(Units(g), g)
  {
    hide Units;
    if g > 0 {
      UnitsMono(g - 1, g);
    }
    UnitsMono(g, g + 1);
  }

  /** binary16 to binary32 and back is the identity exactly on the patterns that are not NaN. */
  lemma RoundTrip(h: Bits16)
    ensures FromSingle(ToSingle(h)) == h <==> Magnitude(h) <= HALF_INF
  {
    var g := Magnitude(h);
    if g < HALF_INF {
      hide Pow2, ToSingle, Units, RoundsTo, Mag32, Narrow;
      WidenExact(h);
      FromSingleRounds(ToSingle(h));
      GridPointRounds(g);
      var b := ToSingle(h);
      RoundsToOne(Mag32(b), Units(g), Magnitude(FromSingle(b)), g);
      RoundsToOne(Units(g), Mag32(b), g, Magnitude(FromSingle(b)));
    } else {
      hide FromSingle, ToSingle;
      LargeRoundTrip(h);
    }
  }

  lemma LargeRoundTrip(h: Bits16)
    requires Magnitude(h) >= HALF_INF
    ensures FromSingle(ToSingle(h)) == h <==> Magnitude(h) == HALF_INF
  {
    hide Pow2, ToSingle, Log2;
    var f := Widened(h);
    Fields(f.0, f.1, f.2);
    assert h / 1024 % 32 == 31;
  }

  // ---------------------------------------------------------------- ties

  predicate Midpoint(x: nat, g: nat) {
    g < HALF_INF && 2 * x == Units(g) + Units(g + 1)
  }

  /** What section 4.3.1 of IEEE 754-2019 calls roundTiesToEven. */
  predicate TiesToEven(x: nat, g: nat) {
    && g <= HALF_INF
    && (g > 0 ==> Units(g - 1) + Units(g) < 2 * x || (Midpoint(x, g - 1) && g % 2 == 0))
    && (g < HALF_INF ==> 2 * x < Units(g) + Units(g + 1) || (Midpoint(x, g) && g % 2 == 0))
  }

  /** Rounding to even names one pattern. */
  lemma TiesToEvenIsOne(x: nat, g: nat, h: nat)
    requires TiesToEven(x, g) && TiesToEven(x, h)
    ensures g == h
  {
    hide Units;
    if g < h {
      TiesApart(x, g, h);
    } else if h < g {
      TiesApart(x, h, g);
    }
  }

  lemma TiesApart(x: nat, g: nat, h: nat)
    requires g < h && TiesToEven(x, g)
    ensures !TiesToEven(x, h)
  {
    hide Units;
    UnitsMono(g + 1, h);
    if g + 1 < h {
      UnitsMono(g, h - 1);
      StrictlyMore(g + 1, h);
    }
  }

  lemma StrictlyMore(g: nat, h: nat)
    requires g < h
    ensures Units(g) < Units(h)
  {
    UnitsMono(g, h);
  }

  /** The narrowing rounds to even except where the input is midway above an even pattern. */
  lemma EvenExceptOnTies(b: Bits32)
    requires !Nan32(b)
    ensures TiesToEven(Mag32(b), Magnitude(FromSingle(b))) <==> !exists g: nat :: g % 2 == 0 && Midpoint(Mag32(b), g)
  {
    hide Units, Mag32, FromSingle;
    var x, h := Mag32(b), Magnitude(FromSingle(b));
    FromSingleRounds(b);
    forall g: nat | Midpoint(x, g) ensures g + 1 == h {
      TieGoesUp(x, g, h);
    }
    if h > 0 {
      assert Midpoint(x, h - 1) <==> Units(h - 1) + Units(h) == 2 * x;
    }
  }

  lemma TieGoesUp(x: nat, g: nat, h: nat)
    requires Midpoint(x, g) && RoundsTo(x, h)
    ensures h == g + 1
  {
    hide Units;
    UnitsMono(g, g + 1);
    if h <= g {
      UnitsMono(h, g);
      UnitsMono(h + 1, g + 1);
    } else if h > g + 1 {
      UnitsMono(g, h - 1);
      UnitsMono(g + 1, h);
    }
  }

  /** 1 + 2^-11 lies midway between 1 and its successor: rounding to even would give 1. */
  lemma OneAndAHalfUlp()
    ensures FromSingle(0x3f80_1000) == 0x3c01 && Midpoint(Mag32(0x3f80_1000), 0x3c00)
  {
    hide Pow2, Mag32, Units;
    assert Exp32(0x3f80_1000) == 127 && Mant32(0x3f80_1000) == 0x1000;
    OneIsMidway();
  }

  lemma OneIsMidway()
    ensures Midpoint(Mag32(0x3f80_1000), 0x3c00)
  {
    hide Pow2, Units;
    NormalUnits(15, 0);
    NormalUnits(15, 1);
  }
}
