/**
 Where a position's row lives in the host KV cache: the ring, page-table and identity rules, and on
 which positions each of them keeps two rows apart.
 */
module KvRule {
  import opened Numbers

  const PAGE := 64

  /** The addressing rule of one side of one layer; `base` is the live region's first row. */
  datatype Rule = Ring(size: nat, base: nat) | Paged(table: seq<nat>) | Flat

  /** Bitwise and. */
  function And(a: nat, b: nat): nat {
    if a == 0 || b == 0 then 0 else 2 * And(a / 2, b / 2) + (a % 2) * (b % 2)
  }

  lemma AndNothing(pos: nat)
    ensures And(pos, 0) == 0 && And(0, pos) == 0
  {}

  /** Masking with a power of two less one is the remainder. */
  lemma {:induction false} MaskIsMod(pos: nat, k: nat)
    ensures And(pos, Pow2(k) - 1) == pos % Pow2(k)
  {
    hide And;
    AndNothing(pos);
    AndNothing(Pow2(k) - 1);
    if pos == 0 {
      Remainder(0, Pow2(k), 0, 0);
    } else if k > 0 {
      var half := Pow2(k - 1);
      MaskIsMod(pos / 2, k - 1);
      HalfMod(pos, half);
      AndStep(pos, half);
    }
  }

  lemma AndStep(pos: nat, half: nat)
    requires pos > 0 && half > 0
    ensures And(pos, 2 * half - 1) == 2 * And(pos / 2, half - 1) + pos % 2
  {
    assert (2 * half - 1) / 2 == half - 1 && (2 * half - 1) % 2 == 1;
  }

  lemma HalfMod(pos: nat, half: nat)
    requires half > 0
    ensures pos % (2 * half) == 2 * (pos / 2 % half) + pos % 2
  {
    var q, r := pos / 2 / half, pos / 2 % half;
    assert pos == 2 * (q * half + r) + pos % 2;
    Remainder(pos, 2 * half, q, 2 * r + pos % 2);
  }

  /** The page of `pos` is in the table; the source indexes past the table's end otherwise. */
  predicate Mapped(rule: Rule, pos: nat) {
    rule.Paged? ==> pos / PAGE < |rule.table|
  }

  function SlotOf(rule: Rule, pos: nat): nat
    requires Mapped(rule, pos)
  {
    match rule
    case Ring(size, base) => base + (if size == 0 then 0 else And(pos, size - 1))
    case Paged(table) => table[pos / PAGE] * PAGE + And(pos, PAGE - 1)
    case Flat => pos
  }

  lemma RingSlot(k: nat, base: nat, pos: nat)
    ensures SlotOf(Ring(Pow2(k), base), pos) == base + pos % Pow2(k)
  {
    MaskIsMod(pos, k);
  }

  lemma PagedSlot(table: seq<nat>, pos: nat)
    requires Mapped(Paged(table), pos)
    ensures SlotOf(Paged(table), pos) == table[pos / PAGE] * PAGE + pos % PAGE
  {
    assert Pow2(6) == 64;
    MaskIsMod(pos, 6);
  }

  /** No two positions from `a` up to `b` share a slot. */
  ghost predicate Apart(rule: Rule, a: nat, b: nat) {
    && (forall p: nat :: p < b ==> Mapped(rule, p))
    && (forall p: nat, q: nat :: a <= p < q < b ==> SlotOf(rule, p) != SlotOf(rule, q))
  }

  lemma RingCollides(k: nat, base: nat, p: nat, q: nat)
    requires p < q
    ensures SlotOf(Ring(Pow2(k), base), p) == SlotOf(Ring(Pow2(k), base), q) <==> (q - p) % Pow2(k) == 0
  {
    RingSlot(k, base, p);
    RingSlot(k, base, q);
    SameRemainder(p, q, Pow2(k));
  }

  /** A power-of-two ring keeps an interval of positions apart exactly when it is long enough. */
  lemma RingApart(k: nat, base: nat, a: nat, b: nat)
    requires a <= b
    ensures Apart(Ring(Pow2(k), base), a, b) <==> b - a <= Pow2(k)
  {
    hide And, Pow2;
    var m := Pow2(k);
    forall p: nat, q: nat | a <= p < q < b && b - a <= m
      ensures SlotOf(Ring(m, base), p) != SlotOf(Ring(m, base), q)
    {
      RingCollides(k, base, p, q);
      Remainder(q - p, m, 0, q - p);
    }
    if b - a > m {
      RingCollides(k, base, a, a + m);
      Remainder(m, m, 1, 0);
      assert SlotOf(Ring(m, base), a) == SlotOf(Ring(m, base), a + m);
    }
  }

  predicate Injective(table: seq<nat>) {
    forall i, j :: 0 <= i < j < |table| ==> table[i] != table[j]
  }

  /** A page table keeps all its positions apart exactly when it names no block twice. */
  lemma PagedApart(table: seq<nat>)
    ensures Apart(Paged(table), 0, |table| * PAGE) <==> Injective(table)
  {
    var rule := Paged(table);
    forall p: nat, q: nat | p < q < |table| * PAGE
      ensures SlotOf(rule, p) == SlotOf(rule, q) <==> table[p / PAGE] == table[q / PAGE] && p % PAGE == q % PAGE
    {
      PagedSlot(table, p);
      PagedSlot(table, q);
    }
    if !Injective(table) {
      var i, j :| 0 <= i < j < |table| && table[i] == table[j];
      assert SlotOf(rule, i * PAGE) == SlotOf(rule, j * PAGE);
    }
  }
}
