/** The order of texts, code by code. */
module Lex {
  predicate LexLe(a: seq<nat>, b: seq<nat>) {
    a == [] || (b != [] && if a[0] == b[0] then LexLe(a[1..], b[1..]) else a[0] < b[0])
  }

  lemma {:induction false} LexOrder(a: seq<nat>, b: seq<nat>)
    ensures LexLe(a, b) || LexLe(b, a)
    ensures LexLe(a, b) && LexLe(b, a) ==> a == b
  {
    if a != [] && b != [] && a[0] == b[0] {
      LexOrder(a[1..], b[1..]);
      assert a == [a[0]] + a[1..] && b == [b[0]] + b[1..];
    }
  }

  lemma {:induction false} LexTransitive(a: seq<nat>, b: seq<nat>, c: seq<nat>)
    requires LexLe(a, b) && LexLe(b, c)
    ensures LexLe(a, c)
  {
    if a != [] && b != [] && c != [] && a[0] == b[0] == c[0] {
      LexTransitive(a[1..], b[1..], c[1..]);
    }
  }

  /** The first difference decides, and a text comes before every longer one it begins. */
  lemma {:induction false} LexDecides(c: seq<nat>, a: seq<nat>, b: seq<nat>)
    requires a != [] && b != [] && a[0] != b[0]
    ensures LexLe(c + a, c + b) <==> a[0] < b[0]
    ensures LexLe(c, c + a) && !LexLe(c + a, c)
    decreases |c|
  {
    if c == [] {
      assert c + a == a && c + b == b;
    } else {
      LexDecides(c[1..], a, b);
      assert (c + a)[1..] == c[1..] + a && (c + b)[1..] == c[1..] + b;
    }
  }
}
