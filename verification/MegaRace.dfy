/**
 Memory shared by the threadgroups of one dispatch, and why threadgroups that do not race leave the same
 memory in whatever order their operations interleave.
 */
module MegaRace {
  type Mem = seq<int>

  /** One store: a value computed from some cells, put in one cell. */
  datatype Op = Op(target: nat, loads: seq<nat>, f: seq<int> -> int)

  predicate Fits(o: Op, size: nat) {
    o.target < size && forall i :: 0 <= i < |o.loads| ==> o.loads[i] < size
  }

  predicate AllFit(ops: seq<Op>, size: nat) {
    forall i :: 0 <= i < |ops| ==> Fits(ops[i], size)
  }

  function Inputs(m: Mem, o: Op): seq<int>
    requires Fits(o, |m|)
  {
    seq(|o.loads|, i requires 0 <= i < |o.loads| => m[o.loads[i]])
  }

  function Exec(m: Mem, o: Op): (r: Mem)
    requires Fits(o, |m|)
    ensures |r| == |m|
  {
    m[o.target := o.f(Inputs(m, o))]
  }

  /** An operation puts the value of its function, on what the cells it loads hold, in its cell and nowhere else. */
  lemma StoresOnce(m: Mem, o: Op, values: seq<int>, a: nat)
    requires Fits(o, |m|) && |values| == |o.loads| && a < |m|
    requires forall i :: 0 <= i < |values| ==> values[i] == m[o.loads[i]]
    ensures Exec(m, o)[a] == if a == o.target then o.f(values) else m[a]
  {
    assert Inputs(m, o) == values;
  }

  function RunOps(m: Mem, ops: seq<Op>): (r: Mem)
    requires AllFit(ops, |m|)
    ensures |r| == |m|
  {
    if ops == [] then m else Exec(RunOps(m, ops[..|ops| - 1]), ops[|ops| - 1])
  }

  // ---------------------------------------------------------------- races

  predicate Writes(ops: seq<Op>, a: nat) {
    exists i :: 0 <= i < |ops| && ops[i].target == a
  }

  predicate Touches(ops: seq<Op>, a: nat) {
    exists i :: 0 <= i < |ops| && (ops[i].target == a || a in ops[i].loads)
  }

  /** What one threadgroup writes, no other threadgroup reads or writes. */
  ghost predicate RaceFree(ops: seq<seq<Op>>) {
    forall t, u, a: nat :: 0 <= t < |ops| && 0 <= u < |ops| && t != u && Writes(ops[t], a) ==> !Touches(ops[u], a)
  }

  ghost predicate Alone(ops: seq<seq<Op>>, a: nat) {
    forall t :: 0 <= t < |ops| ==> !Writes(ops[t], a)
  }

  /** On everything it touches, a threadgroup sees what it would see alone on `base`. */
  ghost predicate SeesOwn(ops: seq<Op>, base: Mem, done: nat, mem: Mem)
    requires AllFit(ops, |base|)
  {
    && done <= |ops|
    && |mem| == |base|
    && forall a: nat :: a < |base| && Touches(ops, a) ==> mem[a] == RunOps(base, ops[..done])[a]
  }

  ghost predicate Agrees(ops: seq<seq<Op>>, base: Mem, done: seq<nat>, mem: Mem)
    requires Sized(ops, |base|)
  {
    && |done| == |ops|
    && |mem| == |base|
    && (forall t :: 0 <= t < |ops| ==> SeesOwn(ops[t], base, done[t], mem))
    && forall a: nat :: a < |base| && Alone(ops, a) ==> mem[a] == base[a]
  }

  predicate Sized(ops: seq<seq<Op>>, size: nat) {
    forall t :: 0 <= t < |ops| ==> AllFit(ops[t], size)
  }

  lemma AgreesAtFirst(ops: seq<seq<Op>>, base: Mem, done: seq<nat>)
    requires Sized(ops, |base|) && |done| == |ops| && forall t :: 0 <= t < |done| ==> done[t] == 0
    ensures Agrees(ops, base, done, base)
  {}

  lemma SameInputs(ops: seq<Op>, base: Mem, done: nat, mem: Mem)
    requires AllFit(ops, |base|) && done < |ops| && SeesOwn(ops, base, done, mem)
    ensures Inputs(mem, ops[done]) == Inputs(RunOps(base, ops[..done]), ops[done])
  {
    var o := ops[done];
    forall i | 0 <= i < |o.loads| ensures mem[o.loads[i]] == RunOps(base, ops[..done])[o.loads[i]] {
      assert Touches(ops, o.loads[i]);
    }
  }

  lemma OwnStep(ops: seq<Op>, base: Mem, done: nat, mem: Mem)
    requires AllFit(ops, |base|) && done < |ops| && SeesOwn(ops, base, done, mem)
    ensures SeesOwn(ops, base, done + 1, Exec(mem, ops[done]))
  {
    hide Touches, Inputs;
    SameInputs(ops, base, done, mem);
    assert ops[..done + 1][..done] == ops[..done];
  }

  lemma OtherStep(ops: seq<Op>, base: Mem, done: nat, mem: Mem, o: Op)
    requires AllFit(ops, |base|) && SeesOwn(ops, base, done, mem) && Fits(o, |mem|) && !Touches(ops, o.target)
    ensures SeesOwn(ops, base, done, Exec(mem, o))
  {
    hide Touches;
  }

  /** Any threadgroup's next operation keeps the agreement. */
  lemma AgreesStep(ops: seq<seq<Op>>, base: Mem, done: seq<nat>, mem: Mem, t: nat)
    requires Sized(ops, |base|) && RaceFree(ops) && Agrees(ops, base, done, mem)
    requires t < |ops| && done[t] < |ops[t]|
    ensures Fits(ops[t][done[t]], |mem|)
    ensures Agrees(ops, base, done[t := done[t] + 1], Exec(mem, ops[t][done[t]]))
  {
    hide SeesOwn, Touches;
    var o := ops[t][done[t]];
    assert Writes(ops[t], o.target);
    var next := done[t := done[t] + 1];
    forall u | 0 <= u < |ops| ensures SeesOwn(ops[u], base, next[u], Exec(mem, o)) {
      if u == t {
        OwnStep(ops[t], base, done[t], mem);
      } else {
        OtherStep(ops[u], base, done[u], mem, o);
      }
    }
  }

  /** Once every threadgroup is done there is only one memory left. */
  lemma AgreementIsUnique(ops: seq<seq<Op>>, base: Mem, done: seq<nat>, m1: Mem, m2: Mem)
    requires Sized(ops, |base|) && Agrees(ops, base, done, m1) && Agrees(ops, base, done, m2)
    ensures m1 == m2
  {
    forall a: nat | a < |base| ensures m1[a] == m2[a] {
      if !Alone(ops, a) {
        var t :| 0 <= t < |ops| && Writes(ops[t], a);
        assert Touches(ops[t], a);
        assert SeesOwn(ops[t], base, done[t], m1) && SeesOwn(ops[t], base, done[t], m2);
      }
    }
  }

  // ---------------------------------------------------------------- one phase after another

  /** A phase gives every threadgroup its operations. */
  type Work = seq<seq<Op>>

  predicate Shaped(works: seq<Work>, n: nat, size: nat) {
    forall j :: 0 <= j < |works| ==> |works[j]| == n && Sized(works[j], size)
  }

  /** Everything threadgroup `t` does in these phases. */
  function Mine(works: seq<Work>, n: nat, size: nat, t: nat): (ops: seq<Op>)
    requires Shaped(works, n, size) && t < n
    ensures AllFit(ops, size)
  {
    if works == [] then []
    else Mine(works[..|works| - 1], n, size, t) + works[|works| - 1][t]
  }

  function Everyones(works: seq<Work>, n: nat, size: nat): (ops: seq<seq<Op>>)
    requires Shaped(works, n, size)
    ensures |ops| == n && Sized(ops, size)
  {
    seq<seq<Op>>(n, t requires 0 <= t < n => Mine(works, n, size, t))
  }

  /** One phase, threadgroup after threadgroup. */
  function RunWork(m: Mem, w: Work, n: nat): (r: Mem)
    requires n <= |w| && Sized(w, |m|)
    ensures |r| == |m|
  {
    if n == 0 then m else RunOps(RunWork(m, w, n - 1), w[n - 1])
  }

  /** The phases one after another: the reference. */
  function RunWorks(m: Mem, works: seq<Work>, n: nat): (r: Mem)
    requires Shaped(works, n, |m|)
    ensures |r| == |m|
  {
    if works == [] then m else RunWork(RunWorks(m, works[..|works| - 1], n), works[|works| - 1], n)
  }

  /** A stretch of one threadgroup's operations, run without interruption. */
  lemma {:induction false} AgreesStretch(ops: seq<seq<Op>>, base: Mem, done: seq<nat>, mem: Mem, t: nat, x: seq<Op>)
    requires Sized(ops, |base|) && RaceFree(ops) && Agrees(ops, base, done, mem) && t < |ops|
    requires done[t] + |x| <= |ops[t]| && ops[t][done[t]..done[t] + |x|] == x
    ensures AllFit(x, |mem|) && Agrees(ops, base, done[t := done[t] + |x|], RunOps(mem, x))
    decreases |x|
  {
    hide Agrees, RaceFree, Exec, Fits;
    AgreementShape(ops, base, done, mem);
    if x == [] {
      assert done[t := done[t] + 0] == done;
    } else {
      var y := x[..|x| - 1];
      assert ops[t][done[t]..done[t] + |y|] == y;
      AgreesStretch(ops, base, done, mem, t, y);
      var mid := done[t := done[t] + |y|];
      assert x[|x| - 1] == ops[t][mid[t]];
      AgreesStep(ops, base, mid, RunOps(mem, y), t);
      assert mid[t := mid[t] + 1] == done[t := done[t] + |x|];
    }
  }

  lemma AgreementShape(ops: seq<seq<Op>>, base: Mem, done: seq<nat>, mem: Mem)
    requires Sized(ops, |base|) && Agrees(ops, base, done, mem)
    ensures |done| == |ops| && |mem| == |base|
  {}

  /** How far each threadgroup is after the phases `works` and the first `n` threadgroups of phase `w`. */
  function Reached(works: seq<Work>, n: nat, size: nat, w: Work, k: nat): seq<nat>
    requires Shaped(works, n, size) && k <= n == |w| && Sized(w, size)
  {
    seq<nat>(n, t requires 0 <= t < n => |Mine(works, n, size, t)| + if t < k then |w[t]| else 0)
  }

  function Lengths(works: seq<Work>, n: nat, size: nat): seq<nat>
    requires Shaped(works, n, size)
  {
    seq<nat>(n, t requires 0 <= t < n => |Mine(works, n, size, t)|)
  }

  lemma {:induction false} MinePrefix(works: seq<Work>, n: nat, size: nat, j: nat, t: nat)
    requires Shaped(works, n, size) && j < |works| && t < n
    ensures var a, b := |Mine(works[..j], n, size, t)|, |works[j][t]|;
      a + b <= |Mine(works, n, size, t)| && Mine(works, n, size, t)[a..a + b] == works[j][t]
    ensures |Mine(works[..j + 1], n, size, t)| == |Mine(works[..j], n, size, t)| + |works[j][t]|
    decreases |works|
  {
    assert works[..j + 1][..j] == works[..j];
    if j == |works| - 1 {
      assert works[..j + 1] == works;
    } else {
      var most := works[..|works| - 1];
      assert most[..j] == works[..j] && most[..j + 1] == works[..j + 1];
      MinePrefix(most, n, size, j, t);
    }
  }

  /** The reference is one of the interleavings: the first `k` threadgroups of phase `j`. */
  lemma {:induction false} WorkAgrees(works: seq<Work>, n: nat, base: Mem, j: nat, k: nat)
    requires Shaped(works, n, |base|) && RaceFree(Everyones(works, n, |base|)) && j < |works| && k <= n
    requires Agrees(Everyones(works, n, |base|), base, Lengths(works[..j], n, |base|), RunWorks(base, works[..j], n))
    ensures Agrees(Everyones(works, n, |base|), base, Reached(works[..j], n, |base|, works[j], k),
                   RunWork(RunWorks(base, works[..j], n), works[j], k))
    decreases k
  {
    hide Agrees, RaceFree, Mine, RunWorks, RunOps;
    var done := Reached(works[..j], n, |base|, works[j], k);
    if k == 0 {
      assert done == Lengths(works[..j], n, |base|);
    } else {
      WorkAgrees(works, n, base, j, k - 1);
      var before := Reached(works[..j], n, |base|, works[j], k - 1);
      MinePrefix(works, n, |base|, j, k - 1);
      var x := works[j][k - 1];
      AgreesStretch(Everyones(works, n, |base|), base, before, RunWork(RunWorks(base, works[..j], n), works[j], k - 1), k - 1, x);
      assert before[k - 1 := before[k - 1] + |x|] == done;
    }
  }

  lemma {:induction false} WorksAgree(works: seq<Work>, n: nat, base: Mem, j: nat)
    requires Shaped(works, n, |base|) && RaceFree(Everyones(works, n, |base|)) && j <= |works|
    ensures Agrees(Everyones(works, n, |base|), base, Lengths(works[..j], n, |base|), RunWorks(base, works[..j], n))
    decreases j
  {
    hide Agrees, RaceFree;
    if j == 0 {
      AgreesAtFirst(Everyones(works, n, |base|), base, Lengths(works[..0], n, |base|));
    } else {
      WorksAgree(works, n, base, j - 1);
      WorkAgrees(works, n, base, j - 1, n);
      assert works[..j][..j - 1] == works[..j - 1];
      assert Reached(works[..j - 1], n, |base|, works[j - 1], n) == Lengths(works[..j], n, |base|);
    }
  }

  /** Any race-free interleaving that finishes leaves what the phases leave one after another. */
  lemma InterleavingIsReference(works: seq<Work>, n: nat, base: Mem, mem: Mem)
    requires Shaped(works, n, |base|) && RaceFree(Everyones(works, n, |base|))
    requires Agrees(Everyones(works, n, |base|), base, Lengths(works, n, |base|), mem)
    ensures mem == RunWorks(base, works, n)
  {
    hide Agrees, RaceFree, Mine, RunWorks;
    WorksAgree(works, n, base, |works|);
    assert works[..|works|] == works;
    AgreementIsUnique(Everyones(works, n, |base|), base, Lengths(works, n, |base|), mem, RunWorks(base, works, n));
  }
}
