/**
 The four phase lists, over the entry words their conditions read.  Calls are numbered in list order.
 */
module MegaLists {
  import opened MegaRace
  import opened MegaKernel
  import opened MegaOutcome
  import opened MegaProgram

  function Step(when: When, call: nat, barrier: Barrier): Phase {
    Phase.Phase(when, call, false, barrier)
  }

  function Not(c: Condition): Condition {
    e => !c(e)
  }

  function Either(c: Condition, d: Condition): Condition {
    e => c(e) || d(e)
  }

  /** gemma4: projections and head rows, attention and its combine, the output projection, the feed-forward, the tail. */
  function G4Program(qkv: Condition, attn: Condition, front: Condition): (program: seq<Phase>)
    ensures |program| == 12
  {
    [Step(If(qkv), 0, Grid), Step(If(qkv), 1, Grid),
     Phase.Phase(If(attn), 2, true, Grid), Step(If(attn), 3, Grid),
     Step(If(front), 4, Grid), Step(If(front), 5, None), Step(If(Not(front)), 6, None),
     Step(Always, 7, Grid), Step(Always, 8, Grid), Step(Always, 9, Grid), Step(Always, 10, Grid), Step(Always, 11, None)]
  }

  /** LFM2: the operator norm, the short convolution or attention, the feed-forward, the tail. */
  function L2Program(conv: Condition, attn: Condition, oneBody: Condition): (program: seq<Phase>)
    ensures |program| == 13
  {
    [Step(If(Either(conv, attn)), 0, None),
     Step(If(conv), 1, Grid), Step(If(conv), 2, Grid), Step(If(conv), 3, None),
     Step(If(attn), 4, None), Step(If(attn), 5, Grid),
     Phase.Phase(If(attn), 6, true, GridUnlessLocal(oneBody)), Step(If(attn), 7, Grid), Step(If(attn), 8, Grid),
     Step(Always, 9, None), Step(Always, 10, Grid), Step(Always, 11, Grid), Step(Always, 12, None)]
  }

  /** LFM2-MoE: the routed feed-forward, and the next layer's norm when the entry names it. */
  function L2mProgram(hasNext: Condition): (program: seq<Phase>)
    ensures |program| == 5
  {
    [Step(Always, 0, None), Step(Always, 1, Grid), Step(Always, 2, Grid),
     Step(Always, 3, GridUnlessLocal(Not(hasNext))), Step(If(hasNext), 4, None)]
  }

  /** Qwen3.8: the norm, the gated feed-forward, its down projection, the tail. */
  function Q35Program(): (program: seq<Phase>)
    ensures |program| == 4
  {
    [Step(Always, 0, None), Step(Always, 1, Grid), Step(Always, 2, Grid), Step(Always, 3, None)]
  }

  // ---------------------------------------------------------------- grid barriers

  predicate CrossesAfter(p: Phase, e: Entry) {
    Enabled(p, e) && (p.barrier.Grid? || (p.barrier.GridUnlessLocal? && !p.barrier.local(e)))
  }

  /** The grid barriers an entry passes. */
  function GridSteps(program: seq<Phase>, e: Entry, n: nat): nat
    requires n <= |program|
  {
    if n == 0 then 0 else GridSteps(program, e, n - 1) + if CrossesAfter(program[n - 1], e) then 1 else 0
  }

  function CrossedIn(events: seq<Event>): nat {
    if events == [] then 0 else CrossedIn(events[..|events| - 1]) + if events[|events| - 1].Crossed? then 1 else 0
  }

  lemma {:induction false} CrossedAppend(a: seq<Event>, b: seq<Event>)
    ensures CrossedIn(a + b) == CrossedIn(a) + CrossedIn(b)
    decreases |b|
  {
    if b == [] {
      assert a + b == a;
    } else {
      CrossedAppend(a, b[..|b| - 1]);
      assert (a + b)[..|a + b| - 1] == a + b[..|b| - 1];
    }
  }

  lemma CrossedOne(p: Phase, e: Entry)
    ensures CrossedIn(PhaseEvents(p, e)) == if CrossesAfter(p, e) then 1 else 0
  {
    var l := PhaseEvents(p, e);
    if |l| == 1 {
      assert l[..0] == [];
    } else if |l| == 2 {
      var first := [l[0]];
      assert first[..0] == [] && CrossedIn(first) == 0;
      assert l[..1] == first;
    }
  }

  lemma {:induction false} StepsCounted(program: seq<Phase>, e: Entry, n: nat)
    requires n <= |program|
    ensures CrossedIn(Sequence(program[..n], e)) == GridSteps(program, e, n)
  {
    hide PhaseEvents, CrossesAfter;
    if n > 0 {
      StepsCounted(program, e, n - 1);
      assert program[..n][..n - 1] == program[..n - 1];
      CrossedOne(program[n - 1], e);
      CrossedAppend(Sequence(program[..n - 1], e), PhaseEvents(program[n - 1], e));
    }
  }

  function One(b: bool): nat {
    if b then 1 else 0
  }

  lemma StepsUnfold(program: seq<Phase>, e: Entry, n: nat)
    requires n < |program|
    ensures GridSteps(program, e, n + 1) == GridSteps(program, e, n) + One(CrossesAfter(program[n], e))
  {}

  lemma NoSteps(program: seq<Phase>, e: Entry)
    ensures GridSteps(program, e, 0) == 0 && program[..|program|] == program
  {}

  /** gemma4: four grid barriers for the feed-forward, two each for the projections and attention, one for the front. */
  lemma G4Barriers(qkv: Condition, attn: Condition, front: Condition, e: Entry)
    ensures CrossedIn(Sequence(G4Program(qkv, attn, front), e)) == 4 + 2 * One(qkv(e)) + 2 * One(attn(e)) + One(front(e))
  {
    hide Sequence, GridSteps;
    var p := G4Program(qkv, attn, front);
    NoSteps(p, e);
    StepsCounted(p, e, 12);
    StepsUnfold(p, e, 0);
    StepsUnfold(p, e, 1);
    StepsUnfold(p, e, 2);
    StepsUnfold(p, e, 3);
    StepsUnfold(p, e, 4);
    StepsUnfold(p, e, 5);
    StepsUnfold(p, e, 6);
    StepsUnfold(p, e, 7);
    StepsUnfold(p, e, 8);
    StepsUnfold(p, e, 9);
    StepsUnfold(p, e, 10);
    StepsUnfold(p, e, 11);
  }

  /** LFM2: two for a convolution, three for attention and a fourth when the heads were split, two for the feed-forward. */
  lemma L2Barriers(conv: Condition, attn: Condition, oneBody: Condition, e: Entry)
    ensures CrossedIn(Sequence(L2Program(conv, attn, oneBody), e)) ==
      2 + 2 * One(conv(e)) + 3 * One(attn(e)) + One(attn(e) && !oneBody(e))
  {
    hide Sequence, GridSteps;
    var p := L2Program(conv, attn, oneBody);
    NoSteps(p, e);
    StepsCounted(p, e, 13);
    StepsUnfold(p, e, 0);
    StepsUnfold(p, e, 1);
    StepsUnfold(p, e, 2);
    StepsUnfold(p, e, 3);
    StepsUnfold(p, e, 4);
    StepsUnfold(p, e, 5);
    StepsUnfold(p, e, 6);
    StepsUnfold(p, e, 7);
    StepsUnfold(p, e, 8);
    StepsUnfold(p, e, 9);
    StepsUnfold(p, e, 10);
    StepsUnfold(p, e, 11);
    StepsUnfold(p, e, 12);
  }

  /** The routed feed-forward: two grid barriers, and a third when the next layer's norm follows.  Qwen3.8: two. */
  lemma TailBarriers(hasNext: Condition, e: Entry)
    ensures CrossedIn(Sequence(L2mProgram(hasNext), e)) == 2 + One(hasNext(e))
    ensures CrossedIn(Sequence(Q35Program(), e)) == 2
  {
    hide Sequence, GridSteps;
    var p, q := L2mProgram(hasNext), Q35Program();
    NoSteps(p, e);
    StepsCounted(p, e, 5);
    StepsUnfold(p, e, 0);
    StepsUnfold(p, e, 1);
    StepsUnfold(p, e, 2);
    StepsUnfold(p, e, 3);
    StepsUnfold(p, e, 4);
    NoSteps(q, e);
    StepsCounted(q, e, 4);
    StepsUnfold(q, e, 0);
    StepsUnfold(q, e, 1);
    StepsUnfold(q, e, 2);
    StepsUnfold(q, e, 3);
  }

  /** The lists' phases are numbered in list order, and only an attention phase may refuse its entry. */
  lemma CallsAreNumbered(qkv: Condition, attn: Condition, front: Condition, conv: Condition, oneBody: Condition, hasNext: Condition)
    ensures forall i :: 0 <= i < 12 ==>
      var p := G4Program(qkv, attn, front)[i]; p.call == i && (p.fallible <==> i == 2)
    ensures forall i :: 0 <= i < 13 ==>
      var p := L2Program(conv, attn, oneBody)[i]; p.call == i && (p.fallible <==> i == 6)
    ensures forall i :: 0 <= i < 5 ==>
      var p := L2mProgram(hasNext)[i]; p.call == i && !p.fallible
    ensures forall i :: 0 <= i < 4 ==>
      var p := Q35Program()[i]; p.call == i && !p.fallible
  {}

  ghost predicate Listed(program: seq<Phase>) {
    || (exists qkv, attn, front :: program == G4Program(qkv, attn, front))
    || (exists conv, attn, oneBody :: program == L2Program(conv, attn, oneBody))
    || (exists hasNext :: program == L2mProgram(hasNext))
    || program == Q35Program()
  }

  lemma ListedBarriers(program: seq<Phase>, e: Entry)
    requires Listed(program)
    ensures CrossedIn(Sequence(program, e)) <= 9
  {
    hide Sequence, CrossedIn, G4Program, L2Program, L2mProgram, Q35Program;
    if program == Q35Program() {
      TailBarriers(e => false, e);
    } else if hasNext :| program == L2mProgram(hasNext) {
      TailBarriers(hasNext, e);
    } else if conv, attn, oneBody :| program == L2Program(conv, attn, oneBody) {
      L2Barriers(conv, attn, oneBody, e);
    } else {
      var qkv, attn, front :| program == G4Program(qkv, attn, front);
      G4Barriers(qkv, attn, front, e);
    }
  }

  lemma {:induction false} LabelledCrossings(events: seq<Event>, entry: nat)
    ensures Crossings(Labelled(events, entry)) == CrossedIn(events)
  {
    if events != [] {
      LabelledCrossings(events[..|events| - 1], entry);
      var l := Labelled(events, entry);
      assert l[..|l| - 1] == Labelled(events[..|events| - 1], entry);
    }
  }

  /** The grid barriers of a dispatch: those of its entries, and one between each two. */
  lemma {:induction false} ScheduleCrossings(program: seq<Phase>, entries: seq<Entry>, most: nat)
    requires entries != [] && forall e: Entry :: CrossedIn(Sequence(program, e)) <= most
    ensures Crossings(Schedule(program, entries)) + 1 <= (most + 1) * |entries|
  {
    hide Sequence, CrossedIn, Labelled, Crossings;
    var last := |entries| - 1;
    var own := Labelled(Sequence(program, entries[last]), last);
    LabelledCrossings(Sequence(program, entries[last]), last);
    NoCrossings();
    if last > 0 {
      ScheduleCrossings(program, entries[..last], most);
      PhasesAppend(Schedule(program, entries[..last]), [Cross]);
      PhasesAppend(Schedule(program, entries[..last]) + [Cross], own);
      assert (most + 1) * |entries| == (most + 1) * last + (most + 1);
    } else {
      PhasesAppend([], own);
      assert entries[..0] == [] && [] + [] + own == own;
    }
  }

  lemma NoCrossings()
    ensures Crossings([]) == 0 && Crossings([Cross]) == 1
  {
    assert [Cross][..0] == [];
  }

  /**
   The barrier counter of a dispatch of any of the four lists stays below ten arrivals a threadgroup and entry,
   at every step of every run, timeouts and refusals included: in 32 bits it does not wrap while that product fits.
   */
  lemma CounterFits(program: seq<Phase>, entries: seq<Entry>, bodies: Bodies, n: nat, mem: Mem, err: bool, run: seq<(nat, Action)>)
    requires Listed(program) && entries != [] && n > 0 && Fitting(bodies, Schedule(program, entries), n, |mem|)
    requires Allowed(Dispatch(program, entries, bodies, n, |mem|), Begin(Dispatch(program, entries, bodies, n, |mem|), mem, err), run)
    ensures var sys := Dispatch(program, entries, bodies, n, |mem|);
      After(sys, Begin(sys, mem, err), run).ctr + n <= n * (10 * |entries|)
  {
    hide Listed, Sequence, Schedule, CrossedIn, Crossings, Allowed, After, Counted, Stretches, Fitting;
    var sys := Dispatch(program, entries, bodies, n, |mem|);
    forall e: Entry ensures CrossedIn(Sequence(program, e)) <= 9 {
      ListedBarriers(program, e);
    }
    ScheduleCrossings(program, entries, 9);
    RunIsCounted(sys, mem, err, run);
    var s := After(sys, Begin(sys, mem, err), run);
    CounterIsBounded(sys, s);
    Scaled(n, sys.Last() + 1, 10 * |entries|);
  }

  lemma Scaled(n: nat, a: nat, b: nat)
    requires a <= b && a > 0
    ensures n * (a - 1) + n <= n * b
  {
    assert n * (b - a) >= 0;
  }

  // ---------------------------------------------------------------- where an entry may be refused

  /** Nothing has run since the last grid barrier. */
  predicate AtStretchStart(events: seq<Event>) {
    events == [] || events[|events| - 1].Crossed?
  }

  /** Every call that may refuse the entry comes first in its stretch. */
  predicate RefusalsFirst(events: seq<Event>) {
    forall k :: 0 <= k < |events| && events[k].Ran? && events[k].mayLeave ==> AtStretchStart(events[..k])
  }

  predicate Guarded(program: seq<Phase>, e: Entry, i: nat)
    requires i < |program|
  {
    program[i].fallible && Enabled(program[i], e) ==> AtStretchStart(Sequence(program[..i], e))
  }

  lemma {:induction false} GuardedRefusals(program: seq<Phase>, e: Entry, n: nat)
    requires n <= |program| && forall i :: 0 <= i < n ==> Guarded(program, e, i)
    ensures RefusalsFirst(Sequence(program[..n], e))
  {
    if n > 0 {
      GuardedRefusals(program, e, n - 1);
      assert program[..n][..n - 1] == program[..n - 1];
      assert Guarded(program, e, n - 1);
      RefusalsAppend(Sequence(program[..n - 1], e), program[n - 1], e);
    }
  }

  lemma RefusalsAppend(a: seq<Event>, p: Phase, e: Entry)
    requires RefusalsFirst(a) && (p.fallible && Enabled(p, e) ==> AtStretchStart(a))
    ensures RefusalsFirst(a + PhaseEvents(p, e))
  {
    var all := a + PhaseEvents(p, e);
    forall k | 0 <= k < |all| && all[k].Ran? && all[k].mayLeave ensures AtStretchStart(all[..k]) {
      if k < |a| {
        assert all[..k] == a[..k];
      } else {
        assert all[..k] == a;
      }
    }
  }

  lemma SequenceLast(program: seq<Phase>, e: Entry, n: nat)
    requires n < |program|
    ensures Sequence(program[..n + 1], e) == Sequence(program[..n], e) + PhaseEvents(program[n], e)
    ensures Enabled(program[n], e) && program[n].barrier.Grid? ==> AtStretchStart(Sequence(program[..n + 1], e))
    ensures !Enabled(program[n], e) ==> Sequence(program[..n + 1], e) == Sequence(program[..n], e)
  {
    assert program[..n + 1][..n] == program[..n];
  }

  /**
   In every list, for every entry: a call that may refuse the entry runs straight after a grid barrier, so
   a threadgroup that refuses leaves no part of a stretch behind it.
   */
  lemma RefusalsComeFirst(qkv: Condition, attn: Condition, front: Condition, conv: Condition, oneBody: Condition,
                          hasNext: Condition, e: Entry)
    ensures RefusalsFirst(Sequence(G4Program(qkv, attn, front), e))
    ensures RefusalsFirst(Sequence(L2Program(conv, attn, oneBody), e))
    ensures RefusalsFirst(Sequence(L2mProgram(hasNext), e)) && RefusalsFirst(Sequence(Q35Program(), e))
  {
    hide Sequence, RefusalsFirst, AtStretchStart, PhaseEvents;
    var g, l, m, q := G4Program(qkv, attn, front), L2Program(conv, attn, oneBody), L2mProgram(hasNext), Q35Program();
    NothingRun(g, e);
    SequenceLast(g, e, 0);
    SequenceLast(g, e, 1);
    SequenceLast(l, e, 5);
    GuardedRefusals(g, e, |g|);
    GuardedRefusals(l, e, |l|);
    GuardedRefusals(m, e, |m|);
    GuardedRefusals(q, e, |q|);
    assert g[..|g|] == g && l[..|l|] == l && m[..|m|] == m && q[..|q|] == q;
  }

  lemma NothingRun(program: seq<Phase>, e: Entry)
    ensures Sequence(program[..0], e) == [] && AtStretchStart([])
  {}
}
