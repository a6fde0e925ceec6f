/**
 Phase lists, the kernel text emitted from them, and what one threadgroup does when it runs that text.
 A phase's condition reads only the entry's words, so every threadgroup takes the same branch.
 */
module MegaProgram {
  import opened MegaRace
  import opened MegaKernel
  import opened MegaOutcome

  type Entry = seq<nat>
  type Condition = Entry -> bool

  datatype When = Always | If(holds: Condition)

  datatype Barrier = None | Grid | GridUnlessLocal(local: Condition)

  datatype Phase = Phase(when: When, call: nat, fallible: bool, barrier: Barrier)

  /** The statements a kernel body is emitted as. */
  datatype Stmt =
    | Call(call: nat)
    | CallOrLeave(call: nat)
    | GridStep
    | GroupBarrier
    | Branch(condition: Condition, yes: seq<Stmt>, no: seq<Stmt>)

  /** What running them does, in order. */
  datatype Event = Ran(call: nat, mayLeave: bool) | Crossed | Synced

  // ---------------------------------------------------------------- the emitter

  /** The body of the entry loop: per phase the call and its barrier, under the phase's condition. */
  method Kernel(program: seq<Phase>) returns (o: seq<Stmt>)
    ensures forall e: Entry :: Trace(o, e) == Sequence(program, e)
  {
    hide Trace, Sequence, PhaseEvents;
    NothingEmitted(program);
    o := [];
    var i := 0;
    while i < |program|
      invariant 0 <= i <= |program|
      invariant forall e: Entry :: Trace(o, e) == Sequence(program[..i], e)
    {
      var p := program[i];
      var body := [if p.fallible then CallOrLeave(p.call) else Call(p.call)];
      var tail := match p.barrier
        case None => []
        case Grid => [GridStep]
        case GridUnlessLocal(c) => [Branch(c, [GroupBarrier], [GridStep])];
      var text := match p.when
        case Always => body + tail
        case If(c) => [Branch(c, body + tail, [])];
      forall e: Entry ensures Trace(o + text, e) == Sequence(program[..i + 1], e) {
        PhaseText(p, body, tail, e);
        TraceAppend(o, text, e);
        SequenceNext(program, i, e);
      }
      o := o + text;
      i := i + 1;
    }
    assert program[..|program|] == program;
  }

  function Trace(stmts: seq<Stmt>, e: Entry): seq<Event> {
    if stmts == [] then [] else TraceOne(stmts[0], e) + Trace(stmts[1..], e)
  }

  function TraceOne(s: Stmt, e: Entry): seq<Event> {
    match s
    case Call(c) => [Ran(c, false)]
    case CallOrLeave(c) => [Ran(c, true)]
    case GridStep => [Crossed]
    case GroupBarrier => [Synced]
    case Branch(condition, yes, no) => if condition(e) then Trace(yes, e) else Trace(no, e)
  }

  lemma NothingEmitted(program: seq<Phase>)
    ensures forall e: Entry :: Trace([], e) == Sequence(program[..0], e)
  {}

  lemma SequenceNext(program: seq<Phase>, i: nat, e: Entry)
    requires i < |program|
    ensures Sequence(program[..i + 1], e) == Sequence(program[..i], e) + PhaseEvents(program[i], e)
  {
    assert program[..i + 1][..i] == program[..i];
  }

  /** What the phase list says: each enabled phase, then the barrier its entry asks for. */
  function Sequence(program: seq<Phase>, e: Entry): seq<Event> {
    if program == [] then []
    else Sequence(program[..|program| - 1], e) + PhaseEvents(program[|program| - 1], e)
  }

  predicate Enabled(p: Phase, e: Entry) {
    p.when.If? ==> p.when.holds(e)
  }

  function PhaseEvents(p: Phase, e: Entry): seq<Event> {
    if !Enabled(p, e) then []
    else if p.barrier.None? then [Ran(p.call, p.fallible)]
    else if p.barrier.GridUnlessLocal? && p.barrier.local(e) then [Ran(p.call, p.fallible), Synced]
    else [Ran(p.call, p.fallible), Crossed]
  }

  lemma TraceUnfold(s: seq<Stmt>, e: Entry)
    ensures Trace(s, e) == if s == [] then [] else TraceOne(s[0], e) + Trace(s[1..], e)
  {
    hide TraceOne;
  }

  lemma {:induction false} TraceAppend(a: seq<Stmt>, b: seq<Stmt>, e: Entry)
    ensures Trace(a + b, e) == Trace(a, e) + Trace(b, e)
  {
    hide Trace, TraceOne;
    TraceUnfold(a, e);
    TraceUnfold(a + b, e);
    if a == [] {
      assert a + b == b;
    } else {
      TraceAppend(a[1..], b, e);
      assert (a + b)[1..] == a[1..] + b;
    }
  }

  lemma One(s: Stmt, e: Entry)
    ensures Trace([s], e) == TraceOne(s, e)
  {
    assert Trace([s][1..], e) == [];
  }

  lemma PhaseText(p: Phase, body: seq<Stmt>, tail: seq<Stmt>, e: Entry)
    requires body == [if p.fallible then CallOrLeave(p.call) else Call(p.call)]
    requires tail == match p.barrier
                     case None => []
                     case Grid => [GridStep]
                     case GridUnlessLocal(c) => [Branch(c, [GroupBarrier], [GridStep])]
    ensures p.when.Always? ==> Trace(body + tail, e) == PhaseEvents(p, e)
    ensures p.when.If? ==> Trace([Branch(p.when.holds, body + tail, [])], e) == PhaseEvents(p, e)
  {
    One(body[0], e);
    TraceAppend(body, tail, e);
    if tail != [] {
      One(tail[0], e);
      One(GroupBarrier, e);
      One(GridStep, e);
    }
    if p.when.If? {
      One(Branch(p.when.holds, body + tail, []), e);
    }
  }

  // ---------------------------------------------------------------- the entry loop

  /** An entry's phases, with the entry they ran for. */
  datatype Step = Phase(entry: nat, call: nat) | Cross | Sync

  function Labelled(events: seq<Event>, entry: nat): (steps: seq<Step>)
    ensures |steps| == |events|
  {
    seq<Step>(|events|, i requires 0 <= i < |events| =>
      match events[i]
      case Ran(c, _) => Step.Phase(entry, c)
      case Crossed => Cross
      case Synced => Sync)
  }

  /** Every entry's sequence, a grid barrier between one entry and the next. */
  function Schedule(program: seq<Phase>, entries: seq<Entry>): seq<Step> {
    if entries == [] then []
    else
      var last := |entries| - 1;
      Schedule(program, entries[..last]) + (if last > 0 then [Cross] else []) + Labelled(Sequence(program, entries[last]), last)
  }

  /** What the host passes: an admission probe or not, and which entries of the program to walk. */
  datatype Token = Token(probe: nat, nEntries: nat, entryIndex: nat)

  /** At least one entry; the per-layer form of the kernel always runs exactly the first. */
  function EntryCount(tok: Token, programForm: bool): (n: nat)
    ensures n > 0
  {
    if programForm && tok.nEntries > 1 then tok.nEntries else 1
  }

  function EntryAt(tok: Token, programForm: bool): nat {
    if programForm then tok.entryIndex else 0
  }

  /** The entries a dispatch is given. */
  function Walked(tok: Token, programForm: bool, entries: seq<Entry>): (w: seq<Entry>)
    requires EntryAt(tok, programForm) + EntryCount(tok, programForm) <= |entries|
    ensures |w| == EntryCount(tok, programForm)
  {
    entries[EntryAt(tok, programForm)..EntryAt(tok, programForm) + EntryCount(tok, programForm)]
  }

  /**
   The per-layer form runs the first entry whatever the token says; the program form runs the entry at the token's
   index when it asks for one or none, and two tokens side by side ask for what one asks for.
   */
  lemma WalkedAre(entries: seq<Entry>, tok: Token, i: nat, m: nat, n: nat)
    requires i + m + n <= |entries| && m > 0 && n > 0
    ensures Walked(tok, false, entries) == [entries[0]]
    ensures Walked(Token(0, 0, i), true, entries) == Walked(Token(0, 1, i), true, entries) == [entries[i]]
    ensures Walked(Token(0, m + n, i), true, entries) ==
      Walked(Token(0, m, i), true, entries) + Walked(Token(0, n, i + m), true, entries)
  {}

  /** The entries before the first that the entry check refuses. */
  function Accepted(walked: seq<Entry>, refused: Condition): (n: nat)
    ensures n <= |walked| && (forall i :: 0 <= i < n ==> !refused(walked[i])) && (n < |walked| ==> refused(walked[n]))
  {
    if walked == [] || refused(walked[0]) then 0 else 1 + Accepted(walked[1..], refused)
  }

  /** The steps of the first `k` entries, with the barrier to the next one. */
  function Progress(program: seq<Phase>, walked: seq<Entry>, k: nat): seq<Step>
    requires k <= |walked|
  {
    Schedule(program, walked[..k]) + if 0 < k < |walked| then [Cross] else []
  }

  lemma ProgressNext(program: seq<Phase>, walked: seq<Entry>, k: nat)
    requires k < |walked|
    ensures Progress(program, walked, 0) == []
    ensures Progress(program, walked, k + 1) ==
      Progress(program, walked, k) + Labelled(Sequence(program, walked[k]), k) + if k + 1 < |walked| then [Cross] else []
  {
    hide Sequence, Labelled;
    assert walked[..k + 1][..k] == walked[..k];
  }

  /** What the frame makes of a token: its steps, and whether it left at an entry check. */
  predicate Framed(program: seq<Phase>, refused: Condition, tok: Token, programForm: bool, entries: seq<Entry>,
                   steps: seq<Step>, left: bool)
    requires EntryAt(tok, programForm) + EntryCount(tok, programForm) <= |entries|
  {
    if tok.probe != 0 then steps == [Cross] && !left
    else
      var walked := Walked(tok, programForm, entries);
      var n := Accepted(walked, refused);
      left == (n < |walked|) && steps == Progress(program, walked, n)
  }

  /**
   The frame around an emitted body.  A probe passes one barrier and runs nothing.  Otherwise the entries run
   in order with a grid barrier between them, until the entry check refuses one: then the threadgroup leaves
   without the exit.
   */
  method Frame(body: seq<Stmt>, program: seq<Phase>, refused: Condition, tok: Token, programForm: bool, entries: seq<Entry>)
    returns (steps: seq<Step>, left: bool)
    requires forall e: Entry :: Trace(body, e) == Sequence(program, e)
    requires EntryAt(tok, programForm) + EntryCount(tok, programForm) <= |entries|
    ensures Framed(program, refused, tok, programForm, entries, steps, left)
  {
    hide Progress, Trace, Sequence, Labelled, Accepted;
    steps, left := [], false;
    if tok.probe != 0 {
      return [Cross], false;
    }
    ghost var walked := Walked(tok, programForm, entries);
    var ei, n := 0, 1;
    if programForm && tok.nEntries > 1 {
      n := tok.nEntries;
    }
    ProgressNext(program, walked, 0);
    while ei < n
      invariant 0 <= ei <= n == |walked| && !left
      invariant forall i :: 0 <= i < ei ==> !refused(walked[i])
      invariant steps == Progress(program, walked, ei)
    {
      var e := entries[if programForm then tok.entryIndex + ei else 0];
      assert e == walked[ei];
      if refused(e) {
        FirstRefused(walked, refused, ei);
        return steps, true;
      }
      ProgressNext(program, walked, ei);
      steps := steps + Labelled(Trace(body, e), ei);
      if ei + 1 < n {
        steps := steps + [Cross];
      }
      ei := ei + 1;
    }
    FirstRefused(walked, refused, n);
  }

  lemma {:induction false} FirstRefused(walked: seq<Entry>, refused: Condition, n: nat)
    requires n <= |walked| && (forall i :: 0 <= i < n ==> !refused(walked[i])) && (n < |walked| ==> refused(walked[n]))
    ensures Accepted(walked, refused) == n
  {
    if n > 0 {
      FirstRefused(walked[1..], refused, n - 1);
    }
  }

  /** The whole kernel of a phase list: the emitted body inside its frame. */
  method Emitted(program: seq<Phase>, refused: Condition, tok: Token, programForm: bool, entries: seq<Entry>)
    returns (steps: seq<Step>, left: bool)
    requires EntryAt(tok, programForm) + EntryCount(tok, programForm) <= |entries|
    ensures Framed(program, refused, tok, programForm, entries, steps, left)
  {
    hide Framed, Trace, Sequence;
    var body := Kernel(program);
    steps, left := Frame(body, program, refused, tok, programForm, entries);
  }

  /** A frame that was not left ran the schedule of the entries it was given. */
  lemma FramedIsSchedule(program: seq<Phase>, refused: Condition, tok: Token, programForm: bool, entries: seq<Entry>,
                         steps: seq<Step>, left: bool)
    requires EntryAt(tok, programForm) + EntryCount(tok, programForm) <= |entries|
    requires Framed(program, refused, tok, programForm, entries, steps, left) && tok.probe == 0 && !left
    ensures steps == Schedule(program, Walked(tok, programForm, entries))
    ensures forall i :: 0 <= i < EntryCount(tok, programForm) ==> !refused(Walked(tok, programForm, entries)[i])
  {
    hide Schedule, Accepted;
    var walked := Walked(tok, programForm, entries);
    assert walked[..|walked|] == walked;
  }

  // ---------------------------------------------------------------- stretches between grid barriers

  /** The phases run, in order, whatever the barriers. */
  function Phases(steps: seq<Step>): seq<Step> {
    if steps == [] then []
    else
      var last := steps[|steps| - 1];
      Phases(steps[..|steps| - 1]) + if last.Phase? then [last] else []
  }

  function Crossings(steps: seq<Step>): nat {
    if steps == [] then 0 else Crossings(steps[..|steps| - 1]) + if steps[|steps| - 1].Cross? then 1 else 0
  }

  /** What each threadgroup does in each phase of each entry. */
  type Bodies = (nat, nat) -> Work

  predicate Fitting(bodies: Bodies, steps: seq<Step>, n: nat, size: nat) {
    forall i :: 0 <= i < |steps| && steps[i].Phase? ==>
      var w := bodies(steps[i].entry, steps[i].call);
      |w| == n && Sized(w, size)
  }

  /** The phases grouped between grid barriers. */
  function Stretches(bodies: Bodies, steps: seq<Step>): (segments: seq<seq<Work>>)
    ensures |segments| == Crossings(steps) + 1
  {
    if steps == [] then [[]]
    else
      var k := |steps| - 1;
      var before := Stretches(bodies, steps[..k]);
      match steps[k]
      case Cross => before + [[]]
      case Sync => before
      case Phase(entry, call) => before[|before| - 1 := before[|before| - 1] + [bodies(entry, call)]]
  }

  function Works(bodies: Bodies, phases: seq<Step>): (works: seq<Work>)
    requires forall i :: 0 <= i < |phases| ==> phases[i].Phase?
    ensures |works| == |phases|
  {
    seq<Work>(|phases|, i requires 0 <= i < |phases| => bodies(phases[i].entry, phases[i].call))
  }

  lemma {:induction false} StretchesFit(bodies: Bodies, steps: seq<Step>, n: nat, size: nat)
    requires Fitting(bodies, steps, n, size)
    ensures AllShaped(Stretches(bodies, steps), n, size)
  {
    if steps != [] {
      var k := |steps| - 1;
      StretchesFit(bodies, steps[..k], n, size);
    }
  }

  lemma {:induction false} PhasesArePhases(steps: seq<Step>)
    ensures forall i :: 0 <= i < |Phases(steps)| ==> Phases(steps)[i].Phase?
  {
    if steps != [] {
      PhasesArePhases(steps[..|steps| - 1]);
    }
  }

  lemma FlatGrows(segments: seq<seq<Work>>, w: Work)
    requires segments != []
    ensures Flat(segments + [[]]) == Flat(segments)
    ensures Flat(segments[|segments| - 1 := segments[|segments| - 1] + [w]]) == Flat(segments) + [w]
  {
    assert (segments + [[]])[..|segments|] == segments;
    var k := |segments| - 1;
    assert segments[k := segments[k] + [w]][..k] == segments[..k];
  }

  /** Barriers only group the phases: flattened, they are the same phases in the same order. */
  lemma {:induction false} StretchesHoldPhases(bodies: Bodies, steps: seq<Step>)
    ensures forall i :: 0 <= i < |Phases(steps)| ==> Phases(steps)[i].Phase?
    ensures Flat(Stretches(bodies, steps)) == Works(bodies, Phases(steps))
  {
    PhasesArePhases(steps);
    if steps == [] {
      var one: seq<seq<Work>> := [[]];
      assert one[..0] == [] && Flat(one) == [];
    } else {
      var k := |steps| - 1;
      StretchesHoldPhases(bodies, steps[..k]);
      PhasesArePhases(steps[..k]);
      var w := if steps[k].Phase? then bodies(steps[k].entry, steps[k].call) else [];
      FlatGrows(Stretches(bodies, steps[..k]), w);
    }
  }

  // ---------------------------------------------------------------- the whole dispatch

  /** The phases an entry enables, in the order of the list. */
  function EnabledCalls(program: seq<Phase>, e: Entry, entry: nat): seq<Step> {
    if program == [] then []
    else
      var p := program[|program| - 1];
      EnabledCalls(program[..|program| - 1], e, entry) + if Enabled(p, e) then [Step.Phase(entry, p.call)] else []
  }

  function AllCalls(program: seq<Phase>, entries: seq<Entry>): seq<Step> {
    if entries == [] then []
    else
      var last := |entries| - 1;
      AllCalls(program, entries[..last]) + EnabledCalls(program, entries[last], last)
  }

  lemma {:induction false} PhasesAppend(a: seq<Step>, b: seq<Step>)
    ensures Phases(a + b) == Phases(a) + Phases(b)
    ensures Crossings(a + b) == Crossings(a) + Crossings(b)
    decreases |b|
  {
    if b == [] {
      assert a + b == a;
    } else {
      PhasesAppend(a, b[..|b| - 1]);
      assert (a + b)[..|a + b| - 1] == a + b[..|b| - 1];
    }
  }

  lemma LabelledAppend(a: seq<Event>, b: seq<Event>, entry: nat)
    ensures Labelled(a + b, entry) == Labelled(a, entry) + Labelled(b, entry)
  {}

  lemma PhaseEventsOne(p: Phase, e: Entry, entry: nat)
    ensures Phases(Labelled(PhaseEvents(p, e), entry)) == if Enabled(p, e) then [Step.Phase(entry, p.call)] else []
  {
    var l := Labelled(PhaseEvents(p, e), entry);
    if Enabled(p, e) {
      assert Phases(l[..1]) == [l[0]] by {
        assert l[..1][..0] == [];
      }
      if |l| == 2 {
        assert l[..|l| - 1] == l[..1];
      } else {
        assert l == l[..1];
      }
    }
  }

  lemma {:induction false} SequenceCalls(program: seq<Phase>, e: Entry, entry: nat)
    ensures Phases(Labelled(Sequence(program, e), entry)) == EnabledCalls(program, e, entry)
  {
    hide PhaseEvents, Labelled;
    if program == [] {
      assert Labelled([], entry) == [];
    } else {
      var most, p := program[..|program| - 1], program[|program| - 1];
      SequenceCalls(most, e, entry);
      LabelledAppend(Sequence(most, e), PhaseEvents(p, e), entry);
      PhasesAppend(Labelled(Sequence(most, e), entry), Labelled(PhaseEvents(p, e), entry));
      PhaseEventsOne(p, e, entry);
    }
  }

  /** A schedule runs exactly the phases the entries enable, entry by entry. */
  lemma {:induction false} ScheduleCalls(program: seq<Phase>, entries: seq<Entry>)
    ensures Phases(Schedule(program, entries)) == AllCalls(program, entries)
  {
    hide Sequence, Labelled;
    if entries != [] {
      var last := |entries| - 1;
      var before, own := Schedule(program, entries[..last]), Labelled(Sequence(program, entries[last]), last);
      ScheduleCalls(program, entries[..last]);
      SequenceCalls(program, entries[last], last);
      PhasesAppend(before + (if last > 0 then [Cross] else []), own);
      PhasesAppend(before, if last > 0 then [Cross] else []);
      assert Phases([Cross]) == [] by {
        assert [Cross][..0] == [];
      }
    }
  }

  /** The system `n` threadgroups run when each of them takes these steps. */
  function Running(bodies: Bodies, sched: seq<Step>, n: nat, size: nat): (sys: System)
    requires n > 0 && Fitting(bodies, sched, n, size)
    ensures sys.Valid() && sys.n == n && sys.size == size && sys.Last() == Crossings(sched)
  {
    StretchesFit(bodies, sched, n, size);
    System(n, size, Stretches(bodies, sched))
  }

  /** The system `n` threadgroups run when they all follow the emitted kernel over these entries. */
  function Dispatch(program: seq<Phase>, entries: seq<Entry>, bodies: Bodies, n: nat, size: nat): (sys: System)
    requires n > 0 && Fitting(bodies, Schedule(program, entries), n, size)
    ensures sys.Valid() && sys.n == n && sys.size == size && sys.Last() == Crossings(Schedule(program, entries))
  {
    Running(bodies, Schedule(program, entries), n, size)
  }

  /**
   The emitted kernel is its phase list: whatever the interleaving, a healthy dispatch that has run its
   course leaves the memory of the enabled phases run one after another, entry by entry.
   */
  lemma DispatchIsPhaseList(program: seq<Phase>, entries: seq<Entry>, bodies: Bodies, n: nat, mem: Mem, steps: seq<(nat, Action)>)
    requires n > 0 && Fitting(bodies, Schedule(program, entries), n, |mem|)
    requires Dispatch(program, entries, bodies, n, |mem|).NoRaces()
    requires Allowed(Dispatch(program, entries, bodies, n, |mem|), Begin(Dispatch(program, entries, bodies, n, |mem|), mem, false), steps)
    requires forall i :: 0 <= i < |steps| ==> Healthy(steps[i].1)
    requires var sys := Dispatch(program, entries, bodies, n, |mem|);
      forall t, a :: Healthy(a) ==> !Can(sys, After(sys, Begin(sys, mem, false), steps), t, a)
    ensures forall i :: 0 <= i < |AllCalls(program, entries)| ==> AllCalls(program, entries)[i].Phase?
    ensures Shaped(Works(bodies, AllCalls(program, entries)), n, |mem|)
    ensures var sys := Dispatch(program, entries, bodies, n, |mem|);
      var s := After(sys, Begin(sys, mem, false), steps);
      && s.mem == RunWorks(mem, Works(bodies, AllCalls(program, entries)), n)
      && AllOut(s) && s.ctr == 0 && s.exitc == 0 && !s.err
  {
    hide Can, Allowed, After, RaceFree, RunWorks, Schedule, Stretches, Healthy;
    var sys := Dispatch(program, entries, bodies, n, |mem|);
    HealthyRunIsClear(sys, mem, steps);
    HealthyRunIsReference(sys, mem, steps);
    StretchesHoldPhases(bodies, Schedule(program, entries));
    ScheduleCalls(program, entries);
  }

  /**
   From the token to the memory: when every threadgroup runs what the emitted kernel makes of the token, and no
   entry was refused, a healthy run that can go no further leaves the memory of the enabled phases of the token's
   entries run one after another, whatever the interleaving.
   */
  lemma TokenIsPhaseList(program: seq<Phase>, refused: Condition, tok: Token, programForm: bool, entries: seq<Entry>,
                         sched: seq<Step>, left: bool, bodies: Bodies, n: nat, mem: Mem, run: seq<(nat, Action)>)
    requires EntryAt(tok, programForm) + EntryCount(tok, programForm) <= |entries|
    requires Framed(program, refused, tok, programForm, entries, sched, left) && tok.probe == 0 && !left
    requires n > 0 && Fitting(bodies, sched, n, |mem|) && Running(bodies, sched, n, |mem|).NoRaces()
    requires Allowed(Running(bodies, sched, n, |mem|), Begin(Running(bodies, sched, n, |mem|), mem, false), run)
    requires forall i :: 0 <= i < |run| ==> Healthy(run[i].1)
    requires var sys := Running(bodies, sched, n, |mem|);
      forall t, a :: Healthy(a) ==> !Can(sys, After(sys, Begin(sys, mem, false), run), t, a)
    ensures var calls := AllCalls(program, Walked(tok, programForm, entries));
      && (forall i :: 0 <= i < |calls| ==> calls[i].Phase?)
      && Shaped(Works(bodies, calls), n, |mem|)
      && var sys := Running(bodies, sched, n, |mem|);
         var s := After(sys, Begin(sys, mem, false), run);
         s.mem == RunWorks(mem, Works(bodies, calls), n) && AllOut(s) && s.ctr == 0 && s.exitc == 0 && !s.err
  {
    hide Can, Allowed, After, RaceFree, RunWorks, Schedule, Stretches, Healthy, Framed, AllCalls, Walked;
    FramedIsSchedule(program, refused, tok, programForm, entries, sched, left);
    DispatchIsPhaseList(program, Walked(tok, programForm, entries), bodies, n, mem, run);
  }

  /** A probe writes nothing but the sync words, however its run goes. */
  lemma {:induction false} ProbeWritesNothing(bodies: Bodies, n: nat, mem: Mem, err: bool, steps: seq<(nat, Action)>)
    requires n > 0 && Fitting(bodies, [Cross], n, |mem|)
    requires var sys := System(n, |mem|, Stretches(bodies, [Cross]));
      sys.Valid() && Allowed(sys, Begin(sys, mem, err), steps)
    ensures var sys := System(n, |mem|, Stretches(bodies, [Cross]));
      After(sys, Begin(sys, mem, err), steps).mem == mem
    decreases |steps|
  {
    var sys := System(n, |mem|, Stretches(bodies, [Cross]));
    ProbeIsEmpty(bodies);
    if steps != [] {
      var most := steps[..|steps| - 1];
      ProbeWritesNothing(bodies, n, mem, err, most);
      var s := After(sys, Begin(sys, mem, err), most);
      EmptyStretch(sys, s, steps[|steps| - 1].0);
    }
  }

  lemma ProbeIsEmpty(bodies: Bodies)
    ensures Stretches(bodies, [Cross]) == [[], []]
  {
    assert [Cross][..0] == [];
  }

  lemma EmptyStretch(sys: System, s: State, t: nat)
    requires sys.Valid() && sys.segments == [[], []] && Formed(sys, s) && t < sys.n
    ensures !Can(sys, s, t, Action.Work)
  {
    assert Placed(sys, s.places[t], t);
    assert forall g :: 0 <= g < 2 ==> sys.segments[g] == [];
  }
}
