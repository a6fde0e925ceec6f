/**
 What every interleaving of the composed kernel comes to: threadgroups stay within one barrier of each
 other, some threadgroup can always move, every run ends, and a run that ends with a clear error word
 leaves what the phases leave one after another.
 */
module MegaOutcome {
  import opened MegaRace
  import opened MegaKernel

  /** The memory when stretch `g` begins, phases run one after another. */
  function Base(sys: System, mem: Mem, g: nat): (m: Mem)
    requires sys.Valid() && |mem| == sys.size && g <= |sys.segments|
    ensures |m| == sys.size
  {
    if g == 0 then mem else RunWorks(Base(sys, mem, g - 1), sys.segments[g - 1], sys.n)
  }

  // ---------------------------------------------------------------- one stretch at a time

  /** In stretch `c` a threadgroup is running it, has arrived at its end, or has yet to leave the last one's. */
  predicate InStretch(sys: System, p: Place, c: nat)
    requires sys.Valid()
  {
    match p
    case Start => c == 0
    case In(g, _) => g == c
    case Waiting(g) => g == c || g + 1 == c
    case Out => c == sys.Last()
    case Left(_) => false
  }

  function Progress(sys: System, p: Place, t: nat, c: nat): nat
    requires sys.Valid() && t < sys.n && c <= sys.Last()
  {
    match p
    case Start => 0
    case In(_, d) => d
    case Waiting(g) => if g == c then |sys.OpsOf(c)[t]| else 0
    case Out => |sys.OpsOf(c)[t]|
    case Left(_) => 0
  }

  function Dones(sys: System, s: State, c: nat): (d: seq<nat>)
    requires sys.Valid() && Formed(sys, s) && c <= sys.Last()
    ensures |d| == sys.n
  {
    seq<nat>(sys.n, t requires 0 <= t < sys.n => Progress(sys, s.places[t], t, c))
  }

  ghost predicate Sound(sys: System, mem: Mem, s: State, c: nat)
    requires sys.Valid() && |mem| == sys.size && Formed(sys, s)
  {
    && c <= sys.Last()
    && (forall t :: 0 <= t < sys.n ==> InStretch(sys, s.places[t], c))
    && Agrees(sys.OpsOf(c), Base(sys, mem, c), Dones(sys, s, c), s.mem)
  }

  lemma SoundAtFirst(sys: System, mem: Mem)
    requires sys.Valid() && |mem| == sys.size
    ensures Sound(sys, mem, Begin(sys, mem, false), 0)
  {
    AgreesAtFirst(sys.OpsOf(0), mem, Dones(sys, Begin(sys, mem, false), 0));
  }

  /** A move that changes no memory and not how much of the stretch the threadgroup has done. */
  lemma QuietMove(sys: System, mem: Mem, s: State, r: State, t: nat, p: Place, c: nat)
    requires sys.Valid() && |mem| == sys.size && Formed(sys, s) && Formed(sys, r) && Sound(sys, mem, s, c)
    requires t < sys.n && r.places == s.places[t := p] && r.mem == s.mem
    requires InStretch(sys, p, c) && Progress(sys, p, t, c) == Progress(sys, s.places[t], t, c)
    ensures Sound(sys, mem, r, c)
  {
    hide Agrees, Base;
    assert Dones(sys, r, c) == Dones(sys, s, c);
  }

  lemma WorkMove(sys: System, mem: Mem, s: State, t: nat, c: nat)
    requires sys.Valid() && sys.NoRaces() && |mem| == sys.size && Formed(sys, s) && Sound(sys, mem, s, c)
    requires Can(sys, s, t, Action.Work)
    ensures Sound(sys, mem, Do(sys, s, t, Action.Work), c)
  {
    hide Agrees, Base, Exec, RaceFree;
    var r := Do(sys, s, t, Action.Work);
    assert InStretch(sys, s.places[t], c);
    var d := Dones(sys, s, c);
    AgreesStep(sys.OpsOf(c), Base(sys, mem, c), d, s.mem, t);
    assert Dones(sys, r, c) == d[t := d[t] + 1];
  }

  /** Once enough have arrived for the end of stretch `c` to open, everyone is waiting there. */
  lemma EveryoneWaits(sys: System, mem: Mem, s: State, c: nat)
    requires sys.Valid() && |mem| == sys.size && Formed(sys, s) && Counted(sys, s) && Sound(sys, mem, s, c)
    requires s.ctr >= (c + 1) * sys.n
    ensures c < sys.Last() && forall t :: 0 <= t < sys.n ==> s.places[t] == Waiting(c)
  {
    hide Agrees, Base, Total;
    var xs := Arrivals(s.places, sys.Last());
    assert (c + 1) * sys.n >= 1;
    assert !AllOut(s);
    forall u | 0 <= u < |xs| ensures xs[u] <= c + 1 {
      assert InStretch(sys, s.places[u], c);
    }
    forall t | 0 <= t < sys.n ensures s.places[t] == Waiting(c) {
      assert InStretch(sys, s.places[t], c);
      if s.places[t] != Waiting(c) {
        TotalBelow(xs, c + 1, t);
      }
    }
    assert s.places[0] == Waiting(c);
  }

  /** Then the next stretch begins, from the memory the reference has there. */
  lemma NextStretch(sys: System, mem: Mem, s: State, c: nat)
    requires sys.Valid() && sys.NoRaces() && |mem| == sys.size && Formed(sys, s) && Sound(sys, mem, s, c)
    requires c < sys.Last() && forall t :: 0 <= t < sys.n ==> s.places[t] == Waiting(c)
    ensures Sound(sys, mem, s, c + 1)
  {
    hide Agrees, RaceFree, RunWorks;
    StretchDone(sys, mem, s, c);
    AgreesAtFirst(sys.OpsOf(c + 1), s.mem, Dones(sys, s, c + 1));
  }

  lemma StretchDone(sys: System, mem: Mem, s: State, c: nat)
    requires sys.Valid() && sys.NoRaces() && |mem| == sys.size && Formed(sys, s) && Sound(sys, mem, s, c)
    requires forall t :: 0 <= t < sys.n ==> s.places[t] == Waiting(c) || s.places[t].Out?
    ensures s.mem == Base(sys, mem, c + 1)
  {
    hide Agrees, RaceFree, RunWorks, Mine;
    assert Dones(sys, s, c) == Lengths(sys.segments[c], sys.n, sys.size);
    InterleavingIsReference(sys.segments[c], sys.n, Base(sys, mem, c), s.mem);
  }

  /** Every step that leaves the error word clear keeps the threadgroups in one stretch. */
  lemma SoundStep(sys: System, mem: Mem, s: State, t: nat, a: Action, c: nat) returns (e: nat)
    requires sys.Valid() && sys.NoRaces() && |mem| == sys.size && Formed(sys, s)
    requires Counted(sys, s) && Sound(sys, mem, s, c) && Can(sys, s, t, a) && !Do(sys, s, t, a).err
    ensures Sound(sys, mem, Do(sys, s, t, a), e)
  {
    hide Agrees, Base, RaceFree, Counted, Exec;
    e := c;
    var r := Do(sys, s, t, a);
    var p := s.places[t];
    assert InStretch(sys, p, c);
    match a
    case Work => WorkMove(sys, mem, s, t, c);
    case Pass =>
      if p.seg == c {
        EveryoneWaits(sys, mem, s, c);
        NextStretch(sys, mem, s, c);
        e := c + 1;
      }
      QuietMove(sys, mem, s, r, t, In(p.seg + 1, 0), e);
    case Enter => QuietMove(sys, mem, s, r, t, r.places[t], c);
    case Arrive => QuietMove(sys, mem, s, r, t, r.places[t], c);
    case Exit => QuietMove(sys, mem, s, r, t, r.places[t], c);
    case _ =>
  }

  lemma {:induction false} RunIsCounted(sys: System, mem: Mem, err: bool, steps: seq<(nat, Action)>)
    requires sys.Valid() && |mem| == sys.size && Allowed(sys, Begin(sys, mem, err), steps)
    ensures Counted(sys, After(sys, Begin(sys, mem, err), steps))
    decreases |steps|
  {
    hide Counted, Can, Do;
    if steps == [] {
      CountedAtFirst(sys, mem, err);
    } else {
      var most, last := steps[..|steps| - 1], steps[|steps| - 1];
      RunIsCounted(sys, mem, err, most);
      CountedStep(sys, After(sys, Begin(sys, mem, err), most), last.0, last.1);
    }
  }

  lemma ErrorStays(sys: System, s: State, t: nat, a: Action)
    requires sys.Valid() && Formed(sys, s) && Can(sys, s, t, a)
    ensures s.err ==> Do(sys, s, t, a).err
  {}

  lemma {:induction false} RunIsSound(sys: System, mem: Mem, steps: seq<(nat, Action)>) returns (c: nat)
    requires sys.Valid() && sys.NoRaces() && |mem| == sys.size && Allowed(sys, Begin(sys, mem, false), steps)
    requires !After(sys, Begin(sys, mem, false), steps).err
    ensures Sound(sys, mem, After(sys, Begin(sys, mem, false), steps), c)
    decreases |steps|
  {
    hide Counted, Can, Do, Sound, RaceFree;
    if steps == [] {
      SoundAtFirst(sys, mem);
      c := 0;
    } else {
      var most, last := steps[..|steps| - 1], steps[|steps| - 1];
      var s := After(sys, Begin(sys, mem, false), most);
      ErrorStays(sys, s, last.0, last.1);
      c := RunIsSound(sys, mem, most);
      RunIsCounted(sys, mem, false, most);
      c := SoundStep(sys, mem, s, last.0, last.1, c);
    }
  }

  // ---------------------------------------------------------------- safety

  /** While the error word is clear no threadgroup works on a stretch before everyone has reached its start. */
  lemma NobodyOvertakes(sys: System, mem: Mem, steps: seq<(nat, Action)>, t: nat, u: nat)
    requires sys.Valid() && sys.NoRaces() && |mem| == sys.size && Allowed(sys, Begin(sys, mem, false), steps)
    requires t < sys.n && u < sys.n
    ensures var s := After(sys, Begin(sys, mem, false), steps);
      !s.err ==>
        && Arrived(s.places[t], sys.Last()) <= Arrived(s.places[u], sys.Last()) + 1
        && (s.places[t].In? ==> Arrived(s.places[u], sys.Last()) >= s.places[t].seg)
  {
    hide Allowed, After, RaceFree, Agrees;
    var s := After(sys, Begin(sys, mem, false), steps);
    if !s.err {
      var c := RunIsSound(sys, mem, steps);
      assert InStretch(sys, s.places[t], c) && InStretch(sys, s.places[u], c);
    }
  }

  // ---------------------------------------------------------------- progress

  /** The steps a healthy run takes: no entry is refused and no wait reaches its cap. */
  predicate Healthy(a: Action) {
    !a.Fail? && !a.GiveUp?
  }

  lemma {:induction false} HealthyRunIsClear(sys: System, mem: Mem, steps: seq<(nat, Action)>)
    requires sys.Valid() && |mem| == sys.size && Allowed(sys, Begin(sys, mem, false), steps)
    requires forall i :: 0 <= i < |steps| ==> Healthy(steps[i].1)
    ensures !After(sys, Begin(sys, mem, false), steps).err
    decreases |steps|
  {
    if steps != [] {
      HealthyRunIsClear(sys, mem, steps[..|steps| - 1]);
      assert Healthy(steps[|steps| - 1].1);
    }
  }

  lemma SomeoneElsewhere(sys: System, s: State) returns (t: nat)
    requires sys.Valid() && Formed(sys, s) && !Finished(s)
    ensures t < sys.n && !s.places[t].Out? && !s.places[t].Left?
    ensures (forall u :: 0 <= u < sys.n ==> !s.places[u].Start? && !s.places[u].In?) || s.places[t].Start? || s.places[t].In?
  {
    if u :| 0 <= u < sys.n && (s.places[u].Start? || s.places[u].In?) {
      t := u;
    } else {
      t :| 0 <= t < |s.places| && !s.places[t].Out? && !s.places[t].Left?;
    }
  }

  lemma CounterReaches(sys: System, s: State, m: nat)
    requires sys.Valid() && Formed(sys, s) && Counted(sys, s) && !AllOut(s)
    requires forall u :: 0 <= u < sys.n ==> Arrived(s.places[u], sys.Last()) >= m
    ensures s.ctr >= m * sys.n
  {
    hide Total, Arrived, Placed, AllOut;
    TotalAtLeast(Arrivals(s.places, sys.Last()), m);
  }

  lemma WaitsBeforeLast(sys: System, s: State, t: nat)
    requires sys.Valid() && Formed(sys, s) && t < sys.n && s.places[t].Waiting?
    ensures s.places[t].seg < sys.Last()
  {
    assert Placed(sys, s.places[t], t);
  }

  /** When everyone left is waiting, someone's wait is over. */
  lemma SomeoneMayPass(sys: System, mem: Mem, s: State, c: nat) returns (t: nat)
    requires sys.Valid() && |mem| == sys.size && Formed(sys, s) && Counted(sys, s) && Sound(sys, mem, s, c)
    requires forall u :: 0 <= u < sys.n ==> s.places[u].Waiting? || s.places[u].Out?
    requires !AllOut(s)
    ensures t < sys.n && s.places[t].Waiting? && s.ctr >= (s.places[t].seg + 1) * sys.n
  {
    hide Agrees, Base, Counted, Placed;
    if u :| 0 <= u < sys.n && s.places[u].Waiting? && s.places[u].seg + 1 == c {
      t := u;
      forall u | 0 <= u < sys.n ensures Arrived(s.places[u], sys.Last()) >= c {
        assert InStretch(sys, s.places[u], c);
      }
      CounterReaches(sys, s, c);
    } else {
      t :| 0 <= t < |s.places| && !s.places[t].Out?;
      assert InStretch(sys, s.places[t], c);
      assert s.places[t].seg == c;
      WaitsBeforeLast(sys, s, t);
      forall u | 0 <= u < sys.n ensures Arrived(s.places[u], sys.Last()) >= c + 1 {
        assert InStretch(sys, s.places[u], c);
      }
      CounterReaches(sys, s, c + 1);
    }
  }

  /** No deadlock: until every threadgroup is out or has left, one of them has a healthy step to take. */
  lemma SomeoneCanMove(sys: System, mem: Mem, steps: seq<(nat, Action)>) returns (t: nat, a: Action)
    requires sys.Valid() && sys.NoRaces() && |mem| == sys.size && Allowed(sys, Begin(sys, mem, false), steps)
    requires !Finished(After(sys, Begin(sys, mem, false), steps))
    ensures Healthy(a) && Can(sys, After(sys, Begin(sys, mem, false), steps), t, a)
  {
    hide Allowed, After, RaceFree, Agrees, Total;
    var s := After(sys, Begin(sys, mem, false), steps);
    RunIsCounted(sys, mem, false, steps);
    t := SomeoneElsewhere(sys, s);
    match s.places[t]
    case Start => a := Enter;
    case In(g, d) =>
      assert Placed(sys, s.places[t], t);
      a := if d < |sys.OpsOf(g)[t]| then Action.Work else if g < sys.Last() then Arrive else Exit;
    case Waiting(_) =>
      a := Pass;
      if !s.err {
        var c := RunIsSound(sys, mem, steps);
        hide Counted, Sound;
        NobodyLeft(sys, s);
        t := SomeoneMayPass(sys, mem, s, c);
      }
  }

  lemma NobodyLeft(sys: System, s: State)
    requires sys.Valid() && Formed(sys, s) && Counted(sys, s) && !s.err
    ensures forall t :: 0 <= t < sys.n ==> !s.places[t].Left?
    ensures !Finished(s) ==> !AllOut(s)
    ensures Finished(s) ==> AllOut(s)
  {}

  // ---------------------------------------------------------------- every run ends

  /** The most steps a threadgroup can still take. */
  function Remaining(sys: System, p: Place, t: nat): nat
    requires sys.Valid() && t < sys.n && Placed(sys, p, t)
    decreases if p.Start? then |sys.segments| + 1 else if p.In? then |sys.segments| - p.seg else if p.Waiting? then |sys.segments| - p.seg - 1 else 0,
      if p.In? then 0 else 1
  {
    match p
    case Start => 1 + Remaining(sys, In(0, 0), t)
    case In(g, d) => |sys.OpsOf(g)[t]| - d + 1 + if g < sys.Last() then Remaining(sys, Waiting(g), t) else 0
    case Waiting(g) => 1 + Remaining(sys, In(g + 1, 0), t)
    case _ => 0
  }

  function Remainings(sys: System, s: State): (xs: seq<nat>)
    requires sys.Valid() && Formed(sys, s)
    ensures |xs| == sys.n
  {
    seq<nat>(sys.n, t requires 0 <= t < sys.n => Remaining(sys, s.places[t], t))
  }

  lemma StepSpends(sys: System, s: State, t: nat, a: Action)
    requires sys.Valid() && Formed(sys, s) && Can(sys, s, t, a)
    ensures Total(Remainings(sys, Do(sys, s, t, a))) < Total(Remainings(sys, s))
  {
    hide Total, Exec;
    var r := Do(sys, s, t, a);
    var v := Remaining(sys, r.places[t], t);
    assert v < Remaining(sys, s.places[t], t) by {
      assert Placed(sys, s.places[t], t);
    }
    TotalUpdate(Remainings(sys, s), t, v);
    assert Remainings(sys, r) == Remainings(sys, s)[t := v];
  }

  /** Healthy or not, a run has at most as many steps as there is work and barriers to pass. */
  lemma {:induction false} RunsAreBounded(sys: System, begin: State, steps: seq<(nat, Action)>)
    requires sys.Valid() && Formed(sys, begin) && Allowed(sys, begin, steps)
    ensures |steps| + Total(Remainings(sys, After(sys, begin, steps))) <= Total(Remainings(sys, begin))
    decreases |steps|
  {
    hide Can, Do, Remainings;
    if steps != [] {
      var most, last := steps[..|steps| - 1], steps[|steps| - 1];
      RunsAreBounded(sys, begin, most);
      StepSpends(sys, After(sys, begin, most), last.0, last.1);
    }
  }

  /** The operations of a threadgroup in the stretches from `g` on. */
  function Ops(sys: System, g: nat, t: nat): nat
    requires sys.Valid() && t < sys.n
    decreases |sys.segments| - g
  {
    if g >= |sys.segments| then 0 else |sys.OpsOf(g)[t]| + Ops(sys, g + 1, t)
  }

  lemma {:induction false} RemainingIn(sys: System, g: nat, t: nat)
    requires sys.Valid() && t < sys.n && g <= sys.Last()
    ensures Remaining(sys, In(g, 0), t) == Ops(sys, g, t) + 2 * (sys.Last() - g) + 1
    decreases |sys.segments| - g
  {
    if g < sys.Last() {
      RemainingIn(sys, g + 1, t);
    } else {
      assert Ops(sys, g + 1, t) == 0;
    }
  }

  /** A run from the start takes, of each threadgroup, at most its operations and two steps a stretch. */
  lemma RunLength(sys: System, mem: Mem, err: bool, steps: seq<(nat, Action)>, costs: seq<nat>)
    requires sys.Valid() && |mem| == sys.size && Allowed(sys, Begin(sys, mem, err), steps)
    requires |costs| == sys.n && forall t :: 0 <= t < sys.n ==> costs[t] == Ops(sys, 0, t) + 2 * |sys.segments|
    ensures |steps| <= Total(costs)
  {
    hide Allowed, After, Total;
    var s := Begin(sys, mem, err);
    RunsAreBounded(sys, s, steps);
    forall t | 0 <= t < sys.n ensures Remainings(sys, s)[t] == costs[t] {
      RemainingIn(sys, 0, t);
    }
    assert Remainings(sys, s) == costs;
  }

  // ---------------------------------------------------------------- what a run leaves

  function Flat(segments: seq<seq<Work>>): seq<Work> {
    if segments == [] then [] else Flat(segments[..|segments| - 1]) + segments[|segments| - 1]
  }

  predicate AllShaped(segments: seq<seq<Work>>, n: nat, size: nat) {
    forall g :: 0 <= g < |segments| ==> Shaped(segments[g], n, size)
  }

  lemma {:induction false} FlatShaped(segments: seq<seq<Work>>, n: nat, size: nat)
    requires AllShaped(segments, n, size)
    ensures Shaped(Flat(segments), n, size)
  {
    if segments != [] {
      FlatShaped(segments[..|segments| - 1], n, size);
    }
  }

  lemma {:induction false} RunAppend(m: Mem, a: seq<Work>, b: seq<Work>, n: nat)
    requires Shaped(a, n, |m|) && Shaped(b, n, |m|)
    ensures Shaped(a + b, n, |m|) && RunWorks(m, a + b, n) == RunWorks(RunWorks(m, a, n), b, n)
    decreases |b|
  {
    hide RunWork;
    if b == [] {
      assert a + b == a;
    } else {
      RunAppend(m, a, b[..|b| - 1], n);
      assert (a + b)[..|a + b| - 1] == a + b[..|b| - 1];
    }
  }

  lemma {:induction false} BaseIsReference(sys: System, mem: Mem, g: nat)
    requires sys.Valid() && |mem| == sys.size && g <= |sys.segments|
    ensures Shaped(Flat(sys.segments[..g]), sys.n, sys.size)
    ensures Base(sys, mem, g) == RunWorks(mem, Flat(sys.segments[..g]), sys.n)
    decreases g
  {
    hide RunWorks;
    FlatShaped(sys.segments[..g], sys.n, sys.size);
    if g == 0 {
      NoWorks(mem, sys.n);
    } else {
      BaseIsReference(sys, mem, g - 1);
      assert sys.segments[..g][..g - 1] == sys.segments[..g - 1];
      RunAppend(mem, Flat(sys.segments[..g - 1]), sys.segments[g - 1], sys.n);
    }
  }

  lemma NoWorks(mem: Mem, n: nat)
    ensures Shaped([], n, |mem|) && RunWorks(mem, [], n) == mem
  {}

  /** A finished run with a clear error word ran every phase, and leaves the counters ready for the next. */
  lemma ClearRunIsReference(sys: System, mem: Mem, steps: seq<(nat, Action)>)
    requires sys.Valid() && sys.NoRaces() && |mem| == sys.size && Allowed(sys, Begin(sys, mem, false), steps)
    requires var s := After(sys, Begin(sys, mem, false), steps); Finished(s) && !s.err
    ensures Shaped(Flat(sys.segments), sys.n, sys.size)
    ensures var s := After(sys, Begin(sys, mem, false), steps);
      AllOut(s) && s.mem == RunWorks(mem, Flat(sys.segments), sys.n) && s.ctr == 0 && s.exitc == 0
  {
    hide Allowed, After, RaceFree, Agrees, Total, RunWorks, Base;
    var s := After(sys, Begin(sys, mem, false), steps);
    RunIsCounted(sys, mem, false, steps);
    NobodyLeft(sys, s);
    var c := RunIsSound(sys, mem, steps);
    assert s.places[0].Out?;
    assert InStretch(sys, s.places[0], c);
    StretchDone(sys, mem, s, c);
    BaseIsReference(sys, mem, |sys.segments|);
    assert sys.segments[..|sys.segments|] == sys.segments;
  }

  /** A healthy run that can go no further is such a run: whatever the interleaving, one outcome. */
  lemma HealthyRunIsReference(sys: System, mem: Mem, steps: seq<(nat, Action)>)
    requires sys.Valid() && sys.NoRaces() && |mem| == sys.size && Allowed(sys, Begin(sys, mem, false), steps)
    requires forall i :: 0 <= i < |steps| ==> Healthy(steps[i].1)
    requires forall t, a :: Healthy(a) ==> !Can(sys, After(sys, Begin(sys, mem, false), steps), t, a)
    ensures Shaped(Flat(sys.segments), sys.n, sys.size)
    ensures var s := After(sys, Begin(sys, mem, false), steps);
      AllOut(s) && s.mem == RunWorks(mem, Flat(sys.segments), sys.n) && s.ctr == 0 && s.exitc == 0
  {
    hide Can, RaceFree, RunWorks;
    HealthyRunIsClear(sys, mem, steps);
    if !Finished(After(sys, Begin(sys, mem, false), steps)) {
      var t, a := SomeoneCanMove(sys, mem, steps);
      assert false;
    }
    ClearRunIsReference(sys, mem, steps);
  }

  /** And there is one: any healthy run can be carried on to its end. */
  lemma {:induction false} HealthyRunCompletes(sys: System, mem: Mem, steps: seq<(nat, Action)>)
    returns (all: seq<(nat, Action)>)
    requires sys.Valid() && sys.NoRaces() && |mem| == sys.size && Allowed(sys, Begin(sys, mem, false), steps)
    requires forall i :: 0 <= i < |steps| ==> Healthy(steps[i].1)
    ensures steps <= all && Allowed(sys, Begin(sys, mem, false), all)
    ensures var s := After(sys, Begin(sys, mem, false), all); AllOut(s) && !s.err
    decreases Total(Remainings(sys, Begin(sys, mem, false))) - |steps|
  {
    hide Can, RaceFree, Do, Total, Remainings;
    HealthyRunIsClear(sys, mem, steps);
    RunIsCounted(sys, mem, false, steps);
    NobodyLeft(sys, After(sys, Begin(sys, mem, false), steps));
    if Finished(After(sys, Begin(sys, mem, false), steps)) {
      all := steps;
    } else {
      var t, a := SomeoneCanMove(sys, mem, steps);
      var more := steps + [(t, a)];
      assert more[..|more| - 1] == steps;
      RunsAreBounded(sys, Begin(sys, mem, false), more);
      all := HealthyRunCompletes(sys, mem, more);
    }
  }

  /** Even with waits cut short, a run in which nobody leaves early clears the counters. */
  lemma EveryExitClears(sys: System, mem: Mem, err: bool, steps: seq<(nat, Action)>)
    requires sys.Valid() && |mem| == sys.size && Allowed(sys, Begin(sys, mem, err), steps)
    ensures var s := After(sys, Begin(sys, mem, err), steps);
      AllOut(s) ==> s.ctr == 0 && s.exitc == 0
  {
    hide Allowed, After, Total;
    RunIsCounted(sys, mem, err, steps);
  }

  /** A dispatch that finds the error word set touches nothing. */
  lemma {:induction false} ErrorStopsDispatch(sys: System, mem: Mem, steps: seq<(nat, Action)>)
    requires sys.Valid() && |mem| == sys.size && Allowed(sys, Begin(sys, mem, true), steps)
    ensures var s := After(sys, Begin(sys, mem, true), steps);
      && s.err && s.mem == mem && s.ctr == 0 && s.exitc == 0
      && forall t :: 0 <= t < sys.n ==> s.places[t] == Start || s.places[t] == Left(0)
    decreases |steps|
  {
    hide Exec;
    if steps != [] {
      ErrorStopsDispatch(sys, mem, steps[..|steps| - 1]);
    }
  }
}
