/**
 The composed kernel run by `n` threadgroups at once.  Between grid barriers each threadgroup runs the
 operations of its phases; a barrier is one arrival on a shared counter and a wait for everyone's, with a
 cap on the wait that sets a sticky error word.  Every interleaving of the steps below is a run.
 */
module MegaKernel {
  import opened MegaRace

  /** The phases of each stretch between grid barriers. */
  datatype System = System(n: nat, size: nat, segments: seq<seq<Work>>) {
    predicate Valid() {
      n > 0 && |segments| > 0 && forall g :: 0 <= g < |segments| ==> Shaped(segments[g], n, size)
    }

    function Last(): nat
      requires Valid()
    {
      |segments| - 1
    }

    function OpsOf(g: nat): (ops: seq<seq<Op>>)
      requires Valid() && g < |segments|
      ensures |ops| == n && Sized(ops, size)
    {
      Everyones(segments[g], n, size)
    }

    ghost predicate NoRaces()
      requires Valid()
    {
      forall g :: 0 <= g < |segments| ==> RaceFree(OpsOf(g))
    }
  }

  /** Where a threadgroup is.  `Left` remembers how many barriers it had arrived at. */
  datatype Place = Start | In(seg: nat, done: nat) | Waiting(seg: nat) | Out | Left(arrived: nat)

  datatype State = State(ctr: nat, exitc: nat, err: bool, places: seq<Place>, mem: Mem)

  datatype Action = Enter | Work | Fail | Arrive | Pass | GiveUp | Exit

  predicate Placed(sys: System, p: Place, t: nat)
    requires sys.Valid() && t < sys.n
  {
    match p
    case In(g, d) => g <= sys.Last() && d <= |sys.OpsOf(g)[t]|
    case Waiting(g) => g < sys.Last()
    case Left(k) => k <= sys.Last()
    case _ => true
  }

  predicate Formed(sys: System, s: State)
    requires sys.Valid()
  {
    && |s.places| == sys.n && |s.mem| == sys.size
    && forall t :: 0 <= t < sys.n ==> Placed(sys, s.places[t], t)
  }

  // ---------------------------------------------------------------- the steps

  predicate Can(sys: System, s: State, t: nat, a: Action)
    requires sys.Valid() && Formed(sys, s)
  {
    && t < sys.n
    && var p := s.places[t];
       match a
       case Enter => p.Start?
       case Work => p.In? && p.done < |sys.OpsOf(p.seg)[t]|
       case Fail => p.Start? || p.In?
       case Arrive => p.In? && p.done == |sys.OpsOf(p.seg)[t]| && p.seg < sys.Last()
       case Pass => p.Waiting? && (s.ctr >= (p.seg + 1) * sys.n || s.err)
       case GiveUp => p.Waiting? && s.ctr < (p.seg + 1) * sys.n
       case Exit => p.In? && p.done == |sys.OpsOf(p.seg)[t]| && p.seg == sys.Last()
  }

  function Do(sys: System, s: State, t: nat, a: Action): (r: State)
    requires sys.Valid() && Formed(sys, s) && Can(sys, s, t, a)
    ensures Formed(sys, r)
  {
    var p := s.places[t];
    match a
    case Enter => s.(places := s.places[t := if s.err then Left(0) else In(0, 0)])
    case Work =>
      var o := sys.OpsOf(p.seg)[t][p.done];
      assert AllFit(sys.OpsOf(p.seg)[t], sys.size);
      s.(places := s.places[t := In(p.seg, p.done + 1)], mem := Exec(s.mem, o))
    case Fail => s.(err := true, places := s.places[t := Left(if p.In? then p.seg else 0)])
    case Arrive => s.(ctr := s.ctr + 1, places := s.places[t := Waiting(p.seg)])
    case Pass => s.(places := s.places[t := In(p.seg + 1, 0)])
    case GiveUp => s.(err := true, places := s.places[t := In(p.seg + 1, 0)])
    case Exit =>
      if s.exitc == sys.n - 1 then s.(ctr := 0, exitc := 0, places := s.places[t := Out])
      else s.(exitc := s.exitc + 1, places := s.places[t := Out])
  }

  function Begin(sys: System, mem: Mem, err: bool): (s: State)
    requires sys.Valid() && |mem| == sys.size
    ensures Formed(sys, s)
  {
    State(0, 0, err, seq<Place>(sys.n, t requires 0 <= t < sys.n => Start), mem)
  }

  /** `steps` names the threadgroup and the action of every step, in order. */
  predicate Allowed(sys: System, begin: State, steps: seq<(nat, Action)>)
    requires sys.Valid() && Formed(sys, begin)
    decreases |steps|, 0
  {
    steps == [] ||
    var most, last := steps[..|steps| - 1], steps[|steps| - 1];
    Allowed(sys, begin, most) && Can(sys, After(sys, begin, most), last.0, last.1)
  }

  function After(sys: System, begin: State, steps: seq<(nat, Action)>): (s: State)
    requires sys.Valid() && Formed(sys, begin) && Allowed(sys, begin, steps)
    ensures Formed(sys, s)
    decreases |steps|, 1
  {
    if steps == [] then begin
    else
      var most, last := steps[..|steps| - 1], steps[|steps| - 1];
      Do(sys, After(sys, begin, most), last.0, last.1)
  }

  predicate AllOut(s: State) {
    forall t :: 0 <= t < |s.places| ==> s.places[t].Out?
  }

  predicate Finished(s: State) {
    forall t :: 0 <= t < |s.places| ==> s.places[t].Out? || s.places[t].Left?
  }

  // ---------------------------------------------------------------- sums over threadgroups

  function Total(xs: seq<nat>): nat {
    if xs == [] then 0 else Total(xs[..|xs| - 1]) + xs[|xs| - 1]
  }

  lemma {:induction false} TotalUpdate(xs: seq<nat>, t: nat, v: nat)
    requires t < |xs|
    ensures Total(xs[t := v]) + xs[t] == Total(xs) + v
  {
    var k := |xs| - 1;
    if t == k {
      assert xs[t := v][..k] == xs[..k];
    } else {
      TotalUpdate(xs[..k], t, v);
      assert xs[t := v][..k] == xs[..k][t := v];
    }
  }

  lemma {:induction false} TotalAtLeast(xs: seq<nat>, m: nat)
    requires forall t :: 0 <= t < |xs| ==> xs[t] >= m
    ensures Total(xs) >= |xs| * m
  {
    if xs != [] {
      TotalAtLeast(xs[..|xs| - 1], m);
      assert |xs| * m == (|xs| - 1) * m + m;
    }
  }

  lemma {:induction false} TotalAtMost(xs: seq<nat>, m: nat)
    requires forall t :: 0 <= t < |xs| ==> xs[t] <= m
    ensures Total(xs) <= |xs| * m
  {
    if xs != [] {
      TotalAtMost(xs[..|xs| - 1], m);
      assert |xs| * m == (|xs| - 1) * m + m;
    }
  }

  lemma TotalBelow(xs: seq<nat>, m: nat, t: nat)
    requires t < |xs| && xs[t] < m && forall u :: 0 <= u < |xs| ==> xs[u] <= m
    ensures Total(xs) < |xs| * m
  {
    TotalUpdate(xs, t, m);
    TotalAtMost(xs[t := m], m);
  }

  // ---------------------------------------------------------------- the counters

  /** The grid barriers a threadgroup has arrived at. */
  function Arrived(p: Place, last: nat): nat {
    match p
    case Start => 0
    case In(g, _) => g
    case Waiting(g) => g + 1
    case Out => last
    case Left(k) => k
  }

  function Arrivals(places: seq<Place>, last: nat): (xs: seq<nat>)
    ensures |xs| == |places|
  {
    seq<nat>(|places|, t requires 0 <= t < |places| => Arrived(places[t], last))
  }

  function Exits(places: seq<Place>): (xs: seq<nat>)
    ensures |xs| == |places|
  {
    seq<nat>(|places|, t requires 0 <= t < |places| => if places[t].Out? then 1 else 0)
  }

  /** The barrier counter is the sum of the arrivals until the last threadgroup out clears both. */
  ghost predicate Counted(sys: System, s: State)
    requires sys.Valid() && Formed(sys, s)
  {
    && (if AllOut(s) then s.ctr == 0 && s.exitc == 0
        else s.ctr == Total(Arrivals(s.places, sys.Last())) && s.exitc == Total(Exits(s.places)))
    && (!s.err ==> forall t :: 0 <= t < sys.n ==> !s.places[t].Left?)
  }

  lemma CountsMove(places: seq<Place>, t: nat, p: Place, last: nat)
    requires t < |places|
    ensures Total(Arrivals(places[t := p], last)) + Arrived(places[t], last)
      == Total(Arrivals(places, last)) + Arrived(p, last)
    ensures Total(Exits(places[t := p])) + (if places[t].Out? then 1 else 0)
      == Total(Exits(places)) + if p.Out? then 1 else 0
  {
    TotalUpdate(Arrivals(places, last), t, Arrived(p, last));
    assert Arrivals(places, last)[t := Arrived(p, last)] == Arrivals(places[t := p], last);
    TotalUpdate(Exits(places), t, if p.Out? then 1 else 0);
    assert Exits(places)[t := if p.Out? then 1 else 0] == Exits(places[t := p]);
  }

  /** Everyone has left through the exit exactly when there are as many exits as threadgroups. */
  lemma ExitsCount(s: State)
    ensures Total(Exits(s.places)) <= |s.places|
    ensures AllOut(s) <==> Total(Exits(s.places)) == |s.places|
  {
    var xs := Exits(s.places);
    TotalAtMost(xs, 1);
    if AllOut(s) {
      TotalAtLeast(xs, 1);
    } else {
      var t :| 0 <= t < |s.places| && !s.places[t].Out?;
      TotalBelow(xs, 1, t);
    }
  }

  /** In every state of every run the counter is at most one arrival a threadgroup and barrier. */
  lemma CounterIsBounded(sys: System, s: State)
    requires sys.Valid() && Formed(sys, s) && Counted(sys, s)
    ensures s.ctr <= sys.n * sys.Last()
  {
    forall t | 0 <= t < sys.n ensures Arrived(s.places[t], sys.Last()) <= sys.Last() {
      assert Placed(sys, s.places[t], t);
    }
    TotalAtMost(Arrivals(s.places, sys.Last()), sys.Last());
  }

  lemma CountedAtFirst(sys: System, mem: Mem, err: bool)
    requires sys.Valid() && |mem| == sys.size
    ensures Counted(sys, Begin(sys, mem, err))
  {
    var s := Begin(sys, mem, err);
    assert s.places[0] == Start;
    TotalAtMost(Arrivals(s.places, sys.Last()), 0);
    TotalAtMost(Exits(s.places), 0);
  }

  lemma CountedStep(sys: System, s: State, t: nat, a: Action)
    requires sys.Valid() && Formed(sys, s) && Counted(sys, s) && Can(sys, s, t, a)
    ensures Counted(sys, Do(sys, s, t, a))
  {
    hide Total, Arrivals, Exits, Exec;
    var r := Do(sys, s, t, a);
    assert !s.places[t].Out?;
    CountsMove(s.places, t, r.places[t], sys.Last());
    assert r.places == s.places[t := r.places[t]];
    ExitsCount(s);
    ExitsCount(r);
  }
}
