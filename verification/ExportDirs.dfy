/**
 The directories of a destination that an export creates, before its commit.  Files move in one by one and
 the directories on the way to each are made first; undoing unlinks files, removes the parents left empty,
 and then the destination, which must be empty.  Power may go before any operation, in undoing too.
 */
module ExportDirs {
  import H = ExportHost

  /** A path below the destination, part by part. */
  type Route = seq<string>

  datatype Tree = Tree(files: set<Route>, dirs: set<Route>)

  /** The first `k` directories on the way to `f`. */
  function Parents(f: Route, k: nat): set<Route>
    requires k <= |f|
  {
    set j | 1 <= j <= k :: f[..j]
  }

  function Up(d: Route): Route
    requires d != []
  {
    d[..|d| - 1]
  }

  /** Some file lies below `d`. */
  ghost predicate Holds(files: set<Route>, d: Route) {
    exists f :: f in files && d < f
  }

  /** No directory is there for nothing. */
  ghost predicate Clean(t: Tree) {
    forall d :: d in t.dirs ==> Holds(t.files, d)
  }

  /** Every entry hangs in directories of the tree. */
  ghost predicate Rooted(t: Tree) {
    && t.files !! t.dirs && [] !in t.files && [] !in t.dirs
    && forall e :: e in t.files + t.dirs && |e| > 1 ==> Up(e) in t.dirs
  }

  lemma {:induction false} AncestorIn(t: Tree, e: Route, d: Route)
    requires Rooted(t) && e in t.files + t.dirs && d != [] && d < e
    ensures d in t.dirs
    decreases |e|
  {
    if d < Up(e) {
      AncestorIn(t, Up(e), d);
    } else {
      assert d == Up(e);
    }
  }

  predicate Childless(t: Tree, d: Route) {
    forall e :: e in t.files + t.dirs ==> !(d < e)
  }

  /** The files of a plan: no path is another's, or leads through another's. */
  predicate Apart(fs: seq<Route>) {
    && (forall i :: 0 <= i < |fs| ==> fs[i] != [])
    && forall i, j :: 0 <= i < |fs| && 0 <= j < |fs| && i != j ==> !(fs[i] <= fs[j])
  }

  /** The destination once the files of `fs` are in. */
  function Installed(fs: seq<Route>): Tree
    requires forall i :: 0 <= i < |fs| ==> fs[i] != []
  {
    if fs == [] then Tree({}, {})
    else
      var t, f := Installed(fs[..|fs| - 1]), fs[|fs| - 1];
      Tree(t.files + {f}, t.dirs + Parents(f, |f| - 1))
  }

  /** Power went after the first `i` files and `k` of the directories on the way to the next. */
  function Stopped(fs: seq<Route>, i: nat, k: nat): Tree
    requires Apart(fs) && i < |fs| && k < |fs[i]|
  {
    var t := Installed(fs[..i]);
    Tree(t.files, t.dirs + Parents(fs[i], k))
  }

  /** Operations of an installation: one for every directory on the way to a file, and its move. */
  function Cost(fs: seq<Route>): nat {
    if fs == [] then 0 else Cost(fs[..|fs| - 1]) + |fs[|fs| - 1]|
  }

  // ---------------------------------------------------------------- what installing builds

  lemma {:induction false} InstalledHolds(fs: seq<Route>)
    requires forall i :: 0 <= i < |fs| ==> fs[i] != []
    ensures forall f :: f in Installed(fs).files <==> f in fs
    ensures forall d :: d in Installed(fs).dirs <==> d != [] && Holds(Installed(fs).files, d)
  {
    if fs != [] {
      var most, f := fs[..|fs| - 1], fs[|fs| - 1];
      InstalledHolds(most);
      assert fs == most + [f];
      forall d ensures d in Installed(fs).dirs <==> d != [] && Holds(Installed(fs).files, d) {
        OneFileMore(Installed(most), f, d);
      }
    }
  }

  lemma ParentsAre(f: Route, k: nat, d: Route)
    requires k < |f|
    ensures d in Parents(f, k) <==> d != [] && d < f && |d| <= k
  {
    if d != [] && d < f && |d| <= k {
      assert d == f[..|d|];
    }
  }

  lemma OneFileMore(t: Tree, f: Route, d: Route)
    requires f != [] && (d in t.dirs <==> d != [] && Holds(t.files, d))
    ensures d in t.dirs + Parents(f, |f| - 1) <==> d != [] && Holds(t.files + {f}, d)
  {
    ParentsAre(f, |f| - 1, d);
    assert f in t.files + {f};
    if Holds(t.files, d) {
      var g :| g in t.files && d < g;
      assert g in t.files + {f};
    }
  }

  lemma ApartPrefix(fs: seq<Route>, i: nat)
    requires Apart(fs) && i <= |fs|
    ensures Apart(fs[..i])
  {}

  /** A destination in which installing stopped is a tree of directories. */
  lemma StoppedIsRooted(fs: seq<Route>, i: nat, k: nat)
    requires Apart(fs) && i < |fs| && k < |fs[i]|
    ensures Rooted(Stopped(fs, i, k))
  {
    hide Installed, Parents;
    ApartPrefix(fs, i);
    InstalledHolds(fs[..i]);
    var t, s := Installed(fs[..i]), Stopped(fs, i, k);
    forall d ensures d in Parents(fs[i], k) <==> d != [] && d < fs[i] && |d| <= k {
      ParentsAre(fs[i], k, d);
    }
    forall f | f in s.files ensures f !in s.dirs && f != [] {
      StoppedApart(fs, i, f);
    }
    forall e | e in s.files + s.dirs && |e| > 1 ensures Up(e) in s.dirs {
      if e in t.files {
        assert Holds(t.files, Up(e));
      } else if e in t.dirs {
        var f :| f in t.files && e < f;
        assert Holds(t.files, Up(e));
      }
    }
  }

  /** No installed file is a directory on the way to another file. */
  lemma StoppedApart(fs: seq<Route>, i: nat, f: Route)
    requires Apart(fs) && i < |fs| && f in fs[..i]
    ensures f != [] && !(f < fs[i]) && forall g :: g in fs[..i] ==> !(f < g)
  {
    var a :| 0 <= a < i && f == fs[a];
    assert !(fs[a] <= fs[i]);
    forall g | g in fs[..i] ensures !(f < g) {
      var b :| 0 <= b < i && g == fs[b];
      if a != b {
        assert !(fs[a] <= fs[b]);
      }
    }
  }

  // ---------------------------------------------------------------- which stops leave a stray directory

  /** A stop is clean exactly when no directory was made since the last file moved in. */
  lemma StopIsClean(fs: seq<Route>, i: nat, k: nat)
    requires Apart(fs) && i < |fs| && k < |fs[i]|
    ensures Clean(Stopped(fs, i, k)) <==> Parents(fs[i], k) <= Installed(fs[..i]).dirs
  {
    hide Installed, Parents;
    ApartPrefix(fs, i);
    InstalledHolds(fs[..i]);
    var t, s := Installed(fs[..i]), Stopped(fs, i, k);
    if Clean(s) {
      forall d | d in Parents(fs[i], k) ensures d in t.dirs {
        ParentsAre(fs[i], k, d);
        assert d in s.dirs;
      }
    }
  }

  ghost predicate EveryStopClean(fs: seq<Route>)
    requires Apart(fs)
  {
    forall i: nat, k: nat :: i < |fs| && k < |fs[i]| ==> Clean(Stopped(fs, i, k))
  }

  predicate Flat(fs: seq<Route>) {
    forall i :: 0 <= i < |fs| ==> |fs[i]| == 1
  }

  /** Every stop of a first export is clean if and only if no file lies in a directory. */
  lemma SafeIsFlat(fs: seq<Route>)
    requires Apart(fs)
    ensures EveryStopClean(fs) <==> Flat(fs)
  {
    hide Stopped, Installed;
    if Flat(fs) {
      forall i: nat, k: nat | i < |fs| && k < |fs[i]| ensures Clean(Stopped(fs, i, k)) {
        assert Parents(fs[i], 0) == {};
        StopIsClean(fs, i, k);
      }
    } else {
      var i := FirstNested(fs);
      StopIsClean(fs, i, 1);
      NothingMade(fs, i);
      assert fs[i][..1] in Parents(fs[i], 1);
      assert !Clean(Stopped(fs, i, 1));
    }
  }

  lemma {:induction false} FirstNested(fs: seq<Route>) returns (i: nat)
    requires Apart(fs) && !Flat(fs)
    ensures i < |fs| && |fs[i]| > 1 && Flat(fs[..i])
  {
    var most := fs[..|fs| - 1];
    ApartPrefix(fs, |fs| - 1);
    if Flat(most) {
      i := |fs| - 1;
    } else {
      i := FirstNested(most);
      assert most[..i] == fs[..i];
    }
  }

  lemma NothingMade(fs: seq<Route>, i: nat)
    requires Apart(fs) && i < |fs| && Flat(fs[..i])
    ensures Installed(fs[..i]).dirs == {}
  {
    hide Installed;
    ApartPrefix(fs, i);
    InstalledHolds(fs[..i]);
  }

  // ---------------------------------------------------------------- what undoing keeps

  /** `u` is `t` without file `f`, and perhaps without directories that led only to it. */
  ghost predicate Dropped(t: Tree, u: Tree, f: Route) {
    && u.files == t.files - {f} && u.dirs <= t.dirs
    && forall d :: d in t.dirs && !(d < f) ==> d in u.dirs
  }

  /** A stray directory leads to no file, so no file takes it along. */
  lemma StrayStays(t: Tree, u: Tree, f: Route)
    requires f in t.files && Dropped(t, u, f) && !Clean(t)
    ensures !Clean(u)
  {
    var d :| d in t.dirs && !Holds(t.files, d);
    assert d in u.dirs && !Holds(u.files, d);
  }

  /** A directory on the way to `f` that is not empty still leads to a file. */
  lemma {:induction false} StillHolds(t: Tree, u: Tree, f: Route, d: Route)
    requires f in t.files && Dropped(t, u, f) && Clean(t) && d in u.dirs
    requires forall e :: e in u.dirs && e < f ==> !Childless(u, e)
    ensures Holds(u.files, d)
    decreases if d < f then |f| - |d| else 0
  {
    if d < f {
      var e :| e in u.files + u.dirs && d < e;
      if e in u.dirs {
        StillHolds(t, u, f, e);
        var g :| g in u.files && e < g;
        assert d < g;
      }
    } else {
      var g :| g in t.files && d < g;
      assert g in u.files;
    }
  }

  lemma CleanStays(t: Tree, u: Tree, f: Route)
    requires f in t.files && Dropped(t, u, f) && Clean(t)
    requires forall e :: e in u.dirs && e < f ==> !Childless(u, e)
    ensures Clean(u)
  {
    forall d | d in u.dirs ensures Holds(u.files, d) {
      StillHolds(t, u, f, d);
    }
  }

  /** Undoing can be cut off as well: between an unlink and the removal of the parents it emptied. */
  lemma UnlinkIsClean(t: Tree, f: Route)
    requires Rooted(t) && Clean(t) && f in t.files
    ensures Clean(Tree(t.files - {f}, t.dirs)) <==> forall d :: d != [] && d < f ==> Holds(t.files - {f}, d)
  {
    hide Holds, Rooted;
    var u := Tree(t.files - {f}, t.dirs);
    if Clean(u) {
      forall d | d != [] && d < f ensures Holds(u.files, d) {
        AncestorIn(t, f, d);
      }
    } else {
      var d :| d in u.dirs && !Holds(u.files, d);
      OnlyOneHeld(t.files, f, d);
      assert d != [] by {
        NoRoot(t);
      }
    }
  }

  lemma NoRoot(t: Tree)
    requires Rooted(t)
    ensures [] !in t.dirs
  {}

  lemma OnlyOneHeld(files: set<Route>, f: Route, d: Route)
    requires Holds(files, d) && !Holds(files - {f}, d)
    ensures d < f
  {
    var g :| g in files && d < g;
    assert g in files - {f} || g == f;
  }

  lemma DirGone(t: Tree, d: Route)
    requires Rooted(t) && d in t.dirs && Childless(t, d)
    ensures Rooted(Tree(t.files, t.dirs - {d}))
    ensures Up(d) == [] || Up(d) in t.dirs - {d}
  {
    var u := Tree(t.files, t.dirs - {d});
    forall e | e in u.files + u.dirs && |e| > 1 ensures Up(e) in u.dirs {
      assert Up(e) < e;
    }
  }

  lemma FileGone(t: Tree, f: Route)
    requires Rooted(t) && f in t.files
    ensures Rooted(Tree(t.files - {f}, t.dirs)) && f != [] && (Up(f) == [] || Up(f) in t.dirs)
  {}

  /** Directories have gone, and only `d` and those above it. */
  ghost predicate Climbed(was: set<Route>, now: set<Route>, d: Route) {
    now <= was && forall e :: e in was && !(e <= d) ==> e in now
  }

  /** Of `d` and the directories above it, those below `current` have gone. */
  ghost predicate UpTo(dirs: set<Route>, d: Route, current: Route) {
    forall e :: e in dirs && e <= d ==> e <= current
  }

  lemma NotYetClimbed(dirs: set<Route>, d: Route)
    ensures Climbed(dirs, dirs, d) && UpTo(dirs, d, d)
  {}

  lemma ParentIsBelow(f: Route, e: Route)
    requires f != []
    ensures e <= Up(f) <==> e < f
  {}

  lemma Climb(was: set<Route>, now: set<Route>, d: Route, current: Route)
    requires current != [] && current <= d && Climbed(was, now, d) && UpTo(now, d, current)
    ensures Climbed(was, now - {current}, d) && UpTo(now - {current}, d, Up(current)) && Up(current) <= d
  {
    forall e | e in now - {current} && e <= d ensures e <= Up(current) {
      assert e in now && e <= current;
      assert |e| == |current| ==> e == current;
      ParentIsBelow(current, e);
    }
  }

  /** A directory that is not empty leaves none above it empty. */
  lemma NotEmptyAbove(t: Tree, d: Route, current: Route)
    requires current in t.dirs && !Childless(t, current) && UpTo(t.dirs, d, current)
    ensures forall e :: e in t.dirs && e <= d ==> !Childless(t, e)
  {
    var x :| x in t.files + t.dirs && current < x;
    forall e | e in t.dirs && e <= d ensures !Childless(t, e) {
      assert e < x;
    }
  }

  lemma NoneAbove(t: Tree, d: Route)
    requires Rooted(t) && UpTo(t.dirs, d, [])
    ensures forall e :: e in t.dirs && e <= d ==> !Childless(t, e)
  {}

  // ---------------------------------------------------------------- the destination as it changes

  class Destination {
    var files: set<Route>
    var dirs: set<Route>
    /** Operations before power goes. */
    var left: nat

    constructor (ops: nat)
      ensures files == {} && dirs == {} && left == ops
    {
      files, dirs, left := {}, {}, ops;
    }

    function Now(): Tree
      reads this`files, this`dirs
    {
      Tree(files, dirs)
    }

    /** Whether the next operation takes place. */
    method Powered() returns (up: bool)
      modifies this`left
      ensures up == (old(left) > 0) && left == if up then old(left) - 1 else 0
    {
      up := left > 0;
      if up {
        left := left - 1;
      }
    }

    /** `mkdir(parents=True, exist_ok=True)` for the parent of `f`. */
    method MakeParents(f: Route) returns (up: bool, ghost k: nat)
      requires f != []
      modifies this`dirs, this`left
      ensures k < |f| && dirs == old(dirs) + Parents(f, k)
      ensures up ==> k == |f| - 1 && old(left) == left + k
      ensures !up ==> old(left) == k && left == 0
    {
      k := 0;
      var j := 1;
      while j < |f|
        invariant 1 <= j <= |f| && k == j - 1 && left + k == old(left)
        invariant dirs == old(dirs) + Parents(f, k)
      {
        up := Powered();
        if !up {
          return;
        }
        dirs := dirs + {f[..j]};
        assert Parents(f, j) == Parents(f, j - 1) + {f[..j]};
        k, j := j, j + 1;
      }
      up := true;
    }

    /** Moves the files in, in plan order. */
    method Install(fs: seq<Route>) returns (up: bool, ghost i: nat, ghost k: nat)
      requires Apart(fs) && files == {} && dirs == {}
      modifies this
      ensures up ==> Now() == Installed(fs) && old(left) == left + Cost(fs)
      ensures !up ==> i < |fs| && k < |fs[i]| && Now() == Stopped(fs, i, k) && old(left) == Cost(fs[..i]) + k
    {
      hide Parents;
      var n := 0;
      while n < |fs|
        invariant 0 <= n <= |fs| && Now() == Installed(fs[..n]) && old(left) == left + Cost(fs[..n])
      {
        assert fs[..n + 1][..n] == fs[..n];
        i := n;
        up, k := MakeParents(fs[n]);
        if !up {
          return;
        }
        up := Powered();
        if !up {
          return;
        }
        files := files + {fs[n]};
        n := n + 1;
      }
      assert fs[..n] == fs;
      up, i, k := true, 0, 0;
    }

    /** Removes `d` and the directories above it while they are empty. */
    method RemoveEmptyParents(d: Route) returns (up: bool)
      requires Rooted(Now()) && (d == [] || d in dirs)
      modifies this`dirs, this`left
      ensures Rooted(Now()) && Climbed(old(dirs), dirs, d)
      ensures up ==> forall e :: e in dirs && e <= d ==> !Childless(Now(), e)
      ensures old(left) - left == |old(dirs)| - |dirs| && (!up ==> left == 0 && dirs != {})
    {
      hide Rooted, Childless, Climbed, UpTo;
      var current := d;
      NotYetClimbed(dirs, d);
      while current != []
        invariant current <= d && Rooted(Now()) && (current == [] || current in dirs)
        invariant Climbed(old(dirs), dirs, d) && UpTo(dirs, d, current)
        invariant old(left) - left == |old(dirs)| - |dirs|
        decreases |current|
      {
        if !Childless(Now(), current) {
          NotEmptyAbove(Now(), d, current);
          return true;
        }
        up := Powered();
        if !up {
          return;
        }
        DirGone(Now(), current);
        Climb(old(dirs), dirs, d, current);
        dirs := dirs - {current};
        current := Up(current);
      }
      NoneAbove(Now(), d);
      up := true;
    }

    /** Unlinks one installed file and the parents it leaves empty. */
    method Drop(f: Route) returns (up: bool)
      requires Rooted(Now()) && f in files
      modifies this
      ensures Rooted(Now()) && files <= old(files)
      ensures up ==> f !in files
      ensures !Clean(old(Now())) ==> !Clean(Now())
      ensures up && Clean(old(Now())) ==> Clean(Now())
      ensures old(left) - left == |old(files)| + |old(dirs)| - |files| - |dirs|
      ensures !up ==> left == 0 && |files| + |dirs| > 0
    {
      hide Rooted, Clean, Childless;
      ghost var t := Now();
      up := Powered();
      if !up {
        return;
      }
      FileGone(t, f);
      files := files - {f};
      up := RemoveEmptyParents(Up(f));
      forall e | e in t.dirs ensures e <= Up(f) <==> e < f {
        ParentIsBelow(f, e);
      }
      if !Clean(t) {
        StrayStays(t, Now(), f);
      } else if up {
        CleanStays(t, Now(), f);
      }
    }

    /** Undoes a first export: unlinks its files, then removes the destination if nothing is left in it. */
    method Undo(fs: seq<Route>) returns (o: H.Outcome)
      requires Rooted(Now()) && forall f :: f in files ==> f in fs
      modifies this
      ensures Rooted(Now()) && files <= old(files)
      ensures o == H.Done ==> Clean(old(Now())) && files == {} && dirs == {}
      ensures o == H.Failed ==> !Clean(old(Now()))
      ensures !Clean(old(Now())) ==> !Clean(Now())
      ensures old(left) > |old(files)| + |old(dirs)| ==> o != H.Down
    {
      hide Rooted, Clean;
      ghost var t, c := Now(), left;
      var n := 0;
      while n < |fs|
        invariant 0 <= n <= |fs| && Rooted(Now()) && files <= t.files
        invariant forall f :: f in files ==> f in fs[n..]
        invariant Clean(t) <==> Clean(Now())
        invariant c - left == |t.files| + |t.dirs| - |files| - |dirs|
      {
        if fs[n] in files {
          var up := Drop(fs[n]);
          if !up {
            return H.Down;
          }
        }
        n := n + 1;
      }
      assert files == {};
      NothingToHold(Now());
      if dirs != {} {
        return H.Failed;
      }
      var up := Powered();
      o := if up then H.Done else H.Down;
    }

    lemma NothingToHold(t: Tree)
      requires t.files == {}
      ensures Clean(t) <==> t.dirs == {}
    {}
  }

  // ---------------------------------------------------------------- a crash, and every recovery after it

  lemma {:induction false} CostGrows(fs: seq<Route>, i: nat, j: nat)
    requires i < j <= |fs|
    ensures Cost(fs[..i]) + |fs[i]| <= Cost(fs[..j])
    decreases j
  {
    assert fs[..j][..j - 1] == fs[..j - 1];
    if i < j - 1 {
      CostGrows(fs, i, j - 1);
    }
  }

  lemma StopIsOne(fs: seq<Route>, i: nat, k: nat, a: nat, b: nat)
    requires i < |fs| && k < |fs[i]| && a < |fs| && b < |fs[a]|
    requires Cost(fs[..i]) + k == Cost(fs[..a]) + b
    ensures i == a && k == b
  {
    hide Cost;
    if i < a {
      CostGrows(fs, i, a);
    } else if a < i {
      CostGrows(fs, a, i);
    }
  }

  /** Power goes at a given stop of the installation. */
  method CrashAt(fs: seq<Route>, i: nat, k: nat) returns (d: Destination)
    requires Apart(fs) && i < |fs| && k < |fs[i]|
    ensures fresh(d) && d.Now() == Stopped(fs, i, k)
  {
    hide Cost, Installed, Stopped;
    d := new Destination(Cost(fs[..i]) + k);
    ghost var a, b;
    var up;
    up, a, b := d.Install(fs);
    if up {
      assert fs[..|fs|] == fs;
      CostGrows(fs, i, |fs|);
    } else {
      StopIsOne(fs, i, k, a, b);
    }
  }

  /**
   A first export that loses power while installing is undone by an uninterrupted recovery if and only if no
   directory was made since the last file moved in.  Otherwise a later recovery does not succeed either,
   however much power it has.
   */
  method CrashThenRecover(fs: seq<Route>, i: nat, k: nat, more: nat) returns (first: H.Outcome, second: H.Outcome)
    requires Apart(fs) && i < |fs| && k < |fs[i]|
    ensures first == H.Done <==> Parents(fs[i], k) <= Installed(fs[..i]).dirs
    ensures first != H.Done ==> first == H.Failed && second != H.Done
  {
    hide Rooted, Clean, Installed, Stopped;
    var d := CrashAt(fs, i, k);
    StopIsClean(fs, i, k);
    StoppedIsRooted(fs, i, k);
    StoppedFiles(fs, i, k);
    d.left := |d.files| + |d.dirs| + 1;
    first := d.Undo(fs);
    d.left := more;
    second := d.Undo(fs);
  }

  lemma StoppedFiles(fs: seq<Route>, i: nat, k: nat)
    requires Apart(fs) && i < |fs| && k < |fs[i]|
    ensures forall f :: f in Stopped(fs, i, k).files ==> f in fs
  {
    hide Installed;
    ApartPrefix(fs, i);
    InstalledHolds(fs[..i]);
  }
}
