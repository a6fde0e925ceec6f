/**
 Collecting the native sources of a build: a directory walk in whatever order the file system lists
 entries, a sort by path, and one length-prefixed field per input.
 */
module BuildIdentity {
  import opened BuildStream
  import opened Lex

  type Path = seq<Bytes>

  /** A directory as one enumeration of it lists its entries. */
  datatype Node = File(name: Bytes) | Dir(name: Bytes, entries: seq<Node>)

  // ---------------------------------------------------------------- which files

  function LastDot(name: Bytes, n: nat): Option<nat>
    requires n <= |name|
  {
    if n == 0 then None else if name[n - 1] == 46 then Some(n - 1) else LastDot(name, n - 1)
  }

  /** What follows the last dot, unless that dot begins the name. */
  function Extension(name: Bytes): Option<Bytes> {
    match LastDot(name, |name|)
    case Some(d) => if 0 < d < |name| then Some(name[d + 1..]) else None
    case None => None
  }

  predicate IsSource(name: Bytes) {
    var e := Extension(name);
    e.Some? && (e.value == Ascii("cu") || e.value == Ascii("cuh") || e.value == Ascii("h") ||
                e.value == Ascii("inc") || e.value == Ascii("def"))
  }

  lemma {:induction false} LastDotIs(name: Bytes, n: nat)
    requires n <= |name|
    ensures match LastDot(name, n)
            case None => forall i :: 0 <= i < n ==> name[i] != 46
            case Some(d) => d < n && name[d] == 46 && forall i :: d < i < n ==> name[i] != 46
  {
    if n > 0 && name[n - 1] != 46 {
      LastDotIs(name, n - 1);
    }
  }

  lemma DotThenExtension(name: Bytes, stem: Bytes, ext: Bytes)
    requires stem != [] && 46 !in ext && name == stem + [46] + ext
    ensures Extension(name) == Some(ext)
  {
    LastDotIs(name, |name|);
    assert name[|stem|] == 46;
    forall i | |stem| < i < |name| ensures name[i] != 46 {
      assert name[i] == ext[i - |stem| - 1] && ext[i - |stem| - 1] in ext;
    }
    assert LastDot(name, |name|) == Some(|stem|);
    assert name[|stem| + 1..] == ext;
  }

  /** The name is some text, a dot, and one of the five extensions: cu, cuh, h, inc, def. */
  predicate EndsLikeSource(name: Bytes, stem: Bytes) {
    stem != [] && name in {stem + [46, 99, 117], stem + [46, 99, 117, 104], stem + [46, 104],
      stem + [46, 105, 110, 99], stem + [46, 100, 101, 102]}
  }

  lemma AsciiNames()
    ensures Ascii("cu") == [99, 117] && Ascii("cuh") == [99, 117, 104] && Ascii("h") == [104]
    ensures Ascii("inc") == [105, 110, 99] && Ascii("def") == [100, 101, 102]
    ensures Ascii("native") == [110, 97, 116, 105, 118, 101] && Ascii("tests") == [116, 101, 115, 116, 115]
  {}

  lemma ExtensionIsTail(name: Bytes)
    requires Extension(name).Some?
    ensures var ext := Extension(name).value;
      |name| > |ext| + 1 && name == name[..|name| - |ext| - 1] + [46] + ext
  {
    LastDotIs(name, |name|);
    var d := LastDot(name, |name|).value;
    assert name == name[..d] + [46] + name[d + 1..];
  }

  lemma SourceEnds(name: Bytes)
    requires IsSource(name)
    ensures exists stem :: EndsLikeSource(name, stem)
  {
    AsciiNames();
    hide Ascii, Extension;
    ExtensionIsTail(name);
    var ext := Extension(name).value;
    var stem := name[..|name| - |ext| - 1];
    assert name == stem + [46] + ext;
    assert [46] + [99, 117] == [46, 99, 117] && [46] + [99, 117, 104] == [46, 99, 117, 104] && [46] + [104] == [46, 104];
    assert [46] + [105, 110, 99] == [46, 105, 110, 99] && [46] + [100, 101, 102] == [46, 100, 101, 102];
    assert name == stem + ([46] + ext);
    assert EndsLikeSource(name, stem);
  }

  lemma EndsAsSource(name: Bytes, stem: Bytes)
    requires EndsLikeSource(name, stem)
    ensures IsSource(name)
  {
    AsciiNames();
    hide Ascii, Extension;
    var ext := name[|stem| + 1..];
    assert name == stem + [46] + ext;
    DotThenExtension(name, stem, ext);
  }

  /** A file is taken exactly when its name is more than an extension and ends in one of the five. */
  lemma SourceNames(name: Bytes)
    ensures IsSource(name) <==> exists stem :: EndsLikeSource(name, stem)
  {
    hide EndsLikeSource, IsSource;
    if IsSource(name) {
      SourceEnds(name);
    }
    if stem :| EndsLikeSource(name, stem) {
      EndsAsSource(name, stem);
    }
  }

  predicate Skipped(name: Bytes) {
    name == Ascii("tests")
  }

  /** The sources under a directory at `at`, in the order of the walk. */
  function Listed(entries: seq<Node>, at: Path): seq<Path> {
    if entries == [] then [] else Listed(entries[..|entries| - 1], at) + ListedOne(entries[|entries| - 1], at)
  }

  function ListedOne(e: Node, at: Path): seq<Path> {
    match e
    case File(name) => if IsSource(name) then [at + [name]] else []
    case Dir(name, entries) => if Skipped(name) then [] else Listed(entries, at + [name])
  }

  /** The walk: descend into directories and push what is taken. */
  method Collect(entries: seq<Node>, at: Path, files: seq<Path>) returns (all: seq<Path>)
    ensures all == files + Listed(entries, at)
    decreases entries
  {
    hide IsSource, Skipped;
    all := files;
    var i := 0;
    while i < |entries|
      invariant 0 <= i <= |entries|
      invariant all == files + Listed(entries[..i], at)
    {
      var e := entries[i];
      assert entries[..i + 1][..i] == entries[..i];
      if e.Dir? {
        if !Skipped(e.name) {
          all := Collect(e.entries, at + [e.name], all);
        }
      } else if IsSource(e.name) {
        all := all + [at + [e.name]];
      }
      i := i + 1;
    }
    assert entries[..|entries|] == entries;
  }

  // ---------------------------------------------------------------- the same directory, listed twice

  predicate SameNode(a: Node, b: Node)
    decreases a, 0
  {
    match a
    case File(name) => b == File(name)
    case Dir(name, entries) => b.Dir? && b.name == name && SameDir(entries, b.entries)
  }

  predicate HasTwin(x: Node, b: seq<Node>)
    decreases x, 1
  {
    exists j :: 0 <= j < |b| && SameNode(x, b[j])
  }

  predicate IsTwin(a: seq<Node>, y: Node)
    decreases a, 0
  {
    exists i :: 0 <= i < |a| && SameNode(a[i], y)
  }

  /** Two enumerations of one directory: the same entries, at every level in any order. */
  predicate SameDir(a: seq<Node>, b: seq<Node>)
    decreases a, 1
  {
    && (forall i :: 0 <= i < |a| ==> HasTwin(a[i], b))
    && forall j :: 0 <= j < |b| ==> IsTwin(a, b[j])
  }

  /** No directory has two entries of one name. */
  predicate Distinct(entries: seq<Node>) {
    && (forall i, j :: 0 <= i < j < |entries| ==> entries[i].name != entries[j].name)
    && forall i :: 0 <= i < |entries| && entries[i].Dir? ==> Distinct(entries[i].entries)
  }

  lemma {:induction false} NodeIsItself(x: Node)
    ensures SameNode(x, x)
    decreases x
  {
    if x.Dir? {
      forall i | 0 <= i < |x.entries| ensures SameNode(x.entries[i], x.entries[i]) {
        NodeIsItself(x.entries[i]);
      }
      forall i | 0 <= i < |x.entries| ensures HasTwin(x.entries[i], x.entries) && IsTwin(x.entries, x.entries[i]) {}
    }
  }

  /** The same entries in another order are the same directory. */
  lemma Reordered(a: seq<Node>, b: seq<Node>)
    requires multiset(a) == multiset(b)
    ensures SameDir(a, b)
  {
    forall i | 0 <= i < |a| ensures HasTwin(a[i], b) {
      assert a[i] in multiset(b);
      NodeIsItself(a[i]);
    }
    forall j | 0 <= j < |b| ensures IsTwin(a, b[j]) {
      assert b[j] in multiset(a);
      NodeIsItself(b[j]);
    }
  }

  lemma {:induction false} ListedHas(entries: seq<Node>, at: Path, p: Path)
    ensures p in Listed(entries, at) <==> exists i :: 0 <= i < |entries| && p in ListedOne(entries[i], at)
    decreases |entries|
  {
    hide ListedOne;
    if entries != [] {
      var k := |entries| - 1;
      ListedHas(entries[..k], at, p);
      if i :| 0 <= i < |entries| && p in ListedOne(entries[i], at) {
        assert i == k || entries[..k][i] == entries[i];
      }
      if i :| 0 <= i < k && p in ListedOne(entries[..k][i], at) {
        assert entries[i] == entries[..k][i];
      }
    }
  }

  lemma {:induction false} SameListing(a: seq<Node>, b: seq<Node>, at: Path, p: Path)
    requires SameDir(a, b)
    ensures p in Listed(a, at) <==> p in Listed(b, at)
    decreases a
  {
    hide ListedOne, SameNode, Listed;
    ListedHas(a, at, p);
    ListedHas(b, at, p);
    if i: nat :| 0 <= i < |a| && p in ListedOne(a[i], at) {
      assert HasTwin(a[i], b);
      var j :| 0 <= j < |b| && SameNode(a[i], b[j]);
      SameListingOne(a[i], b[j], at, p);
    }
    if j: nat :| 0 <= j < |b| && p in ListedOne(b[j], at) {
      assert IsTwin(a, b[j]);
      var i :| 0 <= i < |a| && SameNode(a[i], b[j]);
      SameListingOne(a[i], b[j], at, p);
    }
  }

  lemma {:induction false} SameListingOne(a: Node, b: Node, at: Path, p: Path)
    requires SameNode(a, b)
    ensures p in ListedOne(a, at) <==> p in ListedOne(b, at)
    decreases a
  {
    if a.Dir? {
      SameListing(a.entries, b.entries, at + [a.name], p);
    }
  }

  lemma {:induction false} ListedUnder(entries: seq<Node>, at: Path, p: Path)
    requires p in Listed(entries, at)
    ensures |p| > |at| && p[..|at|] == at
    decreases entries
  {
    ListedHas(entries, at, p);
    var i :| 0 <= i < |entries| && p in ListedOne(entries[i], at);
    ListedOneUnder(entries[i], at, p);
  }

  lemma {:induction false} ListedOneUnder(e: Node, at: Path, p: Path)
    requires p in ListedOne(e, at)
    ensures |p| > |at| && p[..|at|] == at && p[|at|] == e.name
    decreases e
  {
    if e.Dir? {
      ListedUnder(e.entries, at + [e.name], p);
      assert p[..|at| + 1][..|at|] == p[..|at|];
      assert p[|at|] == p[..|at| + 1][|at|];
    }
  }

  predicate NoRepeats(s: seq<Path>) {
    forall i, j :: 0 <= i < j < |s| ==> s[i] != s[j]
  }

  lemma JoinOnce(a: seq<Path>, b: seq<Path>)
    requires NoRepeats(a) && NoRepeats(b) && forall p :: p in a ==> p !in b
    ensures NoRepeats(a + b)
  {
    forall i, j | 0 <= i < j < |a + b| ensures (a + b)[i] != (a + b)[j] {
      if i < |a| <= j {
        assert (a + b)[i] in a && (a + b)[j] in b;
      }
    }
  }

  /** A walk takes no path twice. */
  lemma {:induction false} ListedOnce(entries: seq<Node>, at: Path, k: nat)
    requires Distinct(entries) && k <= |entries|
    ensures NoRepeats(Listed(entries[..k], at))
    decreases entries, k
  {
    hide ListedOne, NoRepeats;
    if k == 0 {
      NothingRepeats();
    } else {
      assert entries[..k][..k - 1] == entries[..k - 1];
      var most, last := Listed(entries[..k - 1], at), ListedOne(entries[k - 1], at);
      ListedOnce(entries, at, k - 1);
      ListedOneOnce(entries[k - 1], at);
      forall p | p in most ensures p !in last {
        ListedHas(entries[..k - 1], at, p);
        var i :| 0 <= i < k - 1 && p in ListedOne(entries[..k - 1][i], at);
        ListedOneUnder(entries[i], at, p);
        if p in last {
          ListedOneUnder(entries[k - 1], at, p);
          assert false;
        }
      }
      JoinOnce(most, last);
    }
  }

  lemma NothingRepeats()
    ensures NoRepeats([])
  {}

  lemma {:induction false} ListedOneOnce(e: Node, at: Path)
    requires e.Dir? ==> Distinct(e.entries)
    ensures NoRepeats(ListedOne(e, at))
    decreases e
  {
    if e.Dir? {
      ListedOnce(e.entries, at + [e.name], |e.entries|);
      assert e.entries[..|e.entries|] == e.entries;
    }
  }

  // ---------------------------------------------------------------- sorting

  /** Path order: name by name, each name byte by byte. */
  predicate PathLe(p: Path, q: Path) {
    p == [] || (q != [] && if p[0] == q[0] then PathLe(p[1..], q[1..]) else LexLe(p[0], q[0]))
  }

  lemma {:induction false} PathOrder(p: Path, q: Path)
    ensures PathLe(p, q) || PathLe(q, p)
    ensures PathLe(p, q) && PathLe(q, p) ==> p == q
  {
    hide LexLe;
    if p != [] && q != [] {
      LexOrder(p[0], q[0]);
      if p[0] == q[0] {
        PathOrder(p[1..], q[1..]);
        assert p == [p[0]] + p[1..] && q == [q[0]] + q[1..];
      }
    }
  }

  lemma {:induction false} PathTransitive(p: Path, q: Path, r: Path)
    requires PathLe(p, q) && PathLe(q, r)
    ensures PathLe(p, r)
  {
    hide LexLe;
    if p != [] && q != [] && r != [] {
      if p[0] == q[0] && q[0] == r[0] {
        PathTransitive(p[1..], q[1..], r[1..]);
      } else if p[0] != q[0] && q[0] != r[0] {
        LexTransitive(p[0], q[0], r[0]);
        LexOrder(p[0], q[0]);
      }
    }
  }

  /** Paths are ordered by the first name they differ in, and a path comes before what lies under it. */
  lemma {:induction false} PathDecides(c: Path, p: Path, q: Path)
    requires p != [] && q != [] && p[0] != q[0]
    ensures PathLe(c + p, c + q) <==> LexLe(p[0], q[0])
    ensures PathLe(c, c + p) && !PathLe(c + p, c)
    decreases |c|
  {
    hide LexLe;
    if c == [] {
      assert c + p == p && c + q == q;
    } else {
      PathDecides(c[1..], p, q);
      assert (c + p)[1..] == c[1..] + p && (c + q)[1..] == c[1..] + q;
    }
  }

  predicate Ordered(s: seq<Path>) {
    forall i, j :: 0 <= i < j < |s| ==> PathLe(s[i], s[j])
  }

  function Insert(s: seq<Path>, p: Path): (r: seq<Path>)
    ensures multiset(r) == multiset(s) + multiset{p}
  {
    if s == [] then [p]
    else if PathLe(s[|s| - 1], p) then s + [p]
    else
      var k := |s| - 1;
      assert s == s[..k] + [s[k]];
      Insert(s[..k], p) + [s[k]]
  }

  function Sorted(s: seq<Path>): (r: seq<Path>)
    ensures multiset(r) == multiset(s)
  {
    if s == [] then []
    else
      var k := |s| - 1;
      assert s == s[..k] + [s[k]];
      Insert(Sorted(s[..k]), s[k])
  }

  lemma {:induction false} InsertOrdered(s: seq<Path>, p: Path)
    requires Ordered(s)
    ensures Ordered(Insert(s, p))
  {
    if s != [] {
      var k := |s| - 1;
      if PathLe(s[k], p) {
        forall i | 0 <= i < |s| ensures PathLe(s[i], p) {
          if i < k {
            PathTransitive(s[i], s[k], p);
          }
        }
      } else {
        InsertOrdered(s[..k], p);
        var r := Insert(s[..k], p);
        PathOrder(s[k], p);
        forall i | 0 <= i < |r| ensures PathLe(r[i], s[k]) {
          assert r[i] in multiset(r);
          assert r[i] in s[..k] || r[i] == p;
        }
      }
    }
  }

  lemma {:induction false} SortedIsOrdered(s: seq<Path>)
    ensures Ordered(Sorted(s))
  {
    if s != [] {
      SortedIsOrdered(s[..|s| - 1]);
      InsertOrdered(Sorted(s[..|s| - 1]), s[|s| - 1]);
    }
  }

  lemma DropLast(s: seq<Path>)
    requires s != [] && Ordered(s)
    ensures Ordered(s[..|s| - 1]) && multiset(s[..|s| - 1]) == multiset(s) - multiset{s[|s| - 1]}
    ensures s == s[..|s| - 1] + [s[|s| - 1]] && s[|s| - 1] in multiset(s)
  {
    hide PathLe;
    assert s == s[..|s| - 1] + [s[|s| - 1]];
  }

  lemma SameLength(a: seq<Path>, b: seq<Path>)
    requires multiset(a) == multiset(b)
    ensures |a| == |b|
  {
    assert |multiset(a)| == |multiset(b)|;
  }

  /** There is one way to put a collection of paths in order. */
  lemma {:induction false} OrderIsUnique(a: seq<Path>, b: seq<Path>)
    requires Ordered(a) && Ordered(b) && multiset(a) == multiset(b)
    ensures a == b
    decreases |a|
  {
    hide PathLe, Ordered;
    SameLength(a, b);
    if a != [] {
      DropLast(a);
      DropLast(b);
      var x, y := a[|a| - 1], b[|b| - 1];
      LastIsGreatest(a, y);
      LastIsGreatest(b, x);
      PathOrder(x, y);
      OrderIsUnique(a[..|a| - 1], b[..|b| - 1]);
    }
  }

  lemma LastIsGreatest(s: seq<Path>, p: Path)
    requires Ordered(s) && s != [] && p in multiset(s)
    ensures PathLe(p, s[|s| - 1])
  {
    var i :| 0 <= i < |s| && s[i] == p;
    PathOrder(p, p);
  }

  // ---------------------------------------------------------------- the identity

  /** Every build input, by path. */
  function Inventory(native: seq<Node>): seq<Path> {
    Sorted(Listed(native, [Ascii("native")]) + [[Ascii("build.rs")], [Ascii("cuda-sm.json")]])
  }

  /** Names lead from the entries down to a source file, through no directory called tests. */
  ghost predicate LeadsToSource(entries: seq<Node>, names: Path) {
    exists i :: 0 <= i < |entries| && StepsToSource(entries[i], names)
  }

  ghost predicate StepsToSource(e: Node, names: Path) {
    && names != [] && names[0] == e.name
    && match e
       case File(name) => |names| == 1 && exists stem :: EndsLikeSource(name, stem)
       case Dir(name, inside) => name != [116, 101, 115, 116, 115] && LeadsToSource(inside, names[1..])
  }

  lemma {:induction false} ListedLeads(entries: seq<Node>, at: Path, p: Path)
    ensures p in Listed(entries, at) <==> at < p && LeadsToSource(entries, p[|at|..])
    decreases entries
  {
    hide IsSource, Listed;
    ListedHas(entries, at, p);
    if i: nat :| i < |entries| && p in ListedOne(entries[i], at) {
      ListedOneUnder(entries[i], at, p);
      OneLeads(entries[i], at, p);
    }
    if at < p && LeadsToSource(entries, p[|at|..]) {
      var i :| 0 <= i < |entries| && StepsToSource(entries[i], p[|at|..]);
      OneLeads(entries[i], at, p);
    }
  }

  lemma {:induction false} OneLeads(e: Node, at: Path, p: Path)
    requires at < p && p[|at|] == e.name
    ensures p in ListedOne(e, at) <==> StepsToSource(e, p[|at|..])
    decreases e
  {
    assert p[|at|..][1..] == p[|at| + 1..];
    AsciiNames();
    hide Ascii, IsSource, LeadsToSource;
    var below := at + [e.name];
    assert p[..|at| + 1] == below;
    match e
    case File(name) =>
      SourceNames(name);
      assert p in [below] <==> p == below;
      assert |p| == |below| ==> p == below;
    case Dir(name, inside) =>
      ListedLeads(inside, below, p);
      if |p| > |below| {
        assert below < p;
      } else {
        NoNamesLead(inside);
        assert p[|below|..] == [];
      }
  }

  lemma NoNamesLead(entries: seq<Node>)
    ensures !LeadsToSource(entries, [])
  {}

  /**
   Exactly what is hashed: the two fixed files, and under `native` every file with one of the five extensions
   that lies in no directory called tests.  Each path stands once, in path order.
   */
  lemma InventoryHas(native: seq<Node>, p: Path)
    ensures p in Inventory(native) <==>
      || p == [Ascii("build.rs")] || p == [Ascii("cuda-sm.json")]
      || (|p| > 1 && p[0] == [110, 97, 116, 105, 118, 101] && LeadsToSource(native, p[1..]))
    ensures Ordered(Inventory(native)) && (Distinct(native) ==> NoRepeats(Inventory(native)))
  {
    hide Ascii, LeadsToSource, Listed, Sorted, Ordered, Distinct, NoRepeats;
    var at := [Ascii("native")];
    var rest := [[Ascii("build.rs")], [Ascii("cuda-sm.json")]];
    AsciiNames();
    SortedIsOrdered(Listed(native, at) + rest);
    assert p in Inventory(native) <==> p in multiset(Listed(native, at) + rest);
    ListedLeads(native, at, p);
    NoNamesLead(native);
    assert at < p <==> |p| > 1 && p[0] == at[0];
    if Distinct(native) {
      InventoryOnce(native);
    }
  }

  lemma InventoryOnce(native: seq<Node>)
    requires Distinct(native)
    ensures NoRepeats(Inventory(native))
  {
    hide Listed, Sorted, Distinct;
    var at := [Ascii("native")];
    var rest := [[Ascii("build.rs")], [Ascii("cuda-sm.json")]];
    ListedOnce(native, at, |native|);
    assert native[..|native|] == native;
    assert |Ascii("build.rs")| == 8 && |Ascii("cuda-sm.json")| == 12;
    forall p | p in Listed(native, at) ensures p !in rest {
      ListedUnder(native, at, p);
    }
    JoinOnce(Listed(native, at), rest);
    SameCounts(Listed(native, at) + rest, Inventory(native));
  }

  lemma SameCounts(a: seq<Path>, b: seq<Path>)
    requires NoRepeats(a) && multiset(a) == multiset(b)
    ensures NoRepeats(b)
  {
    forall i, j | 0 <= i < j < |b| ensures b[i] != b[j] {
      CountOnce(a, b[i]);
      if b[i] == b[j] {
        CountTwice(b, i, j);
      }
    }
  }

  lemma CountTwice(s: seq<Path>, i: nat, j: nat)
    requires i < j < |s| && s[i] == s[j]
    ensures multiset(s)[s[i]] >= 2
  {
    assert s == s[..j] + s[j..];
    assert s[i] in s[..j] && s[j] in s[j..];
    assert multiset(s)[s[i]] == multiset(s[..j])[s[i]] + multiset(s[j..])[s[i]];
  }

  lemma MultisetsAgree(a: seq<Path>, b: seq<Path>)
    requires NoRepeats(a) && NoRepeats(b) && forall p :: p in a <==> p in b
    ensures multiset(a) == multiset(b)
  {
    forall p ensures multiset(a)[p] == multiset(b)[p] {
      CountOnce(a, p);
      CountOnce(b, p);
    }
  }

  lemma {:induction false} CountOnce(s: seq<Path>, p: Path)
    requires NoRepeats(s)
    ensures multiset(s)[p] == if p in s then 1 else 0
  {
    if s != [] {
      var k := |s| - 1;
      CountOnce(s[..k], p);
      assert s == s[..k] + [s[k]];
    }
  }

  /** However a file system orders its directory entries, the inventory is the same. */
  lemma OrderDoesNotMatter(a: seq<Node>, b: seq<Node>)
    requires SameDir(a, b) && Distinct(a) && Distinct(b)
    ensures Inventory(a) == Inventory(b)
  {
    hide SameDir, Distinct, Listed;
    var at := [Ascii("native")];
    forall p ensures p in Listed(a, at) <==> p in Listed(b, at) {
      SameListing(a, b, at, p);
    }
    ListedOnce(a, at, |a|);
    ListedOnce(b, at, |b|);
    assert a[..|a|] == a && b[..|b|] == b;
    MultisetsAgree(Listed(a, at), Listed(b, at));
    var rest := [[Ascii("build.rs")], [Ascii("cuda-sm.json")]];
    SortedIsOrdered(Listed(a, at) + rest);
    SortedIsOrdered(Listed(b, at) + rest);
    OrderIsUnique(Inventory(a), Inventory(b));
  }

  /** The path as it is hashed: names joined by slashes, backslashes turned into slashes. */
  function Canonical(p: Path): Bytes {
    if p == [] then []
    else if |p| == 1 then Slashed(p[0])
    else Canonical(p[..|p| - 1]) + [47] + Slashed(p[|p| - 1])
  }

  function Slashed(name: Bytes): (r: Bytes)
    ensures |r| == |name|
  {
    seq<Byte>(|name|, i requires 0 <= i < |name| => if name[i] == 92 then 47 else name[i])
  }

  /** A name that a slash cannot be mistaken in. */
  predicate PlainNames(p: Path) {
    p != [] && forall i :: 0 <= i < |p| ==> 47 !in p[i] && 92 !in p[i]
  }

  lemma PlainIsSlashed(name: Bytes)
    requires 92 !in name
    ensures Slashed(name) == name
  {}

  /** The text after the last slash is determined. */
  lemma LastPart(a: Bytes, x: Bytes, b: Bytes, y: Bytes)
    requires 47 !in x && 47 !in y && a + [47] + x == b + [47] + y
    ensures a == b && x == y
  {
    if |a| < |b| {
      SlashInside(a, x, b, y);
    } else if |b| < |a| {
      SlashInside(b, y, a, x);
    } else {
      var s := a + [47] + x;
      assert s[..|a|] == a && s[..|b|] == b && s[|a| + 1..] == x && s[|b| + 1..] == y;
    }
  }

  lemma SlashInside(a: Bytes, x: Bytes, b: Bytes, y: Bytes)
    requires a + [47] + x == b + [47] + y && |a| < |b|
    ensures 47 in x
  {
    assert (a + [47] + x)[|b|] == (b + [47] + y)[|b|] == 47;
    assert x[|b| - |a| - 1] == 47;
  }

  lemma HasSlash(p: Path)
    requires |p| > 1
    ensures 47 in Canonical(p)
  {
    hide Slashed;
    assert Canonical(p)[|Canonical(p[..|p| - 1])|] == 47;
  }

  /** Paths whose names hold neither slash nor backslash are determined by what is hashed of them. */
  lemma {:induction false} CanonicalDetermines(p: Path, q: Path)
    requires PlainNames(p) && PlainNames(q) && Canonical(p) == Canonical(q)
    ensures p == q
    decreases |p|
  {
    var i, j := |p| - 1, |q| - 1;
    PlainIsSlashed(p[i]);
    PlainIsSlashed(q[j]);
    hide Slashed;
    if i == 0 || j == 0 {
      if i > 0 {
        HasSlash(p);
      }
      if j > 0 {
        HasSlash(q);
      }
    } else {
      LastPart(Canonical(p[..i]), p[i], Canonical(q[..j]), q[j]);
      CanonicalDetermines(p[..i], q[..j]);
      assert p == p[..i] + [p[i]] && q == q[..j] + [q[j]];
    }
  }

  /** A backslash in a name is read as a directory separator: two paths, one text. */
  lemma BackslashCollides(a: Bytes, b: Bytes)
    requires 92 !in a && 92 !in b
    ensures Canonical([a + [92] + b]) == Canonical([a, b]) && [a + [92] + b] != [a, b]
  {
    assert [a, b][..1] == [a];
    assert Slashed(a + [92] + b) == Slashed(a) + [47] + Slashed(b);
  }

  function Files(paths: seq<Path>, read: Path -> Bytes): (r: seq<(Bytes, Bytes)>)
    ensures |r| == |paths|
  {
    seq<(Bytes, Bytes)>(|paths|, i requires 0 <= i < |paths| => (Canonical(paths[i]), read(paths[i])))
  }

  /** Everything fed to the digest so far. */
  class Digest {
    var fed: Bytes

    constructor ()
      ensures fed == []
    {
      fed := [];
    }

    method Update(b: Bytes)
      modifies this
      ensures fed == old(fed) + b
    {
      fed := fed + b;
    }

    method FeedField(name: Bytes, value: Bytes)
      modifies this
      ensures fed == old(fed) + Encode(Field(name, value))
    {
      Update(Le(|name|, 8));
      Update(name);
      Update(Le(|value|, 8));
      Update(value);
    }
  }

  lemma {:induction false} EncodeAppends(a: seq<Field>, b: seq<Field>)
    ensures EncodeAll(a + b) == EncodeAll(a) + EncodeAll(b)
    decreases |b|
  {
    hide Encode;
    if b == [] {
      assert a + b == a;
    } else {
      EncodeAppends(a, b[..|b| - 1]);
      assert (a + b)[..|a + b| - 1] == a + b[..|b| - 1];
    }
  }

  /** Feed every input, as one build does. */
  method NativeBuild(native: seq<Node>, read: Path -> Bytes, abi: nat, target: Bytes, archs: Bytes, mathMode: Bytes,
                     compiler: Bytes)
    returns (digest: Digest)
    ensures fresh(digest)
    ensures digest.fed == Stream(Inputs(abi, target, archs, mathMode, compiler, Files(Inventory(native), read)))
  {
    hide Sorted, Listed, Ascii, EncodeAll, Files, FileFields;
    var files := Collect(native, [Ascii("native")], []);
    assert [] + Listed(native, [Ascii("native")]) == Listed(native, [Ascii("native")]);
    files := Sorted(files + [[Ascii("build.rs")], [Ascii("cuda-sm.json")]]);
    digest := new Digest();
    var inputs := Inputs(abi, target, archs, mathMode, compiler, Files(files, read));
    FeedHead(digest, inputs);
    FeedFiles(digest, files, read);
    EncodeAppends(HeadFields(inputs), FileFields(inputs.files));
  }

  /** `to_string_lossy().replace('\\', "/")`: the path's text, and then every backslash in it replaced. */
  method CanonicalText(p: Path) returns (text: Bytes)
    ensures text == Canonical(p)
  {
    hide Slashed;
    var joined: Bytes := [];
    ghost var slashed: Bytes := [];
    var i := 0;
    NothingSlashed();
    while i < |p|
      invariant 0 <= i <= |p| && Slashed(joined) == Canonical(p[..i])
    {
      assert p[..i + 1][..i] == p[..i] && p[..i + 1][i] == p[i];
      SlashedJoins(joined, p[i]);
      joined := if i == 0 then p[i] else joined + [47] + p[i];
      i := i + 1;
    }
    assert p[..i] == p;
    text := ReplaceBackslashes(joined);
  }

  lemma NothingSlashed()
    ensures Slashed([]) == []
  {}

  lemma SlashedJoins(a: Bytes, b: Bytes)
    ensures Slashed(a + [47] + b) == Slashed(a) + [47] + Slashed(b)
  {}

  method ReplaceBackslashes(t: Bytes) returns (r: Bytes)
    ensures r == Slashed(t)
  {
    r := t;
    var i := 0;
    while i < |r|
      invariant 0 <= i <= |r| == |t|
      invariant forall j :: 0 <= j < |t| ==> r[j] == if j < i && t[j] == 92 then 47 else t[j]
    {
      if r[i] == 92 {
        r := r[i := 47];
      }
      i := i + 1;
    }
  }

  method FeedFiles(digest: Digest, files: seq<Path>, read: Path -> Bytes)
    modifies digest
    ensures digest.fed == old(digest.fed) + EncodeAll(FileFields(Files(files, read)))
  {
    hide Encode, Ascii, Canonical, EncodeAll, FileFields;
    ghost var fed := Files(files, read);
    var i := 0;
    NoFiles();
    while i < |files|
      invariant 0 <= i <= |files|
      invariant digest.fed == old(digest.fed) + EncodeAll(FileFields(fed[..i]))
    {
      var text := CanonicalText(files[i]);
      digest.FeedField(Ascii("path"), text);
      digest.FeedField(Ascii("content"), read(files[i]));
      NextFile(fed, i);
      i := i + 1;
    }
    assert fed[..i] == fed;
  }

  lemma NoFiles()
    ensures EncodeAll(FileFields([])) == []
  {}

  method FeedHead(digest: Digest, i: Inputs)
    modifies digest
    ensures digest.fed == old(digest.fed) + EncodeAll(HeadFields(i))
  {
    hide Ascii, Le, Encode;
    digest.FeedField(Ascii("domain"), Ascii("imparo-cuda-native-build-v1"));
    digest.FeedField(Ascii("backend_abi"), Le(i.abi, 4));
    digest.FeedField(Ascii("target"), i.target);
    digest.FeedField(Ascii("archs"), i.archs);
    digest.FeedField(Ascii("math_mode"), i.mathMode);
    digest.FeedField(Ascii("compiler"), i.compiler);
    HeadEncoded(HeadFields(i));
  }

  lemma HeadEncoded(fs: seq<Field>)
    requires |fs| == 6
    ensures EncodeAll(fs) == Encode(fs[0]) + Encode(fs[1]) + Encode(fs[2]) + Encode(fs[3]) + Encode(fs[4]) + Encode(fs[5])
  {
    hide Encode;
    assert fs[..5][..4] == fs[..4] && fs[..4][..3] == fs[..3] && fs[..3][..2] == fs[..2] && fs[..2][..1] == fs[..1];
    assert EncodeAll(fs[..1]) == Encode(fs[0]);
    assert EncodeAll(fs[..2]) == Encode(fs[0]) + Encode(fs[1]);
    assert EncodeAll(fs[..3]) == EncodeAll(fs[..2]) + Encode(fs[2]);
    assert EncodeAll(fs[..4]) == EncodeAll(fs[..3]) + Encode(fs[3]);
    assert EncodeAll(fs[..5]) == EncodeAll(fs[..4]) + Encode(fs[4]);
  }

  lemma NextFile(files: seq<(Bytes, Bytes)>, i: nat)
    requires i < |files|
    ensures EncodeAll(FileFields(files[..i + 1])) ==
      EncodeAll(FileFields(files[..i])) + Encode(Field(Ascii("path"), files[i].0)) + Encode(Field(Ascii("content"), files[i].1))
  {
    hide Encode, Ascii;
    assert files[..i + 1][..i] == files[..i];
    var two := [Field(Ascii("path"), files[i].0), Field(Ascii("content"), files[i].1)];
    EncodeAppends(FileFields(files[..i]), two);
    assert two[..1] == [two[0]] && EncodeAll([two[0]]) == Encode(two[0]);
  }

  /** Equal streams mean equal inputs, down to the list of canonical paths and contents; and a second
      enumeration of the same sources changes nothing. */
  lemma IdentityIsExact(a: seq<Node>, b: seq<Node>, readA: Path -> Bytes, readB: Path -> Bytes, i: Inputs, j: Inputs)
    requires i.files == Files(Inventory(a), readA) && j.files == Files(Inventory(b), readB)
    requires i.Valid() && j.Valid()
    ensures Stream(i) == Stream(j) <==>
      && i.abi == j.abi && i.target == j.target && i.archs == j.archs
      && i.mathMode == j.mathMode && i.compiler == j.compiler
      && Files(Inventory(a), readA) == Files(Inventory(b), readB)
    ensures SameDir(a, b) && Distinct(a) && Distinct(b) && readA == readB && i == j.(files := i.files)
      ==> Stream(i) == Stream(j)
  {
    hide Stream, Files, Inventory, SameDir, Distinct;
    StreamIsInjective(i, j);
    if SameDir(a, b) && Distinct(a) && Distinct(b) {
      OrderDoesNotMatter(a, b);
    }
  }

  /** What is hashed of the files determines the list of paths and each file's content, when no name holds a slash
      or a backslash. */
  lemma FilesDetermine(a: seq<Path>, b: seq<Path>, readA: Path -> Bytes, readB: Path -> Bytes)
    requires forall i :: 0 <= i < |a| ==> PlainNames(a[i])
    requires forall i :: 0 <= i < |b| ==> PlainNames(b[i])
    ensures Files(a, readA) == Files(b, readB) <==> a == b && forall p :: p in a ==> readA(p) == readB(p)
  {
    hide Canonical, PlainNames;
    var fa, fb := Files(a, readA), Files(b, readB);
    if fa == fb {
      forall i | 0 <= i < |a| ensures a[i] == b[i] && readA(a[i]) == readB(a[i]) {
        assert fa[i] == fb[i];
        CanonicalDetermines(a[i], b[i]);
      }
    }
  }

  /** Two builds hash the same bytes exactly when their settings, their paths and the content of every path agree. */
  lemma SameIdentity(a: seq<Node>, b: seq<Node>, readA: Path -> Bytes, readB: Path -> Bytes, i: Inputs, j: Inputs)
    requires i.files == Files(Inventory(a), readA) && j.files == Files(Inventory(b), readB)
    requires i.Valid() && j.Valid()
    requires forall p :: p in Inventory(a) || p in Inventory(b) ==> PlainNames(p)
    ensures Stream(i) == Stream(j) <==>
      && i.abi == j.abi && i.target == j.target && i.archs == j.archs
      && i.mathMode == j.mathMode && i.compiler == j.compiler
      && Inventory(a) == Inventory(b) && forall p :: p in Inventory(a) ==> readA(p) == readB(p)
  {
    hide Stream, Files, Inventory, SameDir, Distinct, PlainNames;
    IdentityIsExact(a, b, readA, readB, i, j);
    FilesDetermine(Inventory(a), Inventory(b), readA, readB);
  }
}
