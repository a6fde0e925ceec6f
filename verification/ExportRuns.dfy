/**
 Runs of the exporter at given disks: how large a record is on ordinary and on very large destinations, and
 what an apply does there.
 */
module ExportRuns {
  import opened ExportRecord
  import opened ExportDisk
  import opened ExportPlan
  import opened ExportHost
  import opened ExportJson

  // ---------------------------------------------------------------- how large a record is

  lemma {:induction false} WeightBounds(m: Inventory, most: nat)
    requires forall q :: q in m ==> EntryBytes(Record(q, m[q])) <= most
    ensures Weight(m) <= most * |m|
    decreases |m|
  {
    hide EntryBytes;
    if m != map[] {
      assert m.Keys != {};
      var q :| q in m.Keys;
      WeightWithout(m, q);
      WeightBounds(m - {q}, most);
      OneEntry(most, |m|);
    }
  }

  lemma OneEntry(most: nat, n: nat)
    requires n > 0
    ensures most * n == most * (n - 1) + most
  {}

  lemma {:induction false} EntriesBound(rs: seq<Record>, most: nat)
    requires forall i :: 0 <= i < |rs| ==> EntryBytes(rs[i]) <= most
    ensures EntriesBytes(rs) <= most * |rs|
  {
    hide EntryBytes;
    if rs != [] {
      EntriesBound(rs[..|rs| - 1], most);
      OneEntry(most, |rs|);
    }
  }

  /** Within the file ceilings, and with entries of at most 1000 bytes, a record always fits. */
  lemma OrdinaryFits(d: Disk, plan: Plan, t: Txn)
    requires |Files(d)| <= MAX_FILES && |plan.files| <= MAX_FILES
    requires forall q :: q in Files(d) ==> EntryBytes(Record(q, Files(d)[q])) <= 1000
    requires forall i :: 0 <= i < |plan.files| ==> EntryBytes(plan.files[i]) <= 1000
    requires Escaped(t.destination) <= 6 * 255 && Escaped(t.id) <= 32
    ensures RecordSize(d, plan, t) <= MAX_RECORD_BYTES
  {
    hide EntryBytes, Escaped, Weight, EntriesBytes;
    WeightBounds(Files(d), 1000);
    EntriesBound(plan.files, 1000);
  }

  /** No record of more than 36792 files fits. */
  lemma ManyNeverFit(d: Disk, plan: Plan, t: Txn)
    requires |Files(d)| > 36792
    ensures RecordSize(d, plan, t) > MAX_RECORD_BYTES
  {
    hide EntryBytes, Escaped, Weight, EntriesBytes;
    WeightAtLeast(Files(d));
  }

  lemma {:induction false} WeightAtLeast(m: Inventory)
    ensures 114 * |m| <= Weight(m)
    decreases |m|
  {
    if m != map[] {
      assert m.Keys != {};
      var q :| q in m.Keys;
      WeightWithout(m, q);
      WeightAtLeast(m - {q});
      assert EntryBytes(Record(q, m[q])) >= 114;
    }
  }

  // ---------------------------------------------------------------- a worktree of n files

  const EMPTY := File([], false)

  /** The last `w` decimal digits of `i`. */
  function Decimal(i: nat, w: nat): string
    decreases w
  {
    if w == 0 then [] else Decimal(i / 10, w - 1) + [Digit(i % 10)]
  }

  function Shifted(i: nat, w: nat): nat
    decreases w
  {
    if w == 0 then i else Shifted(i / 10, w - 1)
  }

  lemma {:induction false} DecimalApart(i: nat, j: nat, w: nat)
    requires Shifted(i, w) == 0 && Shifted(j, w) == 0 && Decimal(i, w) == Decimal(j, w)
    ensures i == j
    decreases w
  {
    if w > 0 {
      var a, b := Decimal(i, w), Decimal(j, w);
      assert a[..|a| - 1] == Decimal(i / 10, w - 1) && b[..|b| - 1] == Decimal(j / 10, w - 1);
      assert a[|a| - 1] == Digit(i % 10) && b[|b| - 1] == Digit(j % 10);
      DecimalApart(i / 10, j / 10, w - 1);
    }
  }

  lemma {:induction false} DecimalBytes(i: nat, w: nat)
    ensures Escaped(Decimal(i, w)) == w
    decreases w
  {
    if w > 0 {
      var s := Decimal(i, w);
      assert s[..|s| - 1] == Decimal(i / 10, w - 1);
      DecimalBytes(i / 10, w - 1);
    }
  }

  lemma FiveDigits(i: nat)
    requires i < 100000
    ensures Shifted(i, 5) == 0
  {
    assert Shifted(i, 5) == Shifted(i / 10 / 10 / 10 / 10 / 10, 0);
  }

  /** Empty files named by five digits. */
  function Folder(n: nat): (rs: seq<Record>)
    ensures |rs| == n
  {
    seq(n, i requires 0 <= i < n => Record(Decimal(i, 5), EMPTY))
  }

  lemma FolderDistinct(n: nat)
    requires n <= 100000
    ensures Distinct(Folder(n))
  {
    hide Decimal;
    forall i, j | 0 <= i < j < n ensures Folder(n)[i].path != Folder(n)[j].path {
      FiveDigits(i);
      FiveDigits(j);
      if Decimal(i, 5) == Decimal(j, 5) {
        DecimalApart(i, j, 5);
      }
    }
  }

  lemma {:induction false} FolderBytes(n: nat)
    ensures EntriesBytes(Folder(n)) == 119 * n
  {
    hide Decimal;
    if n > 0 {
      FolderBytes(n - 1);
      assert Folder(n)[..n - 1] == Folder(n - 1);
      DecimalBytes(n - 1, 5);
    }
  }

  function OneFile(): Plan {
    Plan("", "", [Record("a", EMPTY)])
  }

  /** A clean Git worktree of `n` files, without a marker. */
  function Worktree(n: nat): Disk {
    var m := AsMap(Folder(n));
    Disk(Some(Tree(m, Some(m))), None, None, map[], map[])
  }

  lemma WorktreeSize(n: nat, t: Txn)
    requires 0 < n <= 100000
    ensures |Files(Worktree(n))| == n && Objection(Worktree(n)).None? && Clear(Worktree(n), OneFile(), t)
    ensures RecordSize(Worktree(n), OneFile(), t) == 456 + 4 * Escaped(t.destination) + 4 * Escaped(t.id) + 119 * n
  {
    hide AsMap, Folder, EntriesBytes, Weight;
    FolderDistinct(n);
    FolderBytes(n);
    EntriesWeigh(Folder(n));
    AsMapSize(Folder(n));
    OneFileBytes();
  }

  lemma OneFileBytes()
    ensures ListBytes(OneFile().files) == 116
  {
    var rs := OneFile().files;
    assert rs[..0] == [] && EntriesBytes([]) == 0;
    assert "a"[..0] == "" && Escaped("") == 0;
  }

  // ---------------------------------------------------------------- runs

  /** The crash that strands a repeated export, at any disk it can happen on and after any number of moves. */
  method ReapplyRun(d: Disk, plan: Plan, t: Txn, k: nat, later: Plan, u: Txn) returns (h: Host, v: Verdict, after: Verdict)
    requires d.record.None? && Strandable(d, plan, t) && d.marker == Some(MarkerOf(plan))
    requires 0 < k && Reached(Files(d), plan, k)
    ensures fresh(h) && v == PoweredOff && after == Raised(RecoveryNeeded)
    ensures Stranded(h.disk) && Declined(h.disk) && Files(h.disk) != Files(d)
  {
    hide Strandable, Reached, Stranded, Declined;
    var n := |plan.files| + 3 + k;
    h := new Host(d, i => if i == n then Crash else Fine);
    v, after := h.ReapplyStrands(plan, t, k, later, u);
  }

  /** A destination of one file, exported by `OneFile()`. */
  function Exported(): Disk {
    Disk(Some(Tree(AsMap(OneFile().files), None)), Some(MarkerOf(OneFile())), None, map[], map[])
  }

  /** One file exported twice, and power going when the second export has moved it away: it is gone for good. */
  method OneFileStrands(later: Plan, u: Txn) returns (h: Host, v: Verdict, after: Verdict)
    ensures fresh(h) && v == PoweredOff && after == Raised(RecoveryNeeded)
    ensures Stranded(h.disk) && Files(h.disk) != Files(Exported())
  {
    hide Stranded, Declined, RecordSize;
    ExportedIsStrandable();
    h, v, after := ReapplyRun(Exported(), OneFile(), Txn("d", "1"), 1, later, u);
  }

  lemma ExportedIsStrandable()
    ensures Strandable(Exported(), OneFile(), Txn("d", "1")) && Reached(Files(Exported()), OneFile(), 1)
  {
    var t, rs := Txn("d", "1"), OneFile().files;
    assert AsMap(rs) == map["a" := EMPTY] by {
      assert rs[..0] == [] && AsMap([]) == map[];
    }
    ShortNames();
    hide Escaped, EntriesBytes, Weight;
    ListIsInventory(rs);
    OneFileBytes();
  }

  lemma ShortNames()
    ensures Escaped("d") == 1 && Escaped("1") == 1
  {
    assert "d"[..0] == "" && "1"[..0] == "" && Escaped("") == 0;
  }

  /** A clean worktree of 2049 to 35000 files: its record is published, never loads, and blocks every later apply. */
  method OversizeRun(n: nat, t: Txn, later: Plan, u: Txn) returns (h: Host, v: Verdict, after: Verdict)
    requires MAX_FILES < n <= 35000 && Escaped(t.destination) + Escaped(t.id) <= 7000
    ensures fresh(h) && v == Raised(RecoveryNeeded) && after == Raised(RecoveryNeeded)
    ensures Declined(h.disk) && h.disk.dest == Worktree(n).dest && h.disk.marker == None
  {
    hide RecordSize, Clear, Objection, Declined, Worktree, OneFile;
    WorktreeSize(n, t);
    WorktreeSettled(n);
    h := new Host(Worktree(n), _ => Fine);
    v, after := h.OversizeStrands(OneFile(), t, later, u);
  }

  /** One of 35250 files or more: its record is refused, and nothing is left pending. */
  method TooLargeRun(n: nat, t: Txn) returns (h: Host, v: Verdict, r: Recovery)
    requires 35250 <= n <= 100000
    ensures fresh(h) && v == Raised(RecordTooLarge) && r == Nothing
    ensures h.disk.record.None? && Settled(h.disk) == Settled(Worktree(n))
  {
    hide RecordSize, Clear, Objection, Worktree, OneFile, Settled, Strandable, Startable, Oversize;
    WorktreeSize(n, t);
    WorktreeSettled(n);
    h := new Host(Worktree(n), _ => Fine);
    v := h.Apply(OneFile(), t);
    r := h.Recover();
  }

  lemma WorktreeSettled(n: nat)
    ensures Worktree(n).record.None? && Worktree(n).marker.None?
  {}
}
