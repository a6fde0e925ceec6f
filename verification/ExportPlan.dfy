/**
 The disks an apply goes through, from its published record to its commit, and when a crash on one
 of them can be recovered from.
 */
module ExportPlan {
  import opened ExportDisk
  import opened ExportRecord

  datatype Error =
    | RecoveryNeeded
    | DestinationMarker
    | DestinationDirty
    | DestinationUnmanaged
    | RecordTooLarge
    | FilesystemError

  /** Why the destination may not be exported to, if it may not. */
  function Objection(d: Disk): Option<Error> {
    match d.marker
    case Some(Foreign(_)) => Some(DestinationMarker)
    case Some(Managed(_, _, files)) =>
      if |files| > MAX_FILES || d.dest.None? || !Distinct(files) then Some(DestinationMarker)
      else if Files(d) != AsMap(files) then Some(DestinationDirty)
      else None
    case None =>
      if d.dest.None? || (Files(d) == map[] && Git(d).None?) then None
      else if Git(d).None? then Some(DestinationUnmanaged)
      else if Git(d) != Some(Files(d)) then Some(DestinationDirty)
      else None
  }

  /** `r` is the record that applying `plan` to the settled disk `d` publishes. */
  ghost predicate Starts(d: Disk, plan: Plan, r: Payload) {
    && d.record.None? && Objection(d).None?
    && Publishable(d, plan, r.txn)
    && Distinct(r.oldFiles) && Old(r) == Files(d)
    && (d.marker.Some? && d.marker.value.Managed? ==> r.oldFiles == d.marker.value.files)
    && r == PayloadOf(d, plan, r.txn, r.oldFiles)
  }

  function PayloadOf(d: Disk, plan: Plan, t: Txn, rs: seq<Record>): Payload {
    Payload(t, d.dest.None?, d.marker, MarkerOf(plan), rs, plan.files)
  }

  /** No directory of transaction `t` is in the way, and the plan repeats no path. */
  predicate Clear(d: Disk, plan: Plan, t: Txn) {
    Stage(t) !in d.dirs && Backup(t) !in d.dirs && Distinct(plan.files)
  }

  /** The bytes of the record that applying `plan` to `d` would publish. */
  ghost function RecordSize(d: Disk, plan: Plan, t: Txn): nat {
    HeadBytes(t, d.dest.None?, d.marker.Some?) + InventoryBytes(Files(d)) + ListBytes(plan.files)
  }

  /** The record of this apply gets published. */
  ghost predicate Publishable(d: Disk, plan: Plan, t: Txn) {
    Clear(d, plan, t) && RecordSize(d, plan, t) <= MAX_RECORD_BYTES
  }

  lemma RecordSizeIs(d: Disk, plan: Plan, t: Txn, rs: seq<Record>)
    requires Distinct(rs) && AsMap(rs) == Files(d)
    ensures RecordBytes(PayloadOf(d, plan, t, rs)) == RecordSize(d, plan, t)
  {
    hide AsMap, HeadBytes, ListBytes, InventoryBytes;
    ListIsInventory(rs);
  }

  lemma StartsFits(d: Disk, plan: Plan, r: Payload)
    requires Starts(d, plan, r)
    ensures Fits(r)
  {
    hide AsMap, RecordSize, RecordBytes;
    RecordSizeIs(d, plan, r.txn, r.oldFiles);
  }

  // ---------------------------------------------------------------- the disks of one apply

  function Ledger(d: Disk, r: Payload, stage: Inventory, backup: Inventory): Disk {
    d.(record := Some(Sound(r)), dirs := d.dirs[Stage(r.txn) := stage][Backup(r.txn) := backup])
  }

  /** Staged, with an empty backup, and no record yet. */
  function Prepared(d: Disk, plan: Plan, t: Txn): Disk {
    d.(dirs := d.dirs[Stage(t) := AsMap(plan.files)][Backup(t) := map[]])
  }

  lemma PreparedIsBegun(d: Disk, plan: Plan, r: Payload)
    requires r.newFiles == plan.files
    ensures Prepared(d, plan, r.txn).(record := Some(Sound(r))) == Begun(d, r)
  {}

  /** Record published, nothing moved. */
  function Begun(d: Disk, r: Payload): Disk {
    Ledger(d, r, New(r), map[])
  }

  /** The old files in `moved` are in the backup, the others still in place. */
  function Moving(d: Disk, r: Payload, moved: set<Path>): Disk {
    WithFiles(Ledger(d, r, New(r), Restrict(Old(r), moved)), Old(r) - moved)
  }

  /** All old files are in the backup, the new files in `done` are in place. */
  function Installing(d: Disk, r: Payload, done: set<Path>): Disk {
    WithFiles(Ledger(d, r, New(r) - done, Old(r)), Restrict(New(r), done))
  }

  function MarkerWritten(d: Disk, r: Payload): Disk {
    Installing(d, r, New(r).Keys).(temps := d.temps[r.txn := r.newMarker])
  }

  function MarkerSet(d: Disk, r: Payload): Disk {
    Installing(d, r, New(r).Keys).(temps := d.temps - {r.txn}, marker := Some(r.newMarker))
  }

  function Target(d: Disk, plan: Plan): Visible {
    Visible(Some(Tree(AsMap(plan.files), Git(d))), Some(MarkerOf(plan)))
  }

  /** The steps before the commit. */
  predicate Uncommitted(d: Disk, r: Payload, e: Disk) {
    || e == Begun(d, r)
    || (exists moved | moved <= Old(r).Keys :: e == Moving(d, r, moved))
    || (exists done | done <= New(r).Keys :: e == Installing(d, r, done))
    || e == MarkerWritten(d, r)
  }

  /** Exactly `k` old files have been moved to the backup. */
  predicate PartlyMoved(d: Disk, r: Payload, e: Disk, k: nat) {
    exists moved | moved <= Old(r).Keys :: |moved| == k && e == Moving(d, r, moved)
  }

  // ---------------------------------------------------------------- what a crash leaves

  /** The record loads, and no file is missing while the old marker already equals the new one. */
  predicate Recoverable(r: Payload, e: Disk) {
    && |r.oldFiles| <= MAX_FILES && |r.newFiles| <= MAX_FILES
    && (r.oldMarker == Some(r.newMarker) ==> Files(e) == New(r))
  }

  lemma LedgerView(d: Disk, r: Payload, stage: Inventory, backup: Inventory)
    requires Stage(r.txn) !in d.dirs && Backup(r.txn) !in d.dirs
    ensures var e := Ledger(d, r, stage, backup);
      && Held(e, Stage(r.txn)) == stage && Held(e, Backup(r.txn)) == backup
      && e.dirs - {Stage(r.txn), Backup(r.txn)} == d.dirs
  {}

  /** A transaction disk before the commit, given only by what it holds. */
  lemma LedgerFate(d: Disk, plan: Plan, r: Payload, e: Disk, stage: Inventory, backup: Inventory)
    requires Starts(d, plan, r)
    requires e == Ledger(d, r, stage, backup).(dest := e.dest, temps := e.temps)
    requires stage.Keys <= New(r).Keys && backup.Keys <= Old(r).Keys
    requires NothingLost(Files(e), backup, Old(r), New(r))
    requires Git(e) == Git(d) && (e.dest.None? ==> d.dest.None?)
    ensures Finishable(e) <==> Recoverable(r, e)
    ensures Finishable(e) ==> Settled(e) == Settled(d)
  {
    hide AsMap, Distinct, NothingLost, RecordSize, RecordBytes, Fits;
    StartsFits(d, plan, r);
    LedgerView(d, r, stage, backup);
    assert Sweepable(e, r);
  }

  lemma MovingFate(d: Disk, plan: Plan, r: Payload, moved: set<Path>)
    requires Starts(d, plan, r) && moved <= Old(r).Keys
    ensures Finishable(Moving(d, r, moved)) <==> Recoverable(r, Moving(d, r, moved))
    ensures Finishable(Moving(d, r, moved)) ==> Settled(Moving(d, r, moved)) == Settled(d)
  {
    var backup := Restrict(Old(r), moved);
    assert NothingLost(Old(r) - moved, backup, Old(r), New(r));
    LedgerFate(d, plan, r, Moving(d, r, moved), New(r), backup);
  }

  lemma InstallingFate(d: Disk, plan: Plan, r: Payload, done: set<Path>, e: Disk)
    requires Starts(d, plan, r) && done <= New(r).Keys
    requires e == Installing(d, r, done).(temps := e.temps)
    ensures Finishable(e) <==> Recoverable(r, e)
    ensures Finishable(e) ==> Settled(e) == Settled(d)
  {
    assert NothingLost(Restrict(New(r), done), Old(r), Old(r), New(r));
    LedgerFate(d, plan, r, e, New(r) - done, Old(r));
  }

  lemma UncommittedFate(d: Disk, plan: Plan, r: Payload, e: Disk)
    requires Starts(d, plan, r) && Uncommitted(d, r, e)
    ensures Finishable(e) <==> Recoverable(r, e)
    ensures Finishable(e) ==> Settled(e) == Settled(d)
  {
    if e == Begun(d, r) {
      LedgerFate(d, plan, r, e, New(r), map[]);
    } else if e == MarkerWritten(d, r) {
      InstallingFate(d, plan, r, New(r).Keys, e);
    } else if moved :| moved <= Old(r).Keys && e == Moving(d, r, moved) {
      MovingFate(d, plan, r, moved);
    } else {
      var done :| done <= New(r).Keys && e == Installing(d, r, done);
      InstallingFate(d, plan, r, done, e);
    }
  }

  lemma LedgerHolds(d: Disk, plan: Plan, r: Payload, e: Disk, stage: Inventory, backup: Inventory)
    requires Starts(d, plan, r) && e == Ledger(d, r, stage, backup).(dest := e.dest, temps := e.temps)
    requires NothingLost(Files(e), backup, Old(r), New(r))
    ensures NothingLost(Files(e), Held(e, Backup(r.txn)), Old(r), New(r))
  {
    hide NothingLost, AsMap;
    LedgerView(d, r, stage, backup);
  }

  lemma MovingHolds(d: Disk, plan: Plan, r: Payload, moved: set<Path>)
    requires Starts(d, plan, r) && moved <= Old(r).Keys
    ensures NothingLost(Files(Moving(d, r, moved)), Held(Moving(d, r, moved), Backup(r.txn)), Old(r), New(r))
  {
    hide AsMap;
    LedgerHolds(d, plan, r, Moving(d, r, moved), New(r), Restrict(Old(r), moved));
  }

  lemma InstallingHolds(d: Disk, plan: Plan, r: Payload, done: set<Path>, e: Disk)
    requires Starts(d, plan, r) && done <= New(r).Keys && e == Installing(d, r, done).(temps := e.temps)
    ensures NothingLost(Files(e), Held(e, Backup(r.txn)), Old(r), New(r))
  {
    hide AsMap;
    LedgerHolds(d, plan, r, e, New(r) - done, Old(r));
  }

  /** Until the marker is replaced every old file is in the destination or the backup, and the destination
      holds only old and new files. */
  lemma NothingIsLost(d: Disk, plan: Plan, r: Payload, e: Disk)
    requires Starts(d, plan, r) && Uncommitted(d, r, e)
    ensures e.record == Some(Sound(r)) && e.marker == d.marker
    ensures NothingLost(Files(e), Held(e, Backup(r.txn)), Old(r), New(r))
  {
    hide AsMap, NothingLost, Restrict;
    if e == Begun(d, r) {
      AllInPlace(Old(r), New(r));
      LedgerHolds(d, plan, r, e, New(r), map[]);
    } else if e == MarkerWritten(d, r) {
      InstallingHolds(d, plan, r, New(r).Keys, e);
    } else if moved :| moved <= Old(r).Keys && e == Moving(d, r, moved) {
      MovingHolds(d, plan, r, moved);
    } else {
      var done :| done <= New(r).Keys && e == Installing(d, r, done);
      InstallingHolds(d, plan, r, done, e);
    }
  }

  lemma AllInPlace(prior: Inventory, next: Inventory)
    ensures NothingLost(prior, map[], prior, next)
  {}

  /** From then on the destination is exactly the new files, however far the cleanup gets. */
  lemma CommittedIsNew(d: Disk, r: Payload, e: Disk)
    requires PartlySwept(MarkerSet(d, r), e, r.txn) || e == Swept(MarkerSet(d, r), r.txn)
    ensures e.marker == Some(r.newMarker) && Files(e) == New(r)
  {
    assert Restrict(New(r), New(r).Keys) == New(r);
  }

  lemma MarkerSetIsSweepable(d: Disk, plan: Plan, r: Payload)
    requires Starts(d, plan, r)
    ensures Sweepable(MarkerSet(d, r), r) && MarkerSet(d, r).record == Some(Sound(r))
  {
    LedgerView(d, r, New(r) - New(r).Keys, Old(r));
  }

  lemma CommittedFate(d: Disk, plan: Plan, r: Payload)
    requires Starts(d, plan, r)
    requires |r.oldFiles| <= MAX_FILES && |r.newFiles| <= MAX_FILES
    ensures Restless(MarkerSet(d, r), r)
    ensures Finish(MarkerSet(d, r)) == Swept(MarkerSet(d, r), r.txn)
    ensures Settled(MarkerSet(d, r)) == Target(d, plan)
  {
    hide RecordSize, RecordBytes, Fits;
    StartsFits(d, plan, r);
    var e := MarkerSet(d, r);
    assert Restrict(New(r), New(r).Keys) == New(r);
    LedgerView(d, r, New(r) - New(r).Keys, Old(r));
  }

  // ---------------------------------------------------------------- the moves themselves

  predicate Lists(rs: seq<Record>, files: Inventory, left: Inventory) {
    Distinct(rs) && SubMap(left, files) && AsMap(rs) == files - left.Keys
  }

  lemma AsMapExtends(rs: seq<Record>, r: Record)
    ensures AsMap(rs + [r]) == AsMap(rs)[r.path := r.file]
  {
    assert (rs + [r])[..|rs|] == rs;
  }

  lemma AsMapSnoc(rs: seq<Record>, q: Path, f: File)
    requires Distinct(rs) && q !in AsMap(rs)
    ensures AsMap(rs + [Record(q, f)]) == AsMap(rs)[q := f] && Distinct(rs + [Record(q, f)])
  {
    AsMapExtends(rs, Record(q, f));
    hide AsMap;
    forall i | 0 <= i < |rs| ensures rs[i].path != q {
      assert rs[i] in rs;
      assert rs[i].path in AsMap(rs);
    }
  }

  lemma ListOne(rs: seq<Record>, files: Inventory, left: Inventory, q: Path)
    requires Lists(rs, files, left) && q in left
    ensures Lists(rs + [Record(q, files[q])], files, left - {q})
  {
    AsMapSnoc(rs, q, files[q]);
    assert (files - left.Keys)[q := files[q]] == files - (left - {q}).Keys;
  }

  lemma WriteStart(d: Disk, t: Txn)
    requires Stage(t) !in d.dirs
    ensures forall m :: WithoutDir(WithDir(d, Stage(t), m), Stage(t)) == d
  {
    forall m ensures WithoutDir(WithDir(d, Stage(t), m), Stage(t)) == d {
      assert d.dirs[Stage(t) := m] - {Stage(t)} == d.dirs;
    }
  }

  lemma WriteStep(d: Disk, t: Txn, files: seq<Record>, i: nat)
    requires i < |files|
    ensures var more := AsMap(files[..i])[files[i].path := files[i].file];
      && more == AsMap(files[..i + 1])
      && WithDir(WithDir(d, Stage(t), AsMap(files[..i])), Stage(t), more) == WithDir(d, Stage(t), more)
  {
    assert files[..i + 1][..i] == files[..i];
  }

  /** Old file `q` moved from the destination to the backup. */
  function Moved(e: Disk, r: Payload, q: Path): Disk
    requires q in Files(e)
  {
    WithFiles(WithDir(e, Backup(r.txn), Held(e, Backup(r.txn))[q := Files(e)[q]]), Files(e) - {q})
  }

  lemma MoveStep(d: Disk, r: Payload, moved: set<Path>, q: Path)
    requires q in Old(r) && q !in moved
    ensures q in Files(Moving(d, r, moved))
    ensures Moved(Moving(d, r, moved), r, q) == Moving(d, r, moved + {q})
    ensures Moving(d, r, moved + {q}) != Moving(d, r, moved)
  {
    var e := Moving(d, r, moved);
    assert Held(e, Backup(r.txn)) == Restrict(Old(r), moved);
    assert Restrict(Old(r), moved)[q := Old(r)[q]] == Restrict(Old(r), moved + {q});
    assert Old(r) - moved - {q} == Old(r) - (moved + {q});
    assert Files(Moving(d, r, moved + {q})) == Old(r) - (moved + {q});
    assert e.dirs[Backup(r.txn) := Restrict(Old(r), moved + {q})]
        == Moving(d, r, moved + {q}).dirs;
  }

  /** Staged file `q` moved to its vacant place in the destination. */
  function Installed(e: Disk, r: Payload, q: Path): Disk
    requires q in Held(e, Stage(r.txn))
  {
    WithFiles(WithDir(e, Stage(r.txn), Held(e, Stage(r.txn)) - {q}), Files(e)[q := Held(e, Stage(r.txn))[q]])
  }

  lemma OneMore(m: Inventory, done: set<Path>, q: Path)
    requires q in m && q !in done
    ensures q in m - done && q !in Restrict(m, done)
    ensures Restrict(m, done)[q := m[q]] == Restrict(m, done + {q}) && m - done - {q} == m - (done + {q})
  {}

  lemma StageShrinks(d: Disk, r: Payload, done: set<Path>, q: Path)
    ensures Held(Installing(d, r, done), Stage(r.txn)) == New(r) - done
    ensures Installing(d, r, done).dirs[Stage(r.txn) := New(r) - (done + {q})] == Installing(d, r, done + {q}).dirs
  {
    hide AsMap, Restrict;
  }

  lemma InstallStep(d: Disk, r: Payload, done: set<Path>, q: Path)
    requires q in New(r) && q !in done
    ensures q in Held(Installing(d, r, done), Stage(r.txn)) && q !in Files(Installing(d, r, done))
    ensures Installed(Installing(d, r, done), r, q) == Installing(d, r, done + {q})
    ensures Installing(d, r, done + {q}) != Installing(d, r, done)
  {
    hide AsMap, Restrict, Held;
    OneMore(New(r), done, q);
    StageShrinks(d, r, done, q);
    InstallingGrows(d, r, done, q);
  }

  lemma InstallingGrows(d: Disk, r: Payload, done: set<Path>, q: Path)
    requires q in New(r) && q !in done
    ensures Installing(d, r, done + {q}) != Installing(d, r, done)
  {
    hide AsMap, Held;
    assert q in Files(Installing(d, r, done + {q})) && q !in Files(Installing(d, r, done));
  }

  function PathsOf(rs: seq<Record>): set<Path> {
    set x | x in rs :: x.path
  }

  lemma NextPath(rs: seq<Record>, i: nat)
    requires Distinct(rs) && i < |rs|
    ensures rs[i].path in AsMap(rs) && rs[i].path !in PathsOf(rs[..i])
    ensures PathsOf(rs[..i + 1]) == PathsOf(rs[..i]) + {rs[i].path}
  {
    hide AsMap, PathsOf, Distinct;
    assert rs[i] in rs;
    assert rs[..i + 1] == rs[..i] + [rs[i]];
    PathsGrow(rs[..i], rs[i]);
    NewPath(rs, i);
  }

  lemma PathsGrow(rs: seq<Record>, r: Record)
    ensures PathsOf(rs + [r]) == PathsOf(rs) + {r.path}
  {
    forall q ensures q in PathsOf(rs + [r]) <==> q in PathsOf(rs) || q == r.path {
      if q in PathsOf(rs + [r]) {
        var x :| x in rs + [r] && x.path == q;
        assert x in rs || x == r;
      }
      if q in PathsOf(rs) {
        var x :| x in rs && x.path == q;
        assert x in rs + [r];
      }
      assert r in rs + [r];
    }
  }

  lemma NewPath(rs: seq<Record>, i: nat)
    requires Distinct(rs) && i < |rs|
    ensures rs[i].path !in PathsOf(rs[..i])
  {
    forall x | x in rs[..i] ensures x.path != rs[i].path {
      var j :| 0 <= j < i && rs[j] == x;
    }
  }

  lemma AllPaths(rs: seq<Record>, i: nat)
    requires i == |rs|
    ensures PathsOf(rs[..i]) == AsMap(rs).Keys
  {
    assert rs[..i] == rs;
  }

  lemma BegunIsMoving(d: Disk, plan: Plan, r: Payload)
    requires Starts(d, plan, r)
    ensures d.dest.Some? ==> Begun(d, r) == Moving(d, r, {})
    ensures d.dest.None? ==> Begun(d, r).(dest := Some(Tree(map[], None))) == Moving(d, r, {})
  {
    hide AsMap;
    assert Restrict(Old(r), {}) == map[];
    assert Old(r) - {} == Old(r);
  }

  lemma AllMovedIsInstalling(d: Disk, r: Payload)
    ensures Moving(d, r, Old(r).Keys) == Installing(d, r, {})
  {
    hide AsMap;
    assert Restrict(Old(r), Old(r).Keys) == Old(r);
    assert Old(r) - Old(r).Keys == map[] == Restrict(New(r), {});
    assert New(r) - {} == New(r);
  }

  lemma AllInstalled(d: Disk, r: Payload)
    ensures Files(Installing(d, r, New(r).Keys)) == New(r) == Files(MarkerSet(d, r))
  {
    hide AsMap;
    assert Restrict(New(r), New(r).Keys) == New(r);
  }

  // ---------------------------------------------------------------- every disk of one apply

  /** Where an apply that has published `r` may stop. */
  predicate Midway(d: Disk, r: Payload, e: Disk) {
    || Uncommitted(d, r, e)
    || PartlySwept(MarkerSet(d, r), e, r.txn)
    || e == Swept(MarkerSet(d, r), r.txn)
  }

  /** Applying `plan` to the settled disk `d` can always be recovered, wherever it stops. */
  predicate Ready(d: Disk, plan: Plan) {
    && |plan.files| <= MAX_FILES && |Files(d)| <= MAX_FILES
    && (d.marker == Some(MarkerOf(plan)) ==> plan.files == [])
  }

  lemma ReadyIsRecoverable(d: Disk, plan: Plan, r: Payload, e: Disk)
    requires Starts(d, plan, r) && Ready(d, plan) && Uncommitted(d, r, e)
    ensures Recoverable(r, e)
  {
    AsMapSize(r.oldFiles);
    if d.marker == Some(MarkerOf(plan)) {
      assert Old(r) == map[] && New(r) == map[];
      assert Files(e) == map[];
    }
  }

  lemma RecommitIsTarget(d: Disk, plan: Plan, r: Payload)
    requires Starts(d, plan, r) && d.marker == Some(MarkerOf(plan))
    ensures Settled(d) == Target(d, plan)
  {}

  lemma UncommittedMarker(d: Disk, r: Payload, e: Disk)
    requires Uncommitted(d, r, e)
    ensures e.marker == d.marker && e.record == Some(Sound(r))
  {
    hide AsMap, Restrict;
  }

  lemma MovingIsUncommitted(d: Disk, r: Payload, moved: set<Path>, k: nat)
    requires moved <= Old(r).Keys && |moved| == k
    ensures Uncommitted(d, r, Moving(d, r, moved)) && PartlyMoved(d, r, Moving(d, r, moved), k)
  {
    hide Moving, Installing, AsMap;
  }

  lemma BegunIsUncommitted(d: Disk, r: Payload)
    ensures Uncommitted(d, r, Begun(d, r))
  {
    hide Moving, Installing, AsMap;
  }

  /** Writing and replacing the marker does not leave the apply. */
  lemma MarkingIsMidway(d: Disk, r: Payload)
    ensures Midway(d, r, Installing(d, r, New(r).Keys)) && Midway(d, r, MarkerWritten(d, r)) && Midway(d, r, MarkerSet(d, r))
    ensures Installing(d, r, New(r).Keys).record.Some? && MarkerWritten(d, r).record.Some? && MarkerSet(d, r).record.Some?
  {
    InstallingIsUncommitted(d, r, New(r).Keys);
    hide Moving, AsMap, Restrict;
  }

  lemma InstallingIsUncommitted(d: Disk, r: Payload, done: set<Path>)
    requires done <= New(r).Keys
    ensures Uncommitted(d, r, Installing(d, r, done))
  {
    hide Moving, Installing, AsMap;
  }

  lemma SweepingOutcome(d: Disk, plan: Plan, r: Payload, e: Disk)
    requires Starts(d, plan, r) && |r.oldFiles| <= MAX_FILES && |r.newFiles| <= MAX_FILES
    requires PartlySwept(MarkerSet(d, r), e, r.txn) || e == Swept(MarkerSet(d, r), r.txn)
    ensures Finishable(e) && Settled(e) == Target(d, plan) && e.marker == Some(r.newMarker)
    ensures e.record == Some(Sound(r)) || e == Swept(MarkerSet(d, r), r.txn)
  {
    hide AsMap, Installing, Restless, Finishable, Finish;
    CommittedFate(d, plan, r);
    MarkerSetIsSweepable(d, plan, r);
    SweepingKeepsFate(MarkerSet(d, r), e, r);
  }

  lemma MidwayFate(d: Disk, plan: Plan, r: Payload, e: Disk)
    requires Starts(d, plan, r) && |r.oldFiles| <= MAX_FILES && |r.newFiles| <= MAX_FILES && Midway(d, r, e)
    ensures e.record == Some(Sound(r)) || e == Swept(MarkerSet(d, r), r.txn)
    ensures e == Swept(MarkerSet(d, r), r.txn) ==> Finishable(e) && e.marker == Some(r.newMarker)
    ensures Ready(d, plan) ==> Finishable(e)
    ensures Finishable(e) && e.marker == Some(r.newMarker) ==> Settled(e) == Target(d, plan)
    ensures Finishable(e) && e.marker != Some(r.newMarker) ==> Settled(e) == Settled(d)
  {
    hide AsMap, Uncommitted, Finishable, Finish, PartlySwept, MarkerSet, Ready, Objection, Recoverable, Settled, Target;
    if Uncommitted(d, r, e) {
      UncommittedFate(d, plan, r, e);
      UncommittedMarker(d, r, e);
      assert e != Swept(MarkerSet(d, r), r.txn);
      if Ready(d, plan) {
        ReadyIsRecoverable(d, plan, r, e);
      }
      if d.marker == Some(MarkerOf(plan)) {
        RecommitIsTarget(d, plan, r);
      }
    } else {
      SweepingOutcome(d, plan, r, e);
    }
  }

  /** With all new files in place, recovery always succeeds, whichever way it goes. */
  lemma InstalledFate(d: Disk, plan: Plan, r: Payload)
    requires Starts(d, plan, r) && |r.oldFiles| <= MAX_FILES && |r.newFiles| <= MAX_FILES
    ensures var e := Installing(d, r, New(r).Keys);
      Finishable(e) && e.marker == d.marker && e.record == Some(Sound(r))
  {
    var e := Installing(d, r, New(r).Keys);
    AllInstalled(d, r);
    InstallingFate(d, plan, r, New(r).Keys, e);
  }

  /** Operations of an apply before its commit, from the published record on. */
  function ExchangeCost(d: Disk, r: Payload): nat {
    (if d.dest.None? then 1 else 0) + |Old(r).Keys| + |r.newFiles|
  }

  /** Operations between the published record and its unlink. */
  function TransactCost(d: Disk, r: Payload): nat {
    ExchangeCost(d, r) + 2 + |Old(r).Keys| + 2
  }

  lemma MarkerSetCost(d: Disk, r: Payload)
    ensures SweepCost(MarkerSet(d, r), r.txn) == |Old(r).Keys| + 2
  {
    hide AsMap, Restrict;
    assert (New(r) - New(r).Keys) == map[];
  }

  /** The operations of a whole apply to a settled disk before it unlinks its record. */
  function UnlinkAt(d: Disk, plan: Plan): nat {
    |plan.files| + 3 + (if d.dest.None? then 1 else 0) + |Files(d)| + |plan.files| + 2 + |Files(d)| + 2
  }

  lemma UnlinkAtIs(d: Disk, plan: Plan, r: Payload)
    requires Starts(d, plan, r)
    ensures UnlinkAt(d, plan) == |plan.files| + 3 + TransactCost(d, r)
  {
    hide AsMap, Objection;
    assert |Old(r).Keys| == |Files(d)|;
  }

  /** An apply that meets no fault installs the plan: the whole condition. */
  ghost predicate Startable(d: Disk, plan: Plan, t: Txn) {
    && Objection(d).None? && Publishable(d, plan, t)
    && |plan.files| <= MAX_FILES && |Files(d)| <= MAX_FILES
    && (t !in d.temps || d.marker == Some(MarkerOf(plan)))
  }

  /** The record of this apply gets published, and will not load again. */
  ghost predicate Oversize(d: Disk, plan: Plan, t: Txn) {
    && Objection(d).None? && Publishable(d, plan, t)
    && (|Files(d)| > MAX_FILES || |plan.files| > MAX_FILES)
  }

  /** The record of this apply is refused before anything of it is written. */
  ghost predicate TooLarge(d: Disk, plan: Plan, t: Txn) {
    Objection(d).None? && Clear(d, plan, t) && RecordSize(d, plan, t) > MAX_RECORD_BYTES
  }

  /** A record of too many files is published and never loads. */
  lemma OversizeIsDeclined(d: Disk, plan: Plan, r: Payload)
    requires Starts(d, plan, r) && (|Files(d)| > MAX_FILES || |plan.files| > MAX_FILES)
    ensures Declined(Begun(d, r)) && Begun(d, r).dest == d.dest && Begun(d, r).marker == d.marker
  {
    hide AsMap, Objection;
    AsMapSize(r.oldFiles);
    assert |Old(r)| == |Files(d)|;
  }

  ghost predicate Strandable(d: Disk, plan: Plan, t: Txn) {
    && Objection(d).None? && Publishable(d, plan, t) && d.dest.Some?
    && |plan.files| <= MAX_FILES && |Files(d)| <= MAX_FILES
  }

  /** An apply can be cut off after `k` moves: while it moves old files, or before its first install. */
  predicate Reached(prior: Inventory, plan: Plan, k: nat) {
    k < |prior| || (k == |prior| && plan.files != [])
  }

  /** Power went when exactly `k` old files had been moved. */
  ghost predicate StoppedMoving(d: Disk, plan: Plan, e: Disk, k: nat) {
    exists r :: Starts(d, plan, r) && |r.oldFiles| <= MAX_FILES && |r.newFiles| <= MAX_FILES && PartlyMoved(d, r, e, k)
  }

  lemma BegunFate(d: Disk, plan: Plan, r: Payload)
    requires Starts(d, plan, r)
    ensures Begun(d, r).record == Some(Sound(r))
    ensures Ready(d, plan) ==> Finishable(Begun(d, r)) && Settled(Begun(d, r)) == Settled(d)
  {
    hide AsMap, Settled, Finishable;
    BegunIsUncommitted(d, r);
    UncommittedFate(d, plan, r, Begun(d, r));
    if Ready(d, plan) {
      ReadyIsRecoverable(d, plan, r, Begun(d, r));
    }
  }

  lemma NothingPending()
    ensures forall e: Disk :: e.record.None? ==> Finishable(e)
  {}

  lemma SameMarkerSameFiles(d: Disk, plan: Plan, r: Payload)
    requires Starts(d, plan, r) && d.marker == Some(MarkerOf(plan))
    ensures New(r) == Old(r)
  {
    hide AsMap, Objection, Distinct;
  }

  lemma RemovalShows(m: Inventory, gone: set<Path>)
    requires gone <= m.Keys
    ensures m - gone == m <==> gone == {}
  {
    if q :| q in gone {
      assert q in m && q !in m - gone;
    }
  }

  lemma StoppedAt(d: Disk, plan: Plan, r: Payload, moved: set<Path>)
    requires Starts(d, plan, r) && |r.oldFiles| <= MAX_FILES && |r.newFiles| <= MAX_FILES && moved <= Old(r).Keys
    ensures var e := Moving(d, r, moved);
      && (Finishable(e) <==> d.marker != Some(MarkerOf(plan)) || moved == {})
      && (Stranded(e) <==> d.marker == Some(MarkerOf(plan)) && moved != {})
      && e.record == Some(Sound(r)) && (moved != {} ==> Files(e) != Files(d))
  {
    hide AsMap, Finishable, Settled, Objection, Distinct;
    MovingFate(d, plan, r, moved);
    RemovalShows(Old(r), moved);
    if d.marker == Some(MarkerOf(plan)) {
      SameMarkerSameFiles(d, plan, r);
    }
  }

  /** A crash after `k` moves is recoverable exactly when the plan is not the one already shown, or nothing had moved. */
  lemma StoppedFate(d: Disk, plan: Plan, e: Disk, k: nat)
    requires StoppedMoving(d, plan, e, k)
    ensures Finishable(e) <==> d.marker != Some(MarkerOf(plan)) || k == 0
    ensures Stranded(e) <==> d.marker == Some(MarkerOf(plan)) && k > 0
    ensures e.record.Some? && (k > 0 ==> Files(e) != Files(d))
  {
    hide AsMap, Finishable, Stranded, Starts, Moving;
    var r :| Starts(d, plan, r) && |r.oldFiles| <= MAX_FILES && |r.newFiles| <= MAX_FILES && PartlyMoved(d, r, e, k);
    var moved :| moved <= Old(r).Keys && |moved| == k && e == Moving(d, r, moved);
    StoppedAt(d, plan, r, moved);
  }

  /** `Ready` is the whole condition under which no crash before the commit can strand the export. */
  lemma ReadyIsExact(d: Disk, plan: Plan, r: Payload)
    requires Starts(d, plan, r)
    ensures (forall e :: Uncommitted(d, r, e) ==> Finishable(e)) <==> Ready(d, plan)
  {
    hide AsMap, Finishable, Settled, Uncommitted;
    AsMapSize(r.oldFiles);
    forall e | Ready(d, plan) && Uncommitted(d, r, e) ensures Finishable(e) {
      ReadyIsRecoverable(d, plan, r, e);
      UncommittedFate(d, plan, r, e);
    }
    if !Ready(d, plan) {
      if |plan.files| > MAX_FILES || |Files(d)| > MAX_FILES {
        BegunIsUncommitted(d, r);
        UncommittedFate(d, plan, r, Begun(d, r));
      } else {
        OneMoveStrands(d, plan, r);
      }
    }
  }

  /** Some stop before the commit leaves a disk that recovery refuses. */
  ghost predicate CanStrand(d: Disk, plan: Plan, t: Txn) {
    exists r: Payload, e: Disk :: r.txn == t && Starts(d, plan, r) && Uncommitted(d, r, e) && !Finishable(e)
  }

  /**
   The exact condition, before anything has been published: an apply can strand the export if and only if its
   record is within the byte ceiling and the plan is not `Ready`.  A record that is too large strands nothing.
   */
  lemma StrandsExactly(d: Disk, plan: Plan, t: Txn)
    requires d.record.None? && Objection(d).None? && Clear(d, plan, t)
    ensures CanStrand(d, plan, t) <==> RecordSize(d, plan, t) <= MAX_RECORD_BYTES && !Ready(d, plan)
  {
    hide Finishable, Uncommitted, RecordSize, Objection, Ready, Clear, AsMap;
    if Publishable(d, plan, t) {
      var r := FirstRecord(d, plan, t);
      ReadyIsExact(d, plan, r);
    }
    forall r: Payload | Starts(d, plan, r) && r.txn == t
      ensures Publishable(d, plan, t) && (Ready(d, plan) ==> forall e :: Uncommitted(d, r, e) ==> Finishable(e))
    {
      ReadyIsExact(d, plan, r);
    }
  }

  /** A record that an apply can publish. */
  lemma FirstRecord(d: Disk, plan: Plan, t: Txn) returns (r: Payload)
    requires d.record.None? && Objection(d).None? && Publishable(d, plan, t)
    ensures Starts(d, plan, r) && r.txn == t
  {
    hide AsMap, RecordSize, Distinct;
    var rs := if d.marker.Some? then d.marker.value.files else [];
    if d.marker.None? {
      rs := Listing(Files(d));
    }
    r := PayloadOf(d, plan, t, rs);
  }

  lemma Listing(m: Inventory) returns (rs: seq<Record>)
    ensures Distinct(rs) && AsMap(rs) == m
    decreases |m|
  {
    hide AsMap;
    rs := [];
    NothingListed();
    if m != map[] {
      assert m.Keys != {};
      var q :| q in m.Keys;
      var most := Listing(m - {q});
      rs := most + [Record(q, m[q])];
      NotListed(most, q);
      LastListed(most, m, q);
    }
  }

  lemma LastListed(most: seq<Record>, m: Inventory, q: Path)
    requires q in m && AsMap(most) == m - {q}
    ensures AsMap(most + [Record(q, m[q])]) == m
  {
    var rs := most + [Record(q, m[q])];
    assert rs[..|rs| - 1] == most;
    assert (m - {q})[q := m[q]] == m;
  }

  lemma NothingListed()
    ensures AsMap([]) == map[]
  {}

  lemma NotListed(rs: seq<Record>, q: Path)
    requires q !in AsMap(rs)
    ensures forall i :: 0 <= i < |rs| ==> rs[i].path != q
  {
    forall i | 0 <= i < |rs| ensures rs[i].path != q {
      assert rs[i] in rs && rs[i].path in AsMap(rs).Keys;
    }
  }

  lemma OneMoveStrands(d: Disk, plan: Plan, r: Payload)
    requires Starts(d, plan, r) && d.marker == Some(MarkerOf(plan)) && plan.files != []
    ensures exists e :: Uncommitted(d, r, e) && !Finishable(e)
  {
    var q := plan.files[0].path;
    var e := Moving(d, r, {q});
    assert q in Old(r) && q !in Files(e);
    hide AsMap, Finishable, Settled, Uncommitted, Moving;
    MovingIsUncommitted(d, r, {q}, 1);
    UncommittedFate(d, plan, r, e);
  }

  lemma StrandedIsDeclined(d: Disk)
    requires Stranded(d)
    ensures Declined(d)
  {}

  /** A record is on disk until the transaction is completely swept. */
  lemma RecordGoes(d: Disk, r: Payload, e: Disk)
    ensures PartlySwept(MarkerSet(d, r), e, r.txn) ==> e.record == Some(Sound(r))
    ensures Swept(MarkerSet(d, r), r.txn).record.None?
  {
    hide AsMap, Restrict;
  }

  lemma SweptIsTarget(d: Disk, plan: Plan, r: Payload)
    requires Starts(d, plan, r)
    ensures var e := Swept(MarkerSet(d, r), r.txn); e.record.None? && Settled(e) == Target(d, plan)
  {
    hide AsMap, Objection;
    assert Restrict(New(r), New(r).Keys) == New(r);
  }

  lemma BegunPublishes(d: Disk, r: Payload)
    ensures Begun(d, r).record == Some(Sound(r))
  {}

  lemma RecordsCount(d: Disk, plan: Plan, t: Txn, rs: seq<Record>)
    requires d.record.None? && Objection(d).None? && Distinct(rs) && AsMap(rs) == Files(d)
    requires d.marker.Some? ==> rs == d.marker.value.files
    ensures |rs| == |Files(d)|
    ensures var r := PayloadOf(d, plan, t, rs);
      && RecordBytes(r) == RecordSize(d, plan, t) && r.txn == t && r.oldFiles == rs && r.newFiles == plan.files && r.newMarker == MarkerOf(plan)
      && (Publishable(d, plan, t) ==> Starts(d, plan, r) && Begun(d, r).record.Some?)
      && (Publishable(d, plan, t) && Ready(d, plan) ==> Finishable(Begun(d, r)) && Settled(Begun(d, r)) == Settled(d))
  {
    hide AsMap, Finishable, Settled, Begun, Ready, RecordSize, RecordBytes, Objection, Distinct;
    AsMapSize(rs);
    RecordSizeIs(d, plan, t, rs);
    BegunPublishes(d, PayloadOf(d, plan, t, rs));
    if Publishable(d, plan, t) {
      BegunFate(d, plan, PayloadOf(d, plan, t, rs));
    }
  }
}
