/**
 What the public-export transaction keeps on disk, what an uninterrupted recovery makes of it, and
 when that recovery can finish.  Every value here is immutable; `ExportHost` changes a disk one
 atomic operation at a time.
 */
module ExportDisk {
  import opened ExportRecord

  datatype Dir = Stage(txn: Txn) | Backup(txn: Txn)

  /** The destination directory: its files, and Git's index when it holds a `.git`. */
  datatype Tree = Tree(files: Inventory, git: Option<Inventory>)

  datatype Disk = Disk(
    dest: Option<Tree>,
    marker: Option<Marker>,
    record: Option<RecoveryFile>,
    dirs: map<Dir, Inventory>,
    temps: map<Txn, Marker>)

  // ---------------------------------------------------------------- views of a disk

  function Files(d: Disk): Inventory {
    if d.dest.Some? then d.dest.value.files else map[]
  }

  function Git(d: Disk): Option<Inventory> {
    if d.dest.Some? then d.dest.value.git else None
  }

  function Held(d: Disk, dir: Dir): Inventory {
    if dir in d.dirs then d.dirs[dir] else map[]
  }

  function Old(p: Payload): Inventory { AsMap(p.oldFiles) }

  function New(p: Payload): Inventory { AsMap(p.newFiles) }

  function MarkerOf(plan: Plan): Marker {
    Managed(plan.tree, plan.allowlist, plan.files)
  }

  function WithFiles(d: Disk, files: Inventory): Disk {
    d.(dest := Some(Tree(files, Git(d))))
  }

  // ---------------------------------------------------------------- recovery, decided from the disk

  /** The record is one that loading accepts: bounded lists, no path twice, bytes within the ceiling. */
  predicate Loadable(p: Payload) {
    && |p.oldFiles| <= MAX_FILES && |p.newFiles| <= MAX_FILES
    && Distinct(p.oldFiles) && Distinct(p.newFiles)
    && Fits(p)
  }

  /** Cleanup will not meet a file it does not know. */
  predicate Sweepable(d: Disk, p: Payload) {
    && Held(d, Stage(p.txn)).Keys <= New(p).Keys
    && Held(d, Backup(p.txn)).Keys <= Old(p).Keys
  }

  predicate RollForward(d: Disk, p: Payload) {
    && d.marker == Some(p.newMarker)
    && d.dest.Some? && Files(d) == New(p)
    && Sweepable(d, p)
  }

  /** An old path is safe when its file is in the backup, or else still in place. */
  predicate OldSafe(q: Path, files: Inventory, backup: Inventory, prior: Inventory, next: Inventory)
    requires q in prior
  {
    if q in backup then
      backup[q] == prior[q] && (q in files ==> files[q] == prior[q] || Has(next, q, files[q]))
    else
      Has(files, q, prior[q])
  }

  /** Nothing prior is lost, and the destination holds nothing but prior and next files. */
  predicate NothingLost(files: Inventory, backup: Inventory, prior: Inventory, next: Inventory) {
    && (forall q :: q in prior ==> OldSafe(q, files, backup, prior, next))
    && (forall q :: q in files ==> q in prior || Has(next, q, files[q]))
  }

  predicate RollBack(d: Disk, p: Payload) {
    && d.marker == p.oldMarker && d.marker != Some(p.newMarker)
    && (d.dest.Some? || Old(p) != map[] || p.created)
    && (Old(p) == map[] && p.created ==> Git(d).None?)
    && NothingLost(Files(d), Held(d, Backup(p.txn)), Old(p), New(p))
    && Sweepable(d, p)
  }

  /** Exactly the disks from which an uninterrupted recovery succeeds (see `ExportHost.Host.Recover`). */
  predicate Finishable(d: Disk) {
    match d.record
    case None => true
    case Some(Malformed) => false
    case Some(Sound(p)) => Loadable(p) && (RollForward(d, p) || RollBack(d, p))
  }

  /** The marker says committed, the destination says otherwise: recovery refuses for good. */
  predicate Stranded(d: Disk) {
    && d.record.Some? && d.record.value.Sound?
    && d.marker == Some(d.record.value.payload.newMarker)
    && Files(d) != New(d.record.value.payload)
  }

  /** Recovery will not touch this disk: the record does not load, or its markers and files say nothing it can act on. */
  predicate Declined(d: Disk) {
    && d.record.Some?
    && (d.record.value.Malformed?
        || var p := d.record.value.payload;
           || !Loadable(p)
           || (if d.marker == Some(p.newMarker) then d.dest.None? || Files(d) != New(p) else d.marker != p.oldMarker))
  }

  /** The disk without anything of transaction `t`. */
  function Swept(d: Disk, t: Txn): Disk {
    d.(record := None, dirs := d.dirs - {Stage(t), Backup(t)}, temps := d.temps - {t})
  }

  /** The disk that recovery produces from a finishable disk. */
  function Finish(d: Disk): Disk {
    match d.record
    case None => d
    case Some(Malformed) => d
    case Some(Sound(p)) =>
      if d.marker == Some(p.newMarker) then Swept(WithFiles(d, New(p)), p.txn)
      else if Old(p) == map[] && p.created then Swept(d.(dest := None), p.txn)
      else Swept(WithFiles(d, Old(p)), p.txn)
  }

  /** Old path `q` is where it belongs, and a backup of it, if any, is a true one. */
  predicate InPlace(d: Disk, p: Payload, q: Path)
    requires q in Old(p)
  {
    && Has(Files(d), q, Old(p)[q])
    && (q in Held(d, Backup(p.txn)) ==> Held(d, Backup(p.txn))[q] == Old(p)[q])
  }

  /** What a reader of the destination may rely on: the outcome, whatever is still under way. */
  datatype Visible = Visible(dest: Option<Tree>, marker: Option<Marker>)

  function Settled(d: Disk): Visible {
    Visible(Finish(d).dest, Finish(d).marker)
  }

  /** Recovery ends settled: running it again would change nothing. */
  lemma FinishedIsSettled(d: Disk)
    ensures Finishable(d) ==>
      Finish(d).record.None? && Finish(Finish(d)) == Finish(d) && Settled(Finish(d)) == Settled(d) && Finish(d).marker == d.marker
  {}

  lemma DeclinedIsFinal(d: Disk)
    ensures Declined(d) ==> !Finishable(d)
    ensures d.record.Some? && d.record.value.Sound? ==> FailClosed(d, d, d.record.value.payload)
  {
    hide AsMap, Fits;
  }

  lemma SettledIsFinished(d: Disk)
    ensures d.record.None? ==> Finishable(d) && Finish(d) == d && Settled(d) == Visible(d.dest, d.marker)
  {}

  // ---------------------------------------------------------------- steps of a roll back

  /** Both disks are as recoverable as each other, and recovery makes the same of both. */
  predicate SameFate(d: Disk, e: Disk) {
    Finishable(d) == Finishable(e) && (Finishable(d) ==> Finish(d) == Finish(e))
  }

  predicate Undoing(d: Disk, p: Payload) {
    && d.record == Some(Sound(p)) && Loadable(p)
    && d.marker == p.oldMarker && d.marker != Some(p.newMarker)
  }

  lemma UnlinkLosesNothing(files: Inventory, backup: Inventory, prior: Inventory, next: Inventory, q: Path)
    requires q in files && Has(next, q, files[q])
    requires q in prior ==> Has(backup, q, prior[q])
    ensures NothingLost(files, backup, prior, next) <==> NothingLost(files - {q}, backup, prior, next)
  {
    forall x | x in prior
      ensures OldSafe(x, files, backup, prior, next) <==> OldSafe(x, files - {q}, backup, prior, next)
    {}
  }

  lemma RestoreLosesNothing(files: Inventory, backup: Inventory, prior: Inventory, next: Inventory, q: Path)
    requires q !in files && q in prior && Has(backup, q, prior[q])
    ensures NothingLost(files, backup, prior, next) <==> NothingLost(files[q := prior[q]], backup - {q}, prior, next)
  {
    forall x | x in prior
      ensures OldSafe(x, files, backup, prior, next) <==> OldSafe(x, files[q := prior[q]], backup - {q}, prior, next)
    {}
    assert forall x :: x in files[q := prior[q]] <==> x in files || x == q;
  }

  lemma StrangerStrands(d: Disk, p: Payload, q: Path)
    requires Undoing(d, p) && q in Files(d) && q !in Old(p) && !Has(New(p), q, Files(d)[q])
    ensures !Finishable(d)
  {}

  lemma LossStrands(d: Disk, p: Payload, q: Path)
    requires Undoing(d, p) && q in Old(p)
    requires !OldSafe(q, Files(d), Held(d, Backup(p.txn)), Old(p), New(p))
    ensures !Finishable(d)
  {}

  lemma SameFateByParts(d: Disk, e: Disk, p: Payload)
    requires Undoing(d, p) && Undoing(e, p)
    requires RollBack(d, p) <==> RollBack(e, p)
    requires Git(d) == Git(e)
    requires d.dirs - {Stage(p.txn), Backup(p.txn)} == e.dirs - {Stage(p.txn), Backup(p.txn)} && d.temps == e.temps
    ensures SameFate(d, e)
  {}

  lemma UnlinkKeepsFate(d: Disk, p: Payload, q: Path)
    requires Undoing(d, p) && q in Files(d) && Has(New(p), q, Files(d)[q])
    requires q in Old(p) ==> Has(Held(d, Backup(p.txn)), q, Old(p)[q])
    ensures SameFate(d, WithFiles(d, Files(d) - {q}))
  {
    UnlinkLosesNothing(Files(d), Held(d, Backup(p.txn)), Old(p), New(p), q);
    SameFateByParts(d, WithFiles(d, Files(d) - {q}), p);
  }

  function Restored(d: Disk, p: Payload, q: Path): Disk
    requires d.dest.Some? && Backup(p.txn) in d.dirs && q in d.dirs[Backup(p.txn)]
  {
    var b := d.dirs[Backup(p.txn)];
    WithFiles(d, Files(d)[q := b[q]]).(dirs := d.dirs[Backup(p.txn) := b - {q}])
  }

  lemma RestoredView(d: Disk, p: Payload, q: Path)
    requires d.dest.Some? && q in Old(p) && q in Held(d, Backup(p.txn))
    ensures var e := Restored(d, p, q);
      && Held(e, Backup(p.txn)) == Held(d, Backup(p.txn)) - {q}
      && Held(e, Stage(p.txn)) == Held(d, Stage(p.txn))
      && d.dirs - {Stage(p.txn), Backup(p.txn)} == e.dirs - {Stage(p.txn), Backup(p.txn)}
      && (Sweepable(d, p) <==> Sweepable(e, p))
  {
    var e := Restored(d, p, q);
    assert Held(e, Backup(p.txn)).Keys + {q} == Held(d, Backup(p.txn)).Keys;
  }

  lemma RestoreKeepsFate(d: Disk, p: Payload, q: Path)
    requires Undoing(d, p) && d.dest.Some? && q in Old(p) && q !in Files(d)
    requires Has(Held(d, Backup(p.txn)), q, Old(p)[q])
    ensures SameFate(d, Restored(d, p, q))
  {
    RestoredView(d, p, q);
    RestoreLosesNothing(Files(d), Held(d, Backup(p.txn)), Old(p), New(p), q);
    SameFateByParts(d, Restored(d, p, q), p);
  }

  lemma MkdirKeepsFate(d: Disk, p: Payload)
    requires Undoing(d, p) && d.dest.None? && Old(p) != map[]
    ensures SameFate(d, d.(dest := Some(Tree(map[], None))))
  {}

  lemma RmdirKeepsFate(d: Disk, p: Payload)
    requires Undoing(d, p) && d.dest == Some(Tree(map[], None)) && Old(p) == map[] && p.created
    ensures SameFate(d, d.(dest := None))
  {}

  // ---------------------------------------------------------------- fail closed

  /** Every file of `before` that is no longer in `after` was the one that `allowed` records. */
  predicate OnlyDropped(before: Inventory, after: Inventory, allowed: Inventory) {
    forall q :: q in before && !Has(after, q, before[q]) ==> Has(allowed, q, before[q])
  }

  /** Every file of `backup` is still in `kept`, or it is a recorded one that is now in `files`. */
  predicate BackedUp(backup: Inventory, kept: Inventory, files: Inventory, prior: Inventory) {
    forall q :: q in backup ==> Has(kept, q, backup[q]) || (q in prior && Has(files, q, backup[q]))
  }

  predicate SubMap(m: Inventory, n: Inventory) {
    m.Keys <= n.Keys && forall q :: q in m ==> m[q] == n[q]
  }

  /**
   What a roll back may have done to any disk at all, finishable or not: it removed only destination
   files that held their recorded new content, added only recorded old content, and moved backup
   files nowhere but to the destination.
   */
  predicate Guarded(d: Disk, e: Disk, p: Payload) {
    && e.marker == d.marker && e.temps == d.temps && e.record == d.record
    && OnlyDropped(Files(d), Files(e), New(p))
    && OnlyDropped(Files(e), Files(d), Old(p))
    && SubMap(Held(e, Backup(p.txn)), Held(d, Backup(p.txn)))
    && BackedUp(Held(d, Backup(p.txn)), Held(e, Backup(p.txn)), Files(e), Old(p))
    && e.dirs - {Backup(p.txn)} == d.dirs - {Backup(p.txn)}
  }

  /** Guarded, and afterwards possibly swept; the record goes only when the roll back is complete. */
  predicate FailClosed(d: Disk, e: Disk, p: Payload) {
    && e.marker == d.marker
    && OnlyDropped(Files(d), Files(e), New(p))
    && OnlyDropped(Files(e), Files(d), Old(p))
    && BackedUp(Held(d, Backup(p.txn)), Held(e, Backup(p.txn)), Files(e), Old(p))
    && e.dirs - {Stage(p.txn), Backup(p.txn)} == d.dirs - {Stage(p.txn), Backup(p.txn)}
    && e.temps - {p.txn} == d.temps - {p.txn}
    && (e.record == d.record || (Finishable(d) && e == Finish(d)))
  }

  lemma GuardedIsFailClosed(d: Disk, e: Disk, p: Payload)
    requires Guarded(d, e, p)
    ensures FailClosed(d, e, p)
  {
    assert d.dirs - {Stage(p.txn), Backup(p.txn)} == d.dirs - {Backup(p.txn)} - {Stage(p.txn)};
    assert e.dirs - {Stage(p.txn), Backup(p.txn)} == e.dirs - {Backup(p.txn)} - {Stage(p.txn)};
  }

  lemma SweptIsFailClosed(d: Disk, m: Disk, e: Disk, p: Payload)
    requires Guarded(d, m, p) && PartlySwept(m, e, p.txn)
    requires Held(m, Backup(p.txn)).Keys <= Old(p).Keys || Held(e, Backup(p.txn)) == Held(m, Backup(p.txn))
    requires forall q :: q in Old(p) ==> InPlace(m, p, q)
    ensures FailClosed(d, e, p)
  {
    assert Files(e) == Files(m);
    GuardedIsFailClosed(d, m, p);
  }

  /** Where a roll back that started on `d` may stand: `e` has the same fate and nothing was lost. */
  predicate Follows(d: Disk, e: Disk, p: Payload) {
    Undoing(e, p) && SameFate(d, e) && Guarded(d, e, p)
  }

  lemma UnlinkIsGuarded(d: Disk, e: Disk, p: Payload, q: Path)
    requires Guarded(d, e, p) && q in Files(e) && Has(New(p), q, Files(e)[q])
    requires q in Old(p) ==> Has(Held(e, Backup(p.txn)), q, Old(p)[q])
    ensures Guarded(d, WithFiles(e, Files(e) - {q}), p)
  {
    var f := Files(e) - {q};
    assert OnlyDropped(f, Files(d), Old(p));
    assert OnlyDropped(Files(d), f, New(p));
    assert Held(WithFiles(e, f), Backup(p.txn)) == Held(e, Backup(p.txn));
  }

  lemma RestoreIsGuarded(d: Disk, e: Disk, p: Payload, q: Path)
    requires Guarded(d, e, p) && e.dest.Some? && q in Old(p) && q !in Files(e)
    requires Has(Held(e, Backup(p.txn)), q, Old(p)[q])
    ensures Guarded(d, Restored(e, p, q), p)
  {
    var f := Files(e)[q := Old(p)[q]];
    assert OnlyDropped(f, Files(d), Old(p));
    assert OnlyDropped(Files(d), f, New(p));
    assert e.dirs[Backup(p.txn) := Held(e, Backup(p.txn)) - {q}] - {Backup(p.txn)} == e.dirs - {Backup(p.txn)};
  }

  /** Going from `d` to `e` disturbed no old path but `q`. */
  predicate OthersKept(d: Disk, e: Disk, p: Payload, q: Path) {
    forall x :: x in Old(p) && x != q && InPlace(d, p, x) ==> InPlace(e, p, x)
  }

  lemma UnlinkKeepsOthers(d: Disk, p: Payload, q: Path)
    ensures OthersKept(d, WithFiles(d, Files(d) - {q}), p, q)
  {
    assert Held(WithFiles(d, Files(d) - {q}), Backup(p.txn)) == Held(d, Backup(p.txn));
  }

  lemma RestoreKeepsOthers(d: Disk, p: Payload, q: Path)
    requires d.dest.Some? && q in Old(p) && Has(Held(d, Backup(p.txn)), q, Old(p)[q])
    ensures OthersKept(d, Restored(d, p, q), p, q) && InPlace(Restored(d, p, q), p, q)
  {
    RestoredView(d, p, q);
  }

  lemma UnlinkFollows(d: Disk, e: Disk, p: Payload, q: Path)
    requires Follows(d, e, p) && q in Files(e) && Has(New(p), q, Files(e)[q])
    requires q in Old(p) ==> Has(Held(e, Backup(p.txn)), q, Old(p)[q])
    ensures Follows(d, WithFiles(e, Files(e) - {q}), p)
  {
    UnlinkKeepsFate(e, p, q);
    UnlinkIsGuarded(d, e, p, q);
  }

  lemma RestoreFollows(d: Disk, e: Disk, p: Payload, q: Path)
    requires Follows(d, e, p) && e.dest.Some? && q in Old(p) && q !in Files(e)
    requires Has(Held(e, Backup(p.txn)), q, Old(p)[q])
    ensures Follows(d, Restored(e, p, q), p)
  {
    RestoreKeepsFate(e, p, q);
    RestoreIsGuarded(d, e, p, q);
  }

  // ---------------------------------------------------------------- cleanup

  /** A cleanup that has removed part of transaction `t`'s own directories and marker temporary. */
  predicate PartlySwept(d: Disk, e: Disk, t: Txn) {
    && e.dest == d.dest && e.marker == d.marker && e.record == d.record
    && e.dirs - {Stage(t), Backup(t)} == d.dirs - {Stage(t), Backup(t)}
    && Held(e, Stage(t)).Keys <= Held(d, Stage(t)).Keys
    && Held(e, Backup(t)).Keys <= Held(d, Backup(t)).Keys
    && (forall q :: q in Held(e, Backup(t)) ==> Held(e, Backup(t))[q] == Held(d, Backup(t))[q])
    && e.temps - {t} == d.temps - {t}
  }

  function WithDir(d: Disk, dir: Dir, m: Inventory): Disk {
    d.(dirs := d.dirs[dir := m])
  }

  function WithoutDir(d: Disk, dir: Dir): Disk {
    d.(dirs := d.dirs - {dir})
  }

  /** Directory `dir` lost some of its files, or all of it is gone. */
  predicate Trimmed(d: Disk, e: Disk, dir: Dir) {
    || e == d
    || e == WithoutDir(d, dir)
    || (dir in d.dirs && dir in e.dirs && SubMap(e.dirs[dir], d.dirs[dir]) && e == WithDir(d, dir, e.dirs[dir]))
  }

  lemma TrimmedIsPartlySwept(d: Disk, e: Disk, dir: Dir)
    requires Trimmed(d, e, dir)
    ensures PartlySwept(d, e, dir.txn)
  {
    var t := dir.txn;
    assert d.dirs - {dir} - {Stage(t), Backup(t)} == d.dirs - {Stage(t), Backup(t)};
    if e != d && e != WithoutDir(d, dir) {
      assert d.dirs[dir := e.dirs[dir]] - {Stage(t), Backup(t)} == d.dirs - {Stage(t), Backup(t)};
    }
  }

  lemma SweptInTwo(d: Disk, m: Disk, e: Disk, t: Txn)
    requires Trimmed(d, m, Stage(t)) && m == WithoutDir(d, Stage(t)) && Trimmed(m, e, Backup(t))
    ensures PartlySwept(d, e, t)
    ensures e == WithoutDir(m, Backup(t)) ==> e == d.(dirs := d.dirs - {Stage(t), Backup(t)})
  {
    TrimmedIsPartlySwept(d, m, Stage(t));
    TrimmedIsPartlySwept(m, e, Backup(t));
    assert d.dirs - {Stage(t)} - {Backup(t)} == d.dirs - {Stage(t), Backup(t)};
  }

  /** Operations that removing a directory takes: one a file, one for itself. */
  function DirCost(d: Disk, dir: Dir): nat {
    if dir in d.dirs then |d.dirs[dir]| + 1 else 0
  }

  lemma HeldIs(d: Disk, dir: Dir)
    ensures Trimmed(d, d, dir)
    ensures dir in d.dirs ==> Held(d, dir) == d.dirs[dir] && DirCost(d, dir) == |d.dirs[dir]| + 1
    ensures dir !in d.dirs ==> Held(d, dir) == map[] && DirCost(d, dir) == 0 && WithoutDir(d, dir) == d
  {
    if dir !in d.dirs {
      assert d.dirs - {dir} == d.dirs;
    }
  }

  /** Operations of a cleanup before it unlinks the record. */
  function SweepCost(d: Disk, t: Txn): nat {
    DirCost(d, Stage(t)) + DirCost(d, Backup(t)) + if t in d.temps then 1 else 0
  }

  /** Only the record is left of transaction `t`. */
  function Emptied(d: Disk, t: Txn): Disk {
    d.(dirs := d.dirs - {Stage(t), Backup(t)}, temps := d.temps - {t})
  }

  /** The destination is already what recovery wants; only the transaction's leftovers remain. */
  predicate Restless(d: Disk, p: Payload) {
    && d.record == Some(Sound(p)) && Loadable(p)
    && (if d.marker == Some(p.newMarker) then RollForward(d, p)
        else RollBack(d, p) && Finish(d).dest == d.dest)
  }

  lemma CompleteIsFailClosed(d: Disk, e: Disk, p: Payload)
    requires Follows(d, e, p) && Reinstated(e, p) && Sweepable(e, p)
    ensures Finishable(d) && FailClosed(d, Swept(e, p.txn), p)
  {
    var f := Swept(e, p.txn);
    ReinstatedIsRestless(e, p);
    SweepingKeepsFate(e, f, p);
    assert Files(f) == Files(e);
    assert BackedUp(Held(d, Backup(p.txn)), map[], Files(e), Old(p));
    GuardedIsFailClosed(d, e, p);
  }

  /** The roll back has put everything in place; what remains is to verify and to sweep. */
  predicate Reinstated(d: Disk, p: Payload) {
    && Undoing(d, p)
    && Files(d) == Old(p)
    && (forall q :: q in Old(p) ==> InPlace(d, p, q))
    && (d.dest.Some? <==> !(Old(p) == map[] && p.created))
  }

  lemma ReinstatedIsRestless(d: Disk, p: Payload)
    requires Reinstated(d, p)
    ensures Sweepable(d, p) <==> Finishable(d)
    ensures Sweepable(d, p) ==> Restless(d, p)
  {
    assert forall q :: q in Old(p) ==> InPlace(d, p, q) && OldSafe(q, Files(d), Held(d, Backup(p.txn)), Old(p), New(p));
    assert NothingLost(Files(d), Held(d, Backup(p.txn)), Old(p), New(p));
  }

  lemma StrangerRemains(d: Disk, p: Payload)
    requires Undoing(d, p) && Files(d) != Old(p)
    requires forall q :: q in Old(p) ==> InPlace(d, p, q)
    requires forall q :: q in New(p) && q in Files(d) ==> q in Old(p)
    ensures !Finishable(d)
  {
    assert exists q :: q in Files(d) && q !in Old(p);
  }

  lemma SweepingKeepsFate(d: Disk, e: Disk, p: Payload)
    requires Restless(d, p) && (PartlySwept(d, e, p.txn) || e == Swept(d, p.txn))
    ensures Finishable(e) && Finish(e) == Finish(d)
  {
    if e == Swept(d, p.txn) {
      SweptFate(d, p);
    } else {
      PartlySweptFate(d, e, p);
    }
  }

  /** Cleaning up a committed transaction, as far as it got. */
  lemma ForwardFate(d: Disk, e: Disk, p: Payload)
    requires d.record == Some(Sound(p)) && Loadable(p) && d.marker == Some(p.newMarker) && d.dest.Some? && Files(d) == New(p)
    requires PartlySwept(d, e, p.txn) || (Sweepable(d, p) && e == Swept(d, p.txn))
    ensures Finishable(d) <==> Sweepable(d, p)
    ensures Finishable(d) ==> Finishable(e) && Finish(e) == Finish(d) == Swept(d, p.txn)
    ensures e.marker == d.marker && e.dest == d.dest && (e.record == d.record || (Sweepable(d, p) && e == Swept(d, p.txn)))
  {
    hide AsMap;
    if Sweepable(d, p) {
      SweepingKeepsFate(d, e, p);
    }
  }

  lemma SweptFate(d: Disk, p: Payload)
    requires Restless(d, p)
    ensures Finishable(Swept(d, p.txn)) && Finish(Swept(d, p.txn)) == Finish(d)
  {}

  lemma PartlySweptFate(d: Disk, e: Disk, p: Payload)
    requires Restless(d, p) && PartlySwept(d, e, p.txn)
    ensures Finishable(e) && Finish(e) == Finish(d)
  {
    hide AsMap, NothingLost, Loadable;
    SweptTwice(d, e, p.txn);
    if d.marker != Some(p.newMarker) {
      StillNothingLost(d, e, p);
    }
  }

  lemma SweptTwice(d: Disk, e: Disk, t: Txn)
    requires PartlySwept(d, e, t)
    ensures Swept(e, t) == Swept(d, t) && Held(e, Backup(t)).Keys <= Held(d, Backup(t)).Keys && Held(e, Stage(t)).Keys <= Held(d, Stage(t)).Keys
    ensures Swept(e, t) == Swept(d, t) == Swept(e, t).(dest := d.dest)
  {}

  lemma StillNothingLost(d: Disk, e: Disk, p: Payload)
    requires Restless(d, p) && PartlySwept(d, e, p.txn) && d.marker != Some(p.newMarker)
    ensures NothingLost(Files(e), Held(e, Backup(p.txn)), Old(p), New(p))
  {
    hide AsMap;
  }

  lemma StageTrimmed(d: Disk, e: Disk, t: Txn)
    requires Trimmed(d, e, Stage(t))
    ensures Held(e, Backup(t)) == Held(d, Backup(t)) && DirCost(e, Backup(t)) == DirCost(d, Backup(t)) && e.temps == d.temps
  {}

  lemma TempDropped(d: Disk, f: Disk, e: Disk, t: Txn)
    requires PartlySwept(d, f, t) && (e == f || e == f.(temps := f.temps - {t}))
    ensures PartlySwept(d, e, t) && Held(e, Backup(t)) == Held(f, Backup(t))
    ensures f.temps == d.temps && e == f.(temps := f.temps - {t}) ==> e.temps == d.temps - {t}
  {
    assert f.temps - {t} - {t} == f.temps - {t};
  }

  lemma RecordKept(d: Disk, e: Disk, t: Txn)
    requires PartlySwept(d, e, t)
    ensures e.record == d.record
    ensures e == Emptied(d, t) ==> e.(record := None) == Swept(d, t)
  {}

  /** One file fewer in a directory being removed. */
  lemma DirShrinks(d: Disk, dir: Dir, left: Inventory, q: Path)
    requires dir in d.dirs && SubMap(left, d.dirs[dir]) && q in left
    ensures SubMap(left - {q}, d.dirs[dir]) && |left - {q}| == |left| - 1
    ensures WithDir(WithDir(d, dir, left), dir, left - {q}) == WithDir(d, dir, left - {q})
  {
    assert (left - {q}).Keys == left.Keys - {q};
    assert |left| == |left.Keys| && |left - {q}| == |(left - {q}).Keys|;
  }

  lemma DirTrimmed(d: Disk, dir: Dir, left: Inventory)
    requires dir in d.dirs && SubMap(left, d.dirs[dir])
    ensures Trimmed(d, WithDir(d, dir, left), dir)
    ensures WithoutDir(WithDir(d, dir, left), dir) == WithoutDir(d, dir) && Trimmed(d, WithoutDir(d, dir), dir)
    ensures WithDir(d, dir, d.dirs[dir]) == d
  {
    assert d.dirs[dir := left] - {dir} == d.dirs - {dir};
    assert d.dirs[dir := d.dirs[dir]] == d.dirs;
  }
}
