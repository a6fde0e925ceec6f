/**
 Which destinations an apply exports to, said of the destination, its marker and its Git index themselves, and
 what it leaves there.
 */
module ExportAdmission {
  import opened ExportRecord
  import opened ExportDisk
  import opened ExportPlan
  import opened ExportHost

  /** Every record's file is there with its content, and no other file. */
  ghost predicate JustThese(rs: seq<Record>, m: Inventory) {
    && (forall i :: 0 <= i < |rs| ==> rs[i].path in m && m[rs[i].path] == rs[i].file)
    && forall q :: q in m ==> exists i :: 0 <= i < |rs| && rs[i].path == q
  }

  /** A map is the inventory of a list without repetition exactly when each holds what the other holds. */
  lemma {:induction false} InventoryIs(rs: seq<Record>, m: Inventory)
    requires Distinct(rs)
    ensures m == AsMap(rs) <==> JustThese(rs, m)
  {
    forall i | 0 <= i < |rs| ensures Has(AsMap(rs), rs[i].path, rs[i].file) {
      AsMapHolds(rs, i);
    }
    forall q | q in AsMap(rs) ensures exists i :: 0 <= i < |rs| && rs[i].path == q {
      var r :| r in rs && r.path == q;
      var i :| 0 <= i < |rs| && rs[i] == r;
    }
    if JustThese(rs, m) {
      forall q ensures q in m <==> q in AsMap(rs) {
        if q in AsMap(rs) {
          var i :| 0 <= i < |rs| && rs[i].path == q;
        }
        if q in m {
          var i :| 0 <= i < |rs| && rs[i].path == q;
        }
      }
      forall q | q in m ensures m[q] == AsMap(rs)[q] {
        var i :| 0 <= i < |rs| && rs[i].path == q;
      }
    }
  }

  /** Without a marker: no destination, an empty one, or a Git worktree whose index is its files. */
  lemma UnmarkedIsAdmitted(d: Disk)
    requires d.marker.None?
    ensures Objection(d).None? <==>
      d.dest.None? || d.dest == Some(Tree(map[], None)) || d.dest.value.git == Some(d.dest.value.files)
    ensures d.dest.Some? && d.dest.value.git.None? && d.dest.value.files != map[] ==>
      Objection(d) == Some(DestinationUnmanaged)
    ensures d.dest.Some? && d.dest.value.git.Some? && d.dest.value.git.value != d.dest.value.files ==>
      Objection(d) == Some(DestinationDirty)
  {}

  /** With a marker: one that reads, with at most 2048 files and none twice, over a destination of just these files. */
  lemma MarkedIsAdmitted(d: Disk)
    requires d.marker.Some?
    ensures d.marker.value.Foreign? ==> Objection(d) == Some(DestinationMarker)
    ensures d.marker.value.Managed? ==>
      var rs := d.marker.value.files;
      var bad := d.dest.None? || |rs| > 2048 || exists i, j :: 0 <= i < j < |rs| && rs[i].path == rs[j].path;
      && (bad ==> Objection(d) == Some(DestinationMarker))
      && (!bad ==>
           Objection(d) == if JustThese(rs, d.dest.value.files) then None else Some(DestinationDirty))
  {
    hide AsMap;
    if d.marker.value.Managed? && d.dest.Some? && Distinct(d.marker.value.files) {
      InventoryIs(d.marker.value.files, d.dest.value.files);
    }
  }

  /** Nothing but the state of the destination can keep an apply from succeeding. */
  ghost predicate Unhindered(d: Disk, plan: Plan, t: Txn) {
    && Stage(t) !in d.dirs && Backup(t) !in d.dirs && t !in d.temps
    && (forall i, j :: 0 <= i < j < |plan.files| ==> plan.files[i].path != plan.files[j].path)
    && |plan.files| <= 2048 && (d.dest.Some? ==> |d.dest.value.files| <= 2048)
    && RecordSize(d, plan, t) <= MAX_RECORD_BYTES
  }

  /** `Apply` with nothing pending, by what `Objection` says. */
  method ApplyPlain(h: Host, plan: Plan, t: Txn) returns (v: Verdict)
    requires h.disk.record.None?
    modifies h
    ensures Objection(old(h.disk)).Some? ==> v == Raised(Objection(old(h.disk)).value) && h.disk == old(h.disk)
    ensures old(h.Calm()) && Unhindered(old(h.disk), plan, t) ==> (v == Applied <==> Objection(old(h.disk)).None?)
    ensures v == Applied ==>
      && h.disk.record.None? && h.disk.dest.Some?
      && h.disk.dest.value.files == AsMap(plan.files)
      && h.disk.dest.value.git == (if old(h.disk).dest.Some? then old(h.disk).dest.value.git else None)
      && h.disk.marker == Some(Managed(plan.tree, plan.allowlist, plan.files))
  {
    hide Objection, RecordSize, AsMap, Finishable, Declined, TooLarge, Ready;
    SettledIsFinished(h.disk);
    v := h.Apply(plan, t);
    SettledIsFinished(h.disk);
  }

  /**
   With nothing pending and no marker, under any faults: a destination with something in it is left exactly as it
   is unless it is a Git worktree whose index is its files, and the reason given is the one that applies.  Where
   nothing else stands in the way, and without faults, the plan is applied if and only if the destination is
   absent, empty or such a worktree.
   */
  method ApplyUnmarked(h: Host, plan: Plan, t: Txn) returns (v: Verdict)
    requires h.disk.record.None? && h.disk.marker.None?
    modifies h
    ensures var tree := old(h.disk).dest;
      && (tree.Some? && tree.value.git.None? && tree.value.files != map[] ==>
            v == Raised(DestinationUnmanaged) && h.disk == old(h.disk))
      && (tree.Some? && tree.value.git.Some? && tree.value.git.value != tree.value.files ==>
            v == Raised(DestinationDirty) && h.disk == old(h.disk))
    ensures old(h.Calm()) && Unhindered(old(h.disk), plan, t) ==>
      var tree := old(h.disk).dest;
      v == Applied <==> tree.None? || tree == Some(Tree(map[], None)) || tree.value.git == Some(tree.value.files)
  {
    hide Objection, RecordSize;
    UnmarkedIsAdmitted(h.disk);
    v := ApplyPlain(h, plan, t);
  }

  /** A record that loading refuses: one list is too long or names a path twice, or the record exceeds 4 MiB. */
  ghost predicate Unreadable(p: Payload) {
    || |p.oldFiles| > 2048 || |p.newFiles| > 2048 || RecordBytes(p) > 0x40_0000
    || (exists i, j :: 0 <= i < j < |p.oldFiles| && p.oldFiles[i].path == p.oldFiles[j].path)
    || exists i, j :: 0 <= i < j < |p.newFiles| && p.newFiles[i].path == p.newFiles[j].path
  }

  /**
   With a record pending, under any faults: one that is no record, that loading refuses, whose new marker is shown
   by anything but exactly its new files, or that knows neither marker, makes every recovery and every apply raise
   and change nothing.
   */
  method PendingIsRefused(h: Host, plan: Plan, t: Txn) returns (r: Recovery, v: Verdict)
    requires h.disk.record.Some?
    modifies h
    ensures
      var d := old(h.disk);
      var p := if d.record.value.Sound? then Some(d.record.value.payload) else None;
      p.None? || Unreadable(p.value)
      || (d.marker == Some(p.value.newMarker) && (d.dest.None? || !JustThese(p.value.newFiles, d.dest.value.files)))
      || (d.marker != Some(p.value.newMarker) && d.marker != p.value.oldMarker)
      ==> r == RecoveryRequired && v == Raised(RecoveryNeeded) && h.disk == d
  {
    hide AsMap, RecordBytes, Finishable, Finish, Objection, TooLarge, Ready, Startable, Settled;
    if h.disk.record.value.Sound? && h.disk.dest.Some? && Distinct(h.disk.record.value.payload.newFiles) {
      InventoryIs(h.disk.record.value.payload.newFiles, h.disk.dest.value.files);
    }
    r := h.Recover();
    v := h.Apply(plan, t);
  }

  /** The same with a marker: it must read, and the destination must be exactly the files it lists. */
  method ApplyMarked(h: Host, plan: Plan, t: Txn) returns (v: Verdict)
    requires h.disk.record.None? && h.disk.marker.Some?
    modifies h
    ensures old(h.disk).marker.value.Foreign? ==> v == Raised(DestinationMarker) && h.disk == old(h.disk)
    ensures old(h.disk).marker.value.Managed? ==>
      var rs, tree := old(h.disk).marker.value.files, old(h.disk).dest;
      var bad := tree.None? || |rs| > 2048 || exists i, j :: 0 <= i < j < |rs| && rs[i].path == rs[j].path;
      && (bad ==> v == Raised(DestinationMarker) && h.disk == old(h.disk))
      && (!bad ==>
           var same := JustThese(rs, tree.value.files);
           && (!same ==> v == Raised(DestinationDirty) && h.disk == old(h.disk))
           && (same && old(h.Calm()) && Unhindered(old(h.disk), plan, t) ==> v == Applied))
  {
    hide Objection, RecordSize;
    MarkedIsAdmitted(h.disk);
    v := ApplyPlain(h, plan, t);
  }

  /**
   After an apply that returns normally the destination holds the files of the plan and no other, its Git index
   is what it was, and the marker names the plan's tree, its allow list and its files.
   */
  method AppliedShows(h: Host, plan: Plan, t: Txn) returns (v: Verdict)
    requires h.disk.record.None?
    modifies h
    ensures v == Applied && (forall i, j :: 0 <= i < j < |plan.files| ==> plan.files[i].path != plan.files[j].path) ==>
      && h.disk.record.None? && h.disk.dest.Some?
      && h.disk.dest.value.git == (if old(h.disk).dest.Some? then old(h.disk).dest.value.git else None)
      && h.disk.marker == Some(Managed(plan.tree, plan.allowlist, plan.files))
      && JustThese(plan.files, h.disk.dest.value.files)
  {
    hide Objection, RecordSize, AsMap;
    v := ApplyPlain(h, plan, t);
    if Distinct(plan.files) && v == Applied {
      InventoryIs(plan.files, h.disk.dest.value.files);
    }
  }
}
