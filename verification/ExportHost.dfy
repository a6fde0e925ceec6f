/**
 The export transaction as it runs: a host whose disk changes one atomic operation at a time, and
 whose operations may each be refused, reported failed after taking effect, or cut off by a crash.
 */
module ExportHost {
  import opened ExportDisk
  import opened ExportRecord
  import opened ExportPlan

  /** What becomes of one operation: `Late` takes effect and is then reported as an error. */
  datatype Fault = Fine | Refused | Late | Crash

  datatype Outcome = Done | Failed | Down

  datatype Recovery = Nothing | Committed | RolledBack | RecoveryRequired | Interrupted

  datatype Verdict = Applied | Raised(code: Error) | PoweredOff

  class Host {
    var disk: Disk
    /** Operations attempted so far, over every run. */
    var clock: nat
    /** The fate of every operation ever attempted; nothing is assumed about it. */
    const faults: nat -> Fault

    constructor (d: Disk, f: nat -> Fault)
      ensures disk == d && clock == 0 && faults == f
    {
      disk, clock, faults := d, 0, f;
    }

    function Fate(n: nat): Fault {
      faults(n)
    }

    /** No operation fails from now on. */
    ghost predicate Calm()
      reads this
    {
      CalmFrom(clock)
    }

    ghost predicate CalmFrom(n: nat) {
      forall i: nat :: n <= i ==> Fate(i) == Fine
    }

    /** No operation from `a` up to `b` failed. */
    ghost predicate Smooth(a: nat, b: nat) {
      forall i: nat :: a <= i < b ==> Fate(i) == Fine
    }

    /** The first `k` operations from `c` on succeed, and power goes at the next. */
    ghost predicate CrashAfter(c: nat, k: nat) {
      Smooth(c, c + k) && Fate(c + k) == Crash
    }

    /** The operations from `c` up to `now` succeeded, but for the last one when `o` tells of a fault. */
    ghost predicate ToldBy(o: Outcome, c: nat, now: nat) {
      match o
      case Done => c <= now && Smooth(c, now)
      case Failed => c < now && Smooth(c, now - 1) && (Fate(now - 1) == Refused || Fate(now - 1) == Late)
      case Down => c < now && Smooth(c, now - 1) && Fate(now - 1) == Crash
    }

    ghost predicate Told(o: Outcome, c: nat)
      reads this
    {
      ToldBy(o, c, clock)
    }

    /** A predicted crash is the fault that was told. */
    lemma CrashIsTold(o: Outcome, c: nat, now: nat, k: nat)
      requires ToldBy(o, c, now) && CrashAfter(c, k)
      requires o == Done ==> c + k < now
      ensures o == Down && now == c + k + 1
    {
      assert Fate(c + k) == Crash;
    }

    /** A crash predicted for later than the first `n` operations lets those succeed. */
    lemma CrashIsLater(o: Outcome, c: nat, now: nat, n: nat, k: nat)
      requires ToldBy(o, c, now) && CrashAfter(c, n + k) && now <= c + n && (o == Done ==> now == c + n)
      ensures o == Done && CrashAfter(now, k)
    {
      assert Fate(c + (n + k)) == Crash;
    }

    /** The first `k` operations from `c` on succeed, and the next takes effect but is reported as failed. */
    ghost predicate SlipAfter(c: nat, k: nat) {
      Smooth(c, c + k) && Fate(c + k) == Late
    }

    /** A slip predicted for later than the first `n` operations lets those succeed. */
    lemma SlipIsLater(o: Outcome, c: nat, now: nat, n: nat, k: nat)
      requires ToldBy(o, c, now) && SlipAfter(c, n + k) && now <= c + n && (o == Done ==> now == c + n)
      ensures o == Done && now == c + n && SlipAfter(now, k)
    {
      assert Fate(c + (n + k)) == Late;
    }

    /** Two stretches, the second after the first is done, are one. */
    lemma ToldOn(c: nat, m: nat, o: Outcome, now: nat)
      requires ToldBy(Done, c, m) && ToldBy(o, m, now)
      ensures ToldBy(o, c, now)
    {}

    /** One atomic operation that would turn the disk into `next`. */
    method Attempt(next: Disk) returns (o: Outcome)
      modifies this
      ensures clock == old(clock) + 1
      ensures match Fate(old(clock))
              case Fine => o == Done && disk == next
              case Refused => o == Failed && disk == old(disk)
              case Late => o == Failed && disk == next
              case Crash => o == Down && disk == old(disk)
    {
      match Fate(clock) {
        case Fine => disk := next; o := Done;
        case Refused => o := Failed;
        case Late => disk := next; o := Failed;
        case Crash => o := Down;
      }
      clock := clock + 1;
    }

    /** Unlinks the files of a directory, in any order. */
    method EmptyDir(dir: Dir) returns (o: Outcome, ghost left: Inventory)
      requires dir in disk.dirs
      modifies this
      ensures SubMap(left, old(disk).dirs[dir]) && disk == WithDir(old(disk), dir, left)
      ensures Told(o, old(clock)) && clock <= old(clock) + |old(disk).dirs[dir]|
      ensures o == Done ==> left == map[] && clock == old(clock) + |old(disk).dirs[dir]|
      ensures old(Calm()) ==> o == Done
    {
      hide WithDir, SubMap, Trimmed;
      ghost var d, c := disk, clock;
      var files := disk.dirs[dir];
      WholeDir(d, dir);
      while files != map[]
        invariant c <= clock == c + |d.dirs[dir]| - |files| && Smooth(c, clock)
        invariant SubMap(files, d.dirs[dir])
        invariant disk == WithDir(d, dir, files)
        decreases files.Keys
      {
        assert files.Keys != {};
        var q :| q in files.Keys;
        DirShrinks(d, dir, files, q);
        o := Attempt(WithDir(disk, dir, files - {q}));
        assert |files| > 0;
        if o != Done {
          left := if disk == WithDir(d, dir, files) then files else files - {q};
          return;
        }
        files := files - {q};
      }
      o, left := Done, files;
    }

    lemma WholeDir(d: Disk, dir: Dir)
      requires dir in d.dirs
      ensures SubMap(d.dirs[dir], d.dirs[dir]) && WithDir(d, dir, d.dirs[dir]) == d
    {
      DirTrimmed(d, dir, d.dirs[dir]);
    }

    /** Removes a transaction directory file by file, unless it holds a strange file. */
    method RemoveDir(dir: Dir, allowed: set<Path>) returns (o: Outcome)
      modifies this
      ensures clock >= old(clock)
      ensures Trimmed(old(disk), disk, dir)
      ensures o == Done ==> Held(old(disk), dir).Keys <= allowed && disk == WithoutDir(old(disk), dir)
      ensures !(Held(old(disk), dir).Keys <= allowed) ==> o == Failed && disk == old(disk)
      ensures old(Calm()) && Held(old(disk), dir).Keys <= allowed ==> o == Done
      ensures Held(old(disk), dir).Keys <= allowed ==>
        && Told(o, old(clock)) && clock <= old(clock) + DirCost(old(disk), dir)
        && (o == Done ==> clock == old(clock) + DirCost(old(disk), dir))
    {
      hide WithDir, SubMap, Trimmed, WithoutDir, Held, DirCost;
      ghost var d, c := disk, clock;
      HeldIs(d, dir);
      if dir !in disk.dirs {
        return Done;
      }
      if !(disk.dirs[dir].Keys <= allowed) {
        return Failed;
      }
      ghost var left;
      o, left := EmptyDir(dir);
      DirTrimmed(d, dir, left);
      if o == Done {
        o := Attempt(WithoutDir(disk, dir));
      }
    }

    /** Drops the directories and the marker temporary of a finished transaction. */
    method SweepLeftovers(p: Payload) returns (o: Outcome)
      modifies this
      ensures clock >= old(clock)
      ensures PartlySwept(old(disk), disk, p.txn)
      ensures o == Done ==> Sweepable(old(disk), p) && disk == Emptied(old(disk), p.txn)
      ensures !(Held(old(disk), Backup(p.txn)).Keys <= Old(p).Keys) ==> Held(disk, Backup(p.txn)) == Held(old(disk), Backup(p.txn))
      ensures Sweepable(old(disk), p) ==>
        && Told(o, old(clock)) && clock <= old(clock) + SweepCost(old(disk), p.txn)
        && (o == Done ==> clock == old(clock) + SweepCost(old(disk), p.txn))
      ensures old(Calm()) ==> o == if Sweepable(old(disk), p) then Done else Failed
    {
      hide AsMap, DirCost, Smooth, PartlySwept, Trimmed;
      ghost var d, c := disk, clock;
      o := RemoveDir(Stage(p.txn), New(p).Keys);
      TrimmedIsPartlySwept(d, disk, Stage(p.txn));
      StageTrimmed(d, disk, p.txn);
      if o != Done {
        return;
      }
      ghost var e, m := disk, clock;
      o := RemoveDir(Backup(p.txn), Old(p).Keys);
      SweptInTwo(d, e, disk, p.txn);
      if Sweepable(d, p) {
        ToldOn(c, m, o, clock);
      }
      if o != Done {
        return;
      }
      if p.txn in disk.temps {
        ghost var f, n := disk, clock;
        o := Attempt(disk.(temps := disk.temps - {p.txn}));
        TempDropped(d, f, disk, p.txn);
        OneTold(o, n);
        ToldOn(c, n, o, clock);
      }
    }

    lemma OneTold(o: Outcome, c: nat)
      requires match Fate(c) case Fine => o == Done case Refused => o == Failed case Late => o == Failed case Crash => o == Down
      ensures ToldBy(o, c, c + 1)
    {}

    /** Drops what a finished transaction left behind and, last of all, its record. */
    method Cleanup(p: Payload) returns (o: Outcome)
      modifies this
      ensures clock >= old(clock)
      ensures PartlySwept(old(disk), disk, p.txn) || (Sweepable(old(disk), p) && disk == Swept(old(disk), p.txn))
      ensures o == Done ==> Sweepable(old(disk), p) && disk == Swept(old(disk), p.txn)
      ensures o == Down ==> PartlySwept(old(disk), disk, p.txn)
      ensures !(Held(old(disk), Backup(p.txn)).Keys <= Old(p).Keys) ==> Held(disk, Backup(p.txn)) == Held(old(disk), Backup(p.txn))
      ensures o == Failed && disk.record != old(disk).record ==> clock > 0 && Fate(clock - 1) == Late
      ensures o == Done ==> clock > 0 && Fate(clock - 1) == Fine
      ensures o == Down ==> disk.record == old(disk).record
      ensures old(Calm()) ==> o == if Sweepable(old(disk), p) then Done else Failed
      ensures Sweepable(old(disk), p) && SlipAfter(old(clock), SweepCost(old(disk), p.txn)) ==>
        o == Failed && disk == Swept(old(disk), p.txn)
    {
      hide AsMap, SweepCost, ToldBy, SlipAfter, Sweepable;
      ghost var d, c := disk, clock;
      o := SweepLeftovers(p);
      RecordKept(d, disk, p.txn);
      if Sweepable(d, p) && SlipAfter(c, SweepCost(d, p.txn)) {
        SlipIsLater(o, c, clock, SweepCost(d, p.txn), 0);
        SlipsNow(clock);
      }
      if o != Done {
        return;
      }
      o := Attempt(disk.(record := None));
    }

    lemma SlipsNow(c: nat)
      requires SlipAfter(c, 0)
      ensures Fate(c) == Late
    {}

    /** Unlinks every file that only the new inventory names. */
    method DropNew(p: Payload, ghost d: Disk) returns (o: Outcome)
      requires Follows(d, disk, p)
      modifies this
      ensures clock >= old(clock)
      ensures Follows(d, disk, p)
      ensures disk.dest.None? == old(disk).dest.None?
      ensures o == Done ==> forall q :: q in New(p) && q in Files(disk) ==> q in Old(p)
      ensures old(Calm()) ==> o != Down && (Finishable(d) ==> o == Done)
    {
      var todo := New(p).Keys - Old(p).Keys;
      while todo != {}
        invariant clock >= old(clock) && todo <= New(p).Keys - Old(p).Keys
        invariant Follows(d, disk, p)
        invariant disk.dest.None? == old(disk).dest.None?
        invariant forall q :: q in New(p) && q in Files(disk) ==> q in Old(p) || q in todo
        decreases todo
      {
        var q :| q in todo;
        if q in Files(disk) {
          if !Has(New(p), q, Files(disk)[q]) {
            StrangerStrands(disk, p, q);
            return Failed;
          }
          var step := Unlink(p, q, d);
          if step != Done {
            return step;
          }
        }
        todo := todo - {q};
      }
      o := Done;
    }

    /** Puts every old file back from the backup, or finds it in place. */
    method RestoreOld(p: Payload, ghost d: Disk) returns (o: Outcome)
      requires Follows(d, disk, p) && (disk.dest.Some? || Old(p) == map[])
      modifies this
      ensures clock >= old(clock)
      ensures Follows(d, disk, p)
      ensures disk.dest.None? == old(disk).dest.None?
      ensures forall q :: q in Files(disk) ==> q in Files(old(disk)) || q in Old(p)
      ensures o == Done ==> forall q :: q in Old(p) ==> InPlace(disk, p, q)
      ensures old(Calm()) ==> o != Down && (Finishable(d) ==> o == Done)
    {
      hide Follows, AsMap, Finishable, Fits;
      var todo := Old(p).Keys;
      while todo != {}
        invariant clock >= old(clock) && todo <= Old(p).Keys
        invariant Follows(d, disk, p)
        invariant disk.dest.None? == old(disk).dest.None?
        invariant forall q :: q in Files(disk) ==> q in Files(old(disk)) || q in Old(p)
        invariant forall q :: q in Old(p) && q !in todo ==>
          InPlace(disk, p, q)
        decreases todo
      {
        var q :| q in todo;
        o := RestoreOne(p, q, d);
        if o != Done {
          return;
        }
        todo := todo - {q};
      }
      o := Done;
    }

    /** `target.unlink()` on a destination file that holds its recorded new content. */
    method Unlink(p: Payload, q: Path, ghost d: Disk) returns (o: Outcome)
      requires Follows(d, disk, p) && q in Files(disk) && Has(New(p), q, Files(disk)[q])
      requires q in Old(p) ==> Has(Held(disk, Backup(p.txn)), q, Old(p)[q])
      modifies this
      ensures clock >= old(clock)
      ensures Follows(d, disk, p)
      ensures disk == old(disk) || disk == WithFiles(old(disk), Files(old(disk)) - {q})
      ensures OthersKept(old(disk), disk, p, q)
      ensures o == Done ==> disk == WithFiles(old(disk), Files(old(disk)) - {q})
      ensures old(Calm()) ==> o == Done
    {
      UnlinkFollows(d, disk, p, q);
      UnlinkKeepsOthers(disk, p, q);
      o := Attempt(WithFiles(disk, Files(disk) - {q}));
    }

    /** Moves the backup of an old file back to its vacant place. */
    method PutBack(p: Payload, q: Path, ghost d: Disk) returns (o: Outcome)
      requires Follows(d, disk, p) && disk.dest.Some? && q in Old(p) && q !in Files(disk)
      requires Has(Held(disk, Backup(p.txn)), q, Old(p)[q])
      modifies this
      ensures clock >= old(clock)
      ensures Follows(d, disk, p) && disk.dest.Some?
      ensures forall x :: x in Files(disk) ==> x in Files(old(disk)) || x == q
      ensures OthersKept(old(disk), disk, p, q)
      ensures o == Done ==> InPlace(disk, p, q)
      ensures old(Calm()) ==> o == Done
    {
      RestoreFollows(d, disk, p, q);
      RestoreKeepsOthers(disk, p, q);
      o := Attempt(Restored(disk, p, q));
    }

    method RestoreOne(p: Payload, q: Path, ghost d: Disk) returns (o: Outcome)
      requires Follows(d, disk, p) && disk.dest.Some? && q in Old(p)
      modifies this
      ensures clock >= old(clock)
      ensures Follows(d, disk, p) && disk.dest.Some?
      ensures forall x :: x in Files(disk) ==> x in Files(old(disk)) || x == q
      ensures OthersKept(old(disk), disk, p, q)
      ensures o == Done ==> InPlace(disk, p, q)
      ensures old(Calm()) ==> o != Down && (Finishable(d) ==> o == Done)
    {
      var copy := Held(disk, Backup(p.txn));
      if q !in copy {
        if !Has(Files(disk), q, Old(p)[q]) {
          LossStrands(disk, p, q);
          return Failed;
        }
        return Done;
      }
      if copy[q] != Old(p)[q] {
        LossStrands(disk, p, q);
        return Failed;
      }
      if q in Files(disk) {
        if Files(disk)[q] == Old(p)[q] {
          return Done;
        }
        if !Has(New(p), q, Files(disk)[q]) {
          LossStrands(disk, p, q);
          return Failed;
        }
        o := Unlink(p, q, d);
        if o != Done {
          return;
        }
      }
      o := PutBack(p, q, d);
    }

    /** A destination that disappeared is made again when old files must return to it. */
    method EnsureDest(p: Payload) returns (o: Outcome)
      requires Undoing(disk, p)
      modifies this
      ensures clock >= old(clock)
      ensures Follows(old(disk), disk, p)
      ensures o == Done ==> disk.dest.Some? || (Old(p) == map[] && p.created)
      ensures old(Calm()) ==> o != Down && (Finishable(old(disk)) ==> o == Done)
    {
      o := Done;
      if disk.dest.None? {
        if Old(p) != map[] {
          MkdirKeepsFate(disk, p);
          o := Attempt(disk.(dest := Some(Tree(map[], None))));
        } else if !p.created {
          o := Failed;
        }
      }
    }

    /** Verifies the restored destination, or removes the one this transaction had created. */
    method SettleDest(p: Payload, ghost d: Disk) returns (o: Outcome)
      requires Follows(d, disk, p) && (disk.dest.Some? || (Old(p) == map[] && p.created))
      requires forall q :: q in Old(p) ==> InPlace(disk, p, q)
      requires forall q :: q in New(p) && q in Files(disk) ==> q in Old(p)
      modifies this
      ensures clock >= old(clock)
      ensures Follows(d, disk, p)
      ensures o == Done ==> Reinstated(disk, p)
      ensures old(Calm()) ==> o != Down && (Finishable(d) ==> o == Done)
    {
      if Files(disk) != Old(p) {
        StrangerRemains(disk, p);
        return Failed;
      }
      o := Done;
      if Old(p) == map[] && p.created && disk.dest.Some? {
        if disk.dest.value.git.Some? {
          return Failed;
        }
        RmdirKeepsFate(disk, p);
        o := Attempt(disk.(dest := None));
      }
    }

    /** A roll back up to the point where only the transaction's leftovers remain. */
    method Reinstate(p: Payload) returns (o: Outcome)
      requires Undoing(disk, p)
      modifies this
      ensures clock >= old(clock)
      ensures Follows(old(disk), disk, p)
      ensures o == Done ==> Reinstated(disk, p)
      ensures old(Calm()) ==> o != Down && (Finishable(old(disk)) ==> o == Done)
    {
      ghost var d := disk;
      o := EnsureDest(p);
      if o != Done {
        return;
      }
      o := DropNew(p, d);
      if o != Done {
        return;
      }
      o := RestoreOld(p, d);
      if o != Done {
        return;
      }
      o := SettleDest(p, d);
    }

    method Rollback(p: Payload) returns (o: Outcome)
      requires Undoing(disk, p)
      modifies this
      ensures clock >= old(clock)
      ensures o == Done ==> Finishable(old(disk)) && disk == Finish(old(disk))
      ensures Finishable(old(disk)) ==> Finishable(disk) && Finish(disk) == Finish(old(disk))
      ensures FailClosed(old(disk), disk, p)
      ensures disk.record != old(disk).record && o != Done ==> o == Failed && clock > 0 && Fate(clock - 1) == Late
      ensures o == Done ==> clock > 0 && Fate(clock - 1) == Fine
      ensures old(Calm()) ==> o == if Finishable(old(disk)) then Done else Failed
    {
      ghost var d := disk;
      o := Reinstate(p);
      if o != Done {
        GuardedIsFailClosed(d, disk, p);
        return;
      }
      ghost var e := disk;
      ReinstatedIsRestless(e, p);
      o := Cleanup(p);
      if Sweepable(e, p) {
        SweepingKeepsFate(e, disk, p);
      }
      if disk == Swept(e, p.txn) {
        CompleteIsFailClosed(d, e, p);
      } else {
        SweptIsFailClosed(d, e, disk, p);
      }
    }

    lemma NoRecords()
      ensures AsMap([]) == map[] && Distinct([])
    {}

    lemma OneMoreRecord(rs: seq<Record>, i: nat)
      requires i < |rs| && Distinct(rs[..i])
      ensures if rs[i].path in AsMap(rs[..i]) then !Distinct(rs)
        else Distinct(rs[..i + 1]) && AsMap(rs[..i + 1]) == AsMap(rs[..i])[rs[i].path := rs[i].file]
    {
      var done, more := rs[..i], rs[..i + 1];
      assert more[..i] == done;
      if rs[i].path in AsMap(done) {
        var j :| 0 <= j < i && done[j].path == rs[i].path;
        assert rs[j].path == rs[i].path;
      } else {
        NotListed(done, rs[i].path);
        forall j, k | 0 <= j < k < |more| ensures more[j].path != more[k].path {
          assert k < i ==> done[j].path != done[k].path;
          assert k == i ==> done[j].path != rs[i].path;
        }
      }
    }

    method Bounded(rs: seq<Record>) returns (ok: bool)
      ensures ok <==> |rs| <= MAX_FILES && Distinct(rs)
    {
      if |rs| > 2048 {
        return false;
      }
      hide AsMap, Distinct;
      NoRecords();
      var seen := {};
      var i := 0;
      while i < |rs|
        invariant 0 <= i <= |rs| && Distinct(rs[..i]) && seen == AsMap(rs[..i]).Keys
      {
        OneMoreRecord(rs, i);
        if rs[i].path in seen {
          return false;
        }
        seen := seen + {rs[i].path};
        i := i + 1;
      }
      assert rs[..i] == rs;
      return true;
    }

    /** `_load_recovery`: the record's size, then each list's length and its paths, one after another. */
    method Load(p: Payload) returns (ok: bool)
      ensures ok <==> Loadable(p)
    {
      hide AsMap, RecordBytes, Distinct;
      if RecordBytes(p) > 4 * 1024 * 1024 {
        return false;
      }
      ok := Bounded(p.oldFiles);
      if ok {
        ok := Bounded(p.newFiles);
      }
    }

    /** Finishes or undoes what the record says is pending. */
    method Recover() returns (r: Recovery)
      modifies this
      ensures clock >= old(clock)
      ensures r == Nothing <==> old(disk).record.None?
      ensures r == Nothing ==> disk == old(disk) && clock == old(clock)
      ensures r == Committed || r == RolledBack ==> Finishable(old(disk)) && disk == Finish(old(disk))
      ensures Finishable(old(disk)) ==> Finishable(disk) && Finish(disk) == Finish(old(disk))
      ensures disk.record == old(disk).record || (Finishable(old(disk)) && disk == Finish(old(disk)))
      ensures disk.marker == old(disk).marker
      ensures Declined(old(disk)) ==> r == RecoveryRequired && disk == old(disk) && clock == old(clock)
      ensures r == Committed || r == RolledBack ==> clock > 0 && Fate(clock - 1) == Fine
      ensures r == Interrupted ==> disk.record == old(disk).record
      ensures old(disk).record.Some? && old(disk).record.value.Sound? ==>
        var p := old(disk).record.value.payload;
        if old(disk).marker == Some(p.newMarker) then disk.dest == old(disk).dest && r != RolledBack
        else FailClosed(old(disk), disk, p) && r != Committed
      ensures disk.record != old(disk).record && r != Committed && r != RolledBack ==>
        r == RecoveryRequired && clock > 0 && Fate(clock - 1) == Late
      ensures old(Calm()) ==> (r == RecoveryRequired <==> !Finishable(old(disk))) && r != Interrupted
    {
      hide AsMap, PartlySwept, Swept, Sweepable, Smooth, RecordBytes, Fits, Finishable, Finish, FailClosed;
      SettledIsFinished(disk);
      DeclinedIsFinal(disk);
      if disk.record.None? {
        return Nothing;
      }
      if disk.record.value.Malformed? {
        return RecoveryRequired;
      }
      var p := disk.record.value.payload;
      var loads := Load(p);
      if !loads {
        return RecoveryRequired;
      }
      var o;
      if disk.marker == Some(p.newMarker) {
        if disk.dest.None? || Files(disk) != New(p) {
          return RecoveryRequired;
        }
        ghost var d := disk;
        o := Cleanup(p);
        ForwardFate(d, disk, p);
        r := Committed;
      } else if disk.marker != p.oldMarker {
        return RecoveryRequired;
      } else {
        o := Rollback(p);
        r := RolledBack;
      }
      match o {
        case Done =>
        case Failed => r := RecoveryRequired;
        case Down => r := Interrupted;
      }
    }

    // -------------------------------------------------------------- applying a plan

    /** One record per destination file, in any order. */
    method Snapshot(files: Inventory) returns (rs: seq<Record>)
      ensures Distinct(rs) && AsMap(rs) == files
    {
      rs := [];
      var left := files;
      while left != map[]
        invariant Lists(rs, files, left)
        decreases left.Keys
      {
        assert left.Keys != {};
        var q :| q in left.Keys;
        ListOne(rs, files, left, q);
        rs, left := rs + [Record(q, files[q])], left - {q};
      }
      assert files - left.Keys == files;
    }

    /** The old inventory, unless the destination may not be exported to. */
    method ReadInventory() returns (e: Option<Error>, rs: seq<Record>)
      ensures e == Objection(disk)
      ensures e.None? ==> Distinct(rs) && AsMap(rs) == Files(disk)
      ensures e.None? && disk.marker.Some? ==> rs == disk.marker.value.files
    {
      hide AsMap, Distinct;
      if disk.marker.Some? {
        if disk.marker.value.Foreign? || |disk.marker.value.files| > 2048 {
          return Some(DestinationMarker), [];
        }
        if disk.dest.None? {
          return Some(DestinationMarker), [];
        }
        rs := disk.marker.value.files;
        e := Verify(disk.dest.value.files, rs);
        return;
      }
      NoRecords();
      if disk.dest.None? {
        return None, [];
      }
      var tree := disk.dest.value;
      if tree.files == map[] && tree.git.None? {
        return None, [];
      }
      if tree.git.None? {
        return Some(DestinationUnmanaged), [];
      }
      if tree.git.value != tree.files {
        return Some(DestinationDirty), [];
      }
      rs := Snapshot(tree.files);
      e := None;
    }

    /** `_verify_inventory`: the records as a dictionary, no path twice, against what is there. */
    method Verify(actual: Inventory, rs: seq<Record>) returns (e: Option<Error>)
      ensures e == if !Distinct(rs) then Some(DestinationMarker) else if actual != AsMap(rs) then Some(DestinationDirty) else None
    {
      hide AsMap, Distinct;
      NoRecords();
      var expected: Inventory := map[];
      var i := 0;
      while i < |rs|
        invariant 0 <= i <= |rs| && Distinct(rs[..i]) && expected == AsMap(rs[..i])
      {
        OneMoreRecord(rs, i);
        if rs[i].path in expected {
          return Some(DestinationMarker);
        }
        expected := expected[rs[i].path := rs[i].file];
        i := i + 1;
      }
      assert rs[..i] == rs;
      e := if actual != expected then Some(DestinationDirty) else None;
    }

    /** Writes the new files to a fresh staging directory, in plan order. */
    method WriteStage(files: seq<Record>, t: Txn) returns (o: Outcome)
      modifies this
      ensures Trimmed(disk, old(disk), Stage(t))
      ensures o == Done ==> Stage(t) !in old(disk).dirs && disk == WithDir(old(disk), Stage(t), AsMap(files))
      ensures if Stage(t) in old(disk).dirs then o == Failed && clock == old(clock) else Told(o, old(clock))
      ensures clock <= old(clock) + |files| + 1 && (o == Done ==> clock == old(clock) + |files| + 1)
    {
      ghost var d, c := disk, clock;
      if Stage(t) in disk.dirs {
        return Failed;
      }
      WriteStart(d, t);
      o := Attempt(WithDir(disk, Stage(t), map[]));
      if o != Done {
        return;
      }
      var i := 0;
      while i < |files|
        invariant i <= |files| && clock == c + i + 1 && o == Done && Smooth(c, clock)
        invariant disk == WithDir(d, Stage(t), AsMap(files[..i]))
      {
        o := WriteOne(d, t, files, i);
        if o != Done {
          return;
        }
        i := i + 1;
      }
      assert files[..i] == files;
    }

    method WriteOne(ghost d: Disk, t: Txn, files: seq<Record>, i: nat) returns (o: Outcome)
      requires i < |files| && Stage(t) !in d.dirs && disk == WithDir(d, Stage(t), AsMap(files[..i]))
      modifies this
      ensures clock == old(clock) + 1 && Told(o, old(clock))
      ensures Trimmed(disk, d, Stage(t))
      ensures o == Done ==> disk == WithDir(d, Stage(t), AsMap(files[..i + 1]))
    {
      WriteStep(d, t, files, i);
      WriteStart(d, t);
      o := Attempt(WithDir(disk, Stage(t), AsMap(files[..i])[files[i].path := files[i].file]));
      assert WithoutDir(disk, Stage(t)) == d;
    }

    /** Moves old file `q` to the backup. */
    method MoveOne(ghost d: Disk, r: Payload, ghost moved: set<Path>, q: Path) returns (o: Outcome, ghost now: set<Path>)
      requires disk == Moving(d, r, moved) && q in Old(r) && q !in moved
      modifies this
      ensures clock == old(clock) + 1 && Told(o, old(clock))
      ensures disk == Moving(d, r, now)
      ensures now == moved || now == moved + {q}
      ensures o == Done ==> now == moved + {q}
      ensures o == Down ==> now == moved
    {
      hide Moving, AsMap, Old, Moved;
      MoveStep(d, r, moved, q);
      var next := Moved(disk, r, q);
      o := Attempt(next);
      now := if disk == next then moved + {q} else moved;
    }

    /** Moves every old file to the backup, in any order; `moved` are those that were moved. */
    method MoveOut(ghost d: Disk, r: Payload, paths: set<Path>) returns (o: Outcome, ghost moved: set<Path>)
      requires disk == Moving(d, r, {}) && paths == Old(r).Keys
      modifies this
      ensures moved <= paths && disk == Moving(d, r, moved)
      ensures Told(o, old(clock))
      ensures o == Done ==> moved == paths && clock == old(clock) + |moved|
      ensures o == Down ==> clock == old(clock) + |moved| + 1
      ensures clock <= old(clock) + |paths|
    {
      hide Moving, AsMap, Old, New;
      var todo := paths;
      moved, o := {}, Done;
      while todo != {}
        invariant todo == paths - moved && moved <= paths
        invariant |moved| + |todo| == |paths|
        invariant disk == Moving(d, r, moved)
        invariant clock == old(clock) + |moved| && Smooth(old(clock), clock) && o == Done
        decreases todo
      {
        var q :| q in todo;
        o, moved := MoveOne(d, r, moved, q);
        if o != Done {
          return;
        }
        todo := todo - {q};
      }
    }

    /** Moves one staged file in, unless something already stands in its place. */
    method InstallOne(ghost d: Disk, r: Payload, ghost done: set<Path>, q: Path) returns (o: Outcome, ghost now: set<Path>)
      requires disk == Installing(d, r, done) && q in New(r) && q !in done
      modifies this
      ensures clock == old(clock) + 1 && Told(o, old(clock))
      ensures disk == Installing(d, r, now)
      ensures now == done || now == done + {q}
      ensures o == Done ==> now == done + {q}
      ensures o == Down ==> now == done
    {
      hide Installing, Installed, AsMap, New, Held, Files;
      InstallStep(d, r, done, q);
      if q in Files(disk) {
        return Failed, done;
      }
      var next := Installed(disk, r, q);
      o := Attempt(next);
      now := if disk == next then done + {q} else done;
    }

    /** Moves every staged file in, in plan order. */
    method InstallAll(ghost d: Disk, r: Payload) returns (o: Outcome, ghost done: set<Path>)
      requires disk == Installing(d, r, {}) && Distinct(r.newFiles)
      modifies this
      ensures done <= New(r).Keys && disk == Installing(d, r, done)
      ensures Told(o, old(clock))
      ensures clock <= old(clock) + |r.newFiles|
      ensures o == Done ==> done == New(r).Keys && clock == old(clock) + |r.newFiles|
      ensures o == Down ==> clock == old(clock) + |done| + 1
    {
      hide Installing, AsMap;
      var i := 0;
      o, done := Done, {};
      while i < |r.newFiles|
        invariant i <= |r.newFiles|
        invariant done == PathsOf(r.newFiles[..i]) && done <= New(r).Keys
        invariant disk == Installing(d, r, done)
        invariant Told(o, old(clock)) && o == Done && clock == old(clock) + i && |done| == i
      {
        NextPath(r.newFiles, i);
        ghost var c := clock;
        o, done := InstallOne(d, r, done, r.newFiles[i].path);
        if o != Done {
          return;
        }
        i := i + 1;
      }
      AllPaths(r.newFiles, i);
    }

    /** Writes the new marker beside the old one and replaces it: the commit. */
    method Commit(ghost d: Disk, ghost plan: Plan, r: Payload) returns (o: Outcome)
      requires Starts(d, plan, r) && disk == Installing(d, r, New(r).Keys)
      modifies this
      ensures clock >= old(clock)
      ensures disk == Installing(d, r, New(r).Keys) || disk == MarkerWritten(d, r) || disk == MarkerSet(d, r)
      ensures o == Done ==> disk == MarkerSet(d, r)
      ensures r.txn !in d.temps ==> Told(o, old(clock)) && clock <= old(clock) + 2 && (o == Done ==> clock == old(clock) + 2)
      ensures r.txn in d.temps ==> o == Failed && disk == old(disk) && clock == old(clock)
      ensures old(Calm()) && r.txn !in d.temps ==> o == Done
    {
      hide AsMap, Restrict;
      if r.txn in disk.temps {
        return Failed;
      }
      o := Attempt(disk.(temps := disk.temps[r.txn := r.newMarker]));
      if o != Done {
        return;
      }
      assert d.temps[r.txn := r.newMarker] - {r.txn} == d.temps - {r.txn};
      o := Attempt(disk.(temps := disk.temps - {r.txn}, marker := Some(r.newMarker)));
    }

    /** Makes the destination of a first export. */
    method MakeDest(ghost d: Disk, ghost plan: Plan, r: Payload) returns (o: Outcome)
      requires Starts(d, plan, r) && disk == Begun(d, r)
      modifies this
      ensures disk == Begun(d, r) || disk == Moving(d, r, {})
      ensures o == Done ==> disk == Moving(d, r, {})
      ensures Told(o, old(clock)) && clock <= old(clock) + (if d.dest.None? then 1 else 0)
      ensures o == Done ==> clock == old(clock) + if d.dest.None? then 1 else 0
      ensures d.dest.Some? ==> o == Done
    {
      BegunIsMoving(d, plan, r);
      hide AsMap, Restrict, Moving;
      o := Done;
      if disk.dest.None? {
        o := Attempt(disk.(dest := Some(Tree(map[], None))));
      }
    }

    /** Moves the old files out of the destination. */
    method ClearOut(ghost d: Disk, ghost plan: Plan, r: Payload) returns (o: Outcome)
      requires Starts(d, plan, r) && disk == Begun(d, r)
      modifies this
      ensures Uncommitted(d, r, disk)
      ensures o == Done ==> disk == Installing(d, r, {})
      ensures Told(o, old(clock))
      ensures var n := (if d.dest.None? then 1 else 0) + |Old(r).Keys|;
        clock <= old(clock) + n && (o == Done ==> clock == old(clock) + n)
      ensures d.dest.Some? ==> forall k: nat :: k < |Old(r).Keys| && CrashAfter(old(clock), k) ==>
        o == Down && PartlyMoved(d, r, disk, k)
    {
      hide Moving, Installing, AsMap, Starts, Uncommitted, Begun, PartlyMoved;
      BegunIsUncommitted(d, r);
      MovingIsUncommitted(d, r, {}, 0);
      AllMovedIsInstalling(d, r);
      ghost var c := clock;
      o := MakeDest(d, plan, r);
      ghost var moved := {};
      if o == Done {
        o, moved := MoveOut(d, r, Old(r).Keys);
        MovingIsUncommitted(d, r, moved, |moved|);
      }
      forall k: nat | d.dest.Some? && k < |Old(r).Keys| && CrashAfter(c, k)
        ensures o == Down && PartlyMoved(d, r, disk, k)
      {
        CrashIsTold(o, c, clock, k);
      }
    }

    /** Moves the old files out and the new files in. */
    method Exchange(ghost d: Disk, ghost plan: Plan, r: Payload) returns (o: Outcome)
      requires Starts(d, plan, r) && disk == Begun(d, r)
      modifies this
      ensures clock >= old(clock)
      ensures Uncommitted(d, r, disk)
      ensures o == Done ==> disk == Installing(d, r, New(r).Keys)
      ensures Told(o, old(clock))
      ensures clock <= old(clock) + ExchangeCost(d, r) && (o == Done ==> clock == old(clock) + ExchangeCost(d, r))
      ensures d.dest.Some? ==> forall k: nat :: Reached(Files(d), plan, k) && CrashAfter(old(clock), k) ==>
        o == Down && PartlyMoved(d, r, disk, k)
    {
      hide Installing, AsMap, Uncommitted, Begun, PartlyMoved;
      ghost var c := clock;
      assert |Old(r).Keys| == |Files(d)|;
      o := ClearOut(d, plan, r);
      if o != Done {
        if d.dest.Some? && CrashAfter(c, |Old(r).Keys|) {
          CrashIsTold(o, c, clock, |Old(r).Keys|);
        }
        return;
      }
      ghost var done;
      o, done := InstallAll(d, r);
      InstallingIsUncommitted(d, r, done);
      if d.dest.Some? && r.newFiles != [] && CrashAfter(c, |Old(r).Keys|) {
        CrashIsTold(o, c, clock, |Old(r).Keys|);
        AllMovedIsInstalling(d, r);
        MovingIsUncommitted(d, r, Old(r).Keys, |Old(r).Keys|);
      }
    }

    /** From the installed files on: verify, commit, verify, clean up. */
    method CommitAndSweep(ghost d: Disk, ghost plan: Plan, r: Payload) returns (o: Outcome)
      requires Starts(d, plan, r) && disk == Installing(d, r, New(r).Keys)
      modifies this
      ensures clock >= old(clock)
      ensures Midway(d, r, disk)
      ensures o == Done ==> disk == Swept(MarkerSet(d, r), r.txn) && clock > 0 && Fate(clock - 1) == Fine
      ensures o == Down ==> disk.record.Some?
      ensures disk.record.None? && o != Done ==> o == Failed && clock > 0 && Fate(clock - 1) == Late
      ensures old(Calm()) ==> o == if r.txn in d.temps then Failed else Done
      ensures old(Calm()) && o == Failed ==> disk == Installing(d, r, New(r).Keys)
      ensures r.txn !in d.temps && SlipAfter(old(clock), 2 + |Old(r).Keys| + 2) ==>
        o == Failed && disk == Swept(MarkerSet(d, r), r.txn)
    {
      hide Installing, AsMap, MarkerSet, Sweepable, SweepCost, SlipAfter, MarkerWritten, PartlySwept, ToldBy, Swept,
        Starts, RecordSize;
      MarkerSetIsSweepable(d, plan, r);
      MarkerSetCost(d, r);
      AllInstalled(d, r);
      MarkingIsMidway(d, r);
      ghost var c := clock;
      if Files(disk) != New(r) {
        return Failed;
      }
      o := Commit(d, plan, r);
      if r.txn !in d.temps && SlipAfter(c, 2 + |Old(r).Keys| + 2) {
        SlipIsLater(o, c, clock, 2, |Old(r).Keys| + 2);
      }
      if o != Done {
        return;
      }
      if Files(disk) != New(r) {
        return Failed;
      }
      o := Cleanup(r);
      RecordGoes(d, r, disk);
    }

    /** Everything between the published record and its removal. */
    method Transact(ghost d: Disk, ghost plan: Plan, r: Payload) returns (o: Outcome)
      requires Starts(d, plan, r) && disk == Begun(d, r)
      modifies this
      ensures clock >= old(clock)
      ensures Midway(d, r, disk)
      ensures o == Done ==> disk == Swept(MarkerSet(d, r), r.txn) && clock > 0 && Fate(clock - 1) == Fine
      ensures o == Down ==> disk.record.Some?
      ensures disk.record.None? && o != Done ==> o == Failed && clock > 0 && Fate(clock - 1) == Late
      ensures old(Calm()) ==> o == if r.txn in d.temps then Failed else Done
      ensures old(Calm()) && o == Failed ==> disk == Installing(d, r, New(r).Keys)
      ensures d.dest.Some? ==> forall k: nat :: Reached(Files(d), plan, k) && CrashAfter(old(clock), k) ==>
        o == Down && PartlyMoved(d, r, disk, k)
      ensures r.txn !in d.temps && SlipAfter(old(clock), TransactCost(d, r)) ==>
        o == Failed && disk == Swept(MarkerSet(d, r), r.txn)
    {
      hide Installing, AsMap, Uncommitted, Begun, PartlyMoved, PartlySwept, MarkerSet, SlipAfter, ExchangeCost, Swept, Starts;
      ghost var c := clock;
      o := Exchange(d, plan, r);
      if SlipAfter(c, TransactCost(d, r)) {
        SlipIsLater(o, c, clock, ExchangeCost(d, r), 2 + |Old(r).Keys| + 2);
      }
      if o != Done {
        UncommittedMarker(d, r, disk);
        return;
      }
      o := CommitAndSweep(d, plan, r);
    }

    /** The directories of a new transaction: the staged files and an empty backup. */
    method Prepare(plan: Plan, t: Txn) returns (o: Outcome, code: Error)
      requires disk.record.None?
      modifies this
      ensures clock >= old(clock)
      ensures disk.record.None? && Settled(disk) == Settled(old(disk))
      ensures o == Done ==>
        Clear(old(disk), plan, t) && disk == Prepared(old(disk), plan, t) && clock == old(clock) + |plan.files| + 2
      ensures Clear(old(disk), plan, t) ==> Told(o, old(clock)) && clock <= old(clock) + |plan.files| + 2
      ensures old(Calm()) ==> o != Down
    {
      hide AsMap;
      code := FilesystemError;
      o := WriteStage(plan.files, t);
      if o != Done {
        return;
      }
      if !Distinct(plan.files) {
        return Failed, DestinationMarker;
      }
      if Backup(t) in disk.dirs {
        return Failed, FilesystemError;
      }
      o := Attempt(WithDir(disk, Backup(t), map[]));
    }

    /** Publishes the record of a new transaction, when it is not too large to be written. */
    method Publish(plan: Plan, t: Txn, rs: seq<Record>) returns (o: Outcome, code: Error)
      requires disk.record.None? && Distinct(rs) && AsMap(rs) == Files(disk)
      modifies this
      ensures clock >= old(clock)
      ensures o == Done ==>
        Publishable(old(disk), plan, t) && disk == Begun(old(disk), PayloadOf(old(disk), plan, t, rs))
        && clock == old(clock) + |plan.files| + 3
      ensures o != Done ==>
        || (disk.record.None? && Settled(disk) == Settled(old(disk)))
        || (Publishable(old(disk), plan, t) && disk == Begun(old(disk), PayloadOf(old(disk), plan, t, rs)))
      ensures Publishable(old(disk), plan, t) ==> Told(o, old(clock)) && clock <= old(clock) + |plan.files| + 3
      ensures Clear(old(disk), plan, t) && !Publishable(old(disk), plan, t) ==>
        Smooth(old(clock), old(clock) + |plan.files| + 2) ==> o == Failed && code == RecordTooLarge
      ensures old(Calm()) ==> o != Down
    {
      hide AsMap, Settled, Clear, RecordSize, RecordBytes, Smooth, ToldBy, Prepared, Begun;
      ghost var d, c := disk, clock;
      RecordSizeIs(d, plan, t, rs);
      var r := PayloadOf(disk, plan, t, rs);
      o, code := Prepare(plan, t);
      if Clear(d, plan, t) && Smooth(c, c + |plan.files| + 2) {
        SmoothIsDone(o, c, clock, |plan.files| + 2);
      }
      if o != Done {
        return;
      }
      if RecordBytes(r) > MAX_RECORD_BYTES {
        return Failed, RecordTooLarge;
      }
      PreparedIsBegun(d, plan, r);
      ghost var m := clock;
      o := Attempt(disk.(record := Some(Sound(r))));
      OneTold(o, m);
      ToldOn(c, m, o, clock);
    }

    /**
     What an apply to the settled disk `d` may leave: its plan if it returns normally, and otherwise, when
     the plan is `Ready`, the old state or the plan, recoverable.  With the record gone and the plan shown
     it raises exactly when its last operation took effect and was reported as failed.
     */
    ghost predicate Settles(d: Disk, plan: Plan, e: Disk, v: Verdict, now: nat) {
      && (v == Applied ==> e.record.None? && Settled(e) == Target(d, plan))
      && (Ready(d, plan) ==> Finishable(e) && (Settled(e) == Settled(d) || Settled(e) == Target(d, plan)))
      && (Ready(d, plan) && e.record.None? && Settled(e) != Settled(d) ==>
            v != PoweredOff && (v.Raised? <==> now > 0 && Fate(now - 1) == Late))
    }

    /** The fates that decide the run of a published record, from operation `m` on. */
    ghost predicate RunTold(d: Disk, plan: Plan, r: Payload, m: nat, e: Disk, v: Verdict) {
      && (d.dest.Some? ==> forall k: nat :: Reached(Files(d), plan, k) && CrashAfter(m, k) ==>
            v == PoweredOff && PartlyMoved(d, r, e, k))
      && (r.txn !in d.temps && SlipAfter(m, TransactCost(d, r)) ==>
            v == Raised(FilesystemError) && e.record.None? && Settled(e) == Target(d, plan))
    }

    /** The fates that decide an apply of `plan` to the settled disk `d`. */
    ghost predicate Foretold(d: Disk, plan: Plan, t: Txn, c: nat, e: Disk, v: Verdict) {
      && (Strandable(d, plan, t) ==> forall k: nat :: Reached(Files(d), plan, k) && SoonCrash(c, |plan.files| + 3, k) ==>
            v == PoweredOff && StoppedMoving(d, plan, e, k))
      && (Startable(d, plan, t) && t !in d.temps && SlipAfter(c, UnlinkAt(d, plan)) ==>
            v == Raised(FilesystemError) && e.record.None? && Settled(e) == Target(d, plan))
      && (Oversize(d, plan, t) && Smooth(c, c + |plan.files| + 3) ==>
            v == Raised(RecoveryNeeded) && Declined(e) && e.dest == d.dest && e.marker == d.marker)
      && (TooLarge(d, plan, t) ==> Refusal(d, plan, c, e, v))
    }

    /** No record is left, the same is shown, and with no fault before the record the reason given is its size. */
    ghost predicate Refusal(d: Disk, plan: Plan, c: nat, e: Disk, v: Verdict) {
      && v != Applied && e.record.None? && Settled(e) == Settled(d)
      && (Smooth(c, c + |plan.files| + 2) ==> v == Raised(RecordTooLarge))
    }

    /** Runs a published transaction; an error inside it is answered by recovery. */
    method RunPublished(ghost d: Disk, ghost plan: Plan, r: Payload) returns (v: Verdict)
      requires Starts(d, plan, r) && disk == Begun(d, r) && |r.oldFiles| <= MAX_FILES && |r.newFiles| <= MAX_FILES
      modifies this
      ensures clock >= old(clock)
      ensures Settles(d, plan, disk, v, clock)
      ensures old(Calm()) ==> v != PoweredOff && (v == Applied <==> r.txn !in d.temps || d.marker == Some(r.newMarker))
      ensures RunTold(d, plan, r, old(clock), disk, v)
    {
      hide AsMap, Installing, Midway, PartlyMoved, Uncommitted, Begun, Finishable, MarkerSet, Recoverable, Ready, Finish, Starts,
        SlipAfter, TransactCost, Target, Smooth, Swept, FailClosed, Declined, CrashAfter;
      InstalledFate(d, plan, r);
      SweptIsTarget(d, plan, r);
      var o := Transact(d, plan, r);
      MidwayFate(d, plan, r, disk);
      FinishedIsSettled(disk);
      match o {
        case Done => v := Applied;
        case Down => v := PoweredOff;
        case Failed =>
          var again := Recover();
          match again {
            case Committed => v := Applied;
            case RecoveryRequired => v := Raised(RecoveryNeeded);
            case Interrupted => v := PoweredOff;
            case RolledBack => v := Raised(FilesystemError);
            case Nothing => v := Raised(FilesystemError);
          }
      }
    }

    ghost predicate SoonCrash(c: nat, n: nat, k: nat) {
      CrashAfter(c, n + k)
    }

    /** What is known of a transaction's record and of how its publication ended. */
    ghost predicate Published(d: Disk, plan: Plan, t: Txn, r: Payload, c: nat, o: Outcome, m: nat) {
      && r.txn == t && r.newFiles == plan.files && r.newMarker == MarkerOf(plan)
      && (Publishable(d, plan, t) ==> Starts(d, plan, r) && ToldBy(o, c, m) && m <= c + |plan.files| + 3)
      && (o == Done ==> Publishable(d, plan, t) && m == c + |plan.files| + 3)
    }

    lemma ForetellCrash(d: Disk, plan: Plan, t: Txn, r: Payload, c: nat, o: Outcome, m: nat, e: Disk, v: Verdict, k: nat)
      requires Published(d, plan, t, r, c, o, m) && |r.oldFiles| == |Files(d)|
      requires o == Done && |Files(d)| <= MAX_FILES && |plan.files| <= MAX_FILES ==> RunTold(d, plan, r, m, e, v)
      requires Strandable(d, plan, t) && Reached(Files(d), plan, k) && SoonCrash(c, |plan.files| + 3, k)
      ensures v == PoweredOff && StoppedMoving(d, plan, e, k)
    {
      hide PartlyMoved, Starts, Smooth, ToldBy, CrashAfter, SlipAfter, Objection, Reached, Publishable;
      CrashIsLater(o, c, m, |plan.files| + 3, k);
      assert Starts(d, plan, r) && PartlyMoved(d, r, e, k);
    }

    lemma Foretell(d: Disk, plan: Plan, t: Txn, r: Payload, c: nat, o: Outcome, m: nat, e: Disk, v: Verdict)
      requires Published(d, plan, t, r, c, o, m) && |r.oldFiles| == |Files(d)|
      requires o == Done && |Files(d)| <= MAX_FILES && |plan.files| <= MAX_FILES ==> RunTold(d, plan, r, m, e, v)
      requires o == Done && !(|Files(d)| <= MAX_FILES && |plan.files| <= MAX_FILES) ==>
        v == Raised(RecoveryNeeded) && e == Begun(d, r)
      requires TooLarge(d, plan, t) ==> Refusal(d, plan, c, e, v)
      ensures Foretold(d, plan, t, c, e, v)
    {
      hide TooLarge, Refusal, Starts, Smooth, ToldBy, SlipAfter, CrashAfter, Objection, Reached, SoonCrash, StoppedMoving, UnlinkAt, TransactCost,
        Begun, Declined, Publishable, Settled, Target, PartlyMoved;
      forall k: nat | Strandable(d, plan, t) && Reached(Files(d), plan, k) && SoonCrash(c, |plan.files| + 3, k)
        ensures v == PoweredOff && StoppedMoving(d, plan, e, k)
      {
        ForetellCrash(d, plan, t, r, c, o, m, e, v, k);
      }
      if Startable(d, plan, t) && t !in d.temps && SlipAfter(c, UnlinkAt(d, plan)) {
        UnlinkAtIs(d, plan, r);
        SlipIsLater(o, c, m, |plan.files| + 3, TransactCost(d, r));
      }
      if Oversize(d, plan, t) && Smooth(c, c + |plan.files| + 3) {
        SmoothIsDone(o, c, m, |plan.files| + 3);
        OversizeIsDeclined(d, plan, r);
      }
    }

    /** An apply that ends before its record runs has settled nothing. */
    lemma Unrun(d: Disk, plan: Plan, r: Payload, e: Disk, v: Verdict, now: nat)
      requires v != Applied && d.record.None?
      requires (e.record.None? && Settled(e) == Settled(d)) || (e == Begun(d, r) && e.record.Some?)
      requires e.record.Some? && Ready(d, plan) ==> Finishable(e) && Settled(e) == Settled(d)
      ensures Settles(d, plan, e, v, now)
    {
      hide Settled, Ready, Begun, Target;
    }

    /** Publishes the transaction for a destination whose files are `rs`, and runs it. */
    method PublishAndRun(plan: Plan, t: Txn, rs: seq<Record>) returns (v: Verdict)
      requires disk.record.None? && Objection(disk).None?
      requires Distinct(rs) && AsMap(rs) == Files(disk) && (disk.marker.Some? ==> rs == disk.marker.value.files)
      modifies this
      ensures clock >= old(clock)
      ensures Settles(old(disk), plan, disk, v, clock)
      ensures old(Calm()) ==> v != PoweredOff && (v == Applied <==> Startable(old(disk), plan, t))
      ensures Foretold(old(disk), plan, t, old(clock), disk, v)
    {
      hide AsMap, Begun, Finishable, Settled, Ready, Objection, Smooth, ToldBy, Starts, Distinct, Settles, Foretold, RunTold, Publishable, Clear,
        RecordSize, RecordBytes;
      ghost var d, c := disk, clock;
      NotTooLarge(d, plan, t);
      RecordsCount(d, plan, t, rs);
      var r := PayloadOf(disk, plan, t, rs);
      var o, code := Publish(plan, t, rs);
      ghost var m := clock;
      if CalmFrom(c) && Publishable(d, plan, t) {
        CalmIsDone(o, c, m);
      }
      if o != Done {
        v := if o == Down then PoweredOff else Raised(code);
        Unrun(d, plan, r, disk, v, clock);
      } else if |rs| > MAX_FILES || |plan.files| > MAX_FILES {
        v := Raised(RecoveryNeeded);
        Unrun(d, plan, r, disk, v, clock);
      } else {
        v := RunPublished(d, plan, r);
      }
      Foretell(d, plan, t, r, c, o, m, disk, v);
    }

    lemma NotTooLarge(d: Disk, plan: Plan, t: Txn)
      requires Objection(d).None?
      ensures TooLarge(d, plan, t) <==> Clear(d, plan, t) && !Publishable(d, plan, t)
    {
      hide Objection, Clear, RecordSize;
    }

    lemma SmoothIsDone(o: Outcome, c: nat, now: nat, n: nat)
      requires ToldBy(o, c, now) && Smooth(c, c + n) && now <= c + n
      ensures o == Done
    {
      assert c < now ==> Fate(now - 1) == Fine;
    }

    lemma CalmIsDone(o: Outcome, c: nat, now: nat)
      requires ToldBy(o, c, now) && CalmFrom(c)
      ensures o == Done
    {}

    /** One apply to a destination with nothing pending. */
    method ApplySettled(plan: Plan, t: Txn) returns (v: Verdict)
      requires disk.record.None?
      modifies this
      ensures clock >= old(clock)
      ensures Settles(old(disk), plan, disk, v, clock)
      ensures old(Calm()) ==> v != PoweredOff && (v == Applied <==> Startable(old(disk), plan, t))
      ensures Foretold(old(disk), plan, t, old(clock), disk, v)
      ensures Objection(old(disk)).Some? ==> v == Raised(Objection(old(disk)).value) && disk == old(disk)
    {
      var objection, rs := ReadInventory();
      if objection.Some? {
        hide AsMap, Finishable, Finish, Target, Settled, Ready, Objection;
        NothingPending();
        return Raised(objection.value);
      }
      hide *;
      v := PublishAndRun(plan, t, rs);
    }

    /** `apply_plan`: recovers what an earlier run left, then applies its own plan. */
    method Apply(plan: Plan, t: Txn) returns (v: Verdict)
      modifies this
      ensures clock >= old(clock)
      ensures v == Applied ==> Finishable(old(disk)) && disk.record.None? && Settled(disk) == Target(Finish(old(disk)), plan)
      ensures Finishable(old(disk)) && Ready(Finish(old(disk)), plan) ==>
        Finishable(disk) && (Settled(disk) == Settled(old(disk)) || Settled(disk) == Target(Finish(old(disk)), plan))
      ensures Finishable(old(disk)) && Ready(Finish(old(disk)), plan) && disk.record.None? && Settled(disk) != Settled(old(disk)) ==>
        v != PoweredOff && (v.Raised? <==> clock > 0 && Fate(clock - 1) == Late)
      ensures old(Calm()) ==> v != PoweredOff
      ensures old(Calm()) ==> (v == Applied <==> Finishable(old(disk)) && Startable(Finish(old(disk)), plan, t))
      ensures Declined(old(disk)) ==> v == Raised(RecoveryNeeded) && disk == old(disk)
      ensures Finishable(old(disk)) && TooLarge(Finish(old(disk)), plan, t) ==>
        v != Applied && Finishable(disk) && Settled(disk) == Settled(old(disk))
      ensures old(disk).record.None? ==> Foretold(old(disk), plan, t, old(clock), disk, v)
      ensures old(disk).record.None? && Objection(old(disk)).Some? ==>
        v == Raised(Objection(old(disk)).value) && disk == old(disk)
    {
      hide Objection, Finishable, Finish, Target, Ready, Startable, Strandable, StoppedMoving, AsMap, Foretold, Declined, TooLarge;
      FinishedIsSettled(disk);
      var first := Recover();
      if first == RecoveryRequired {
        return Raised(RecoveryNeeded);
      }
      if first == Interrupted {
        return PoweredOff;
      }
      SettledIsFinished(disk);
      ghost var d, c := disk, clock;
      v := ApplySettled(plan, t);
      if TooLarge(d, plan, t) {
        NothingLeft(d, plan, t, c, disk, v);
      }
    }

    lemma NothingLeft(d: Disk, plan: Plan, t: Txn, c: nat, e: Disk, v: Verdict)
      requires Foretold(d, plan, t, c, e, v) && TooLarge(d, plan, t)
      ensures v != Applied && Finishable(e) && Settled(e) == Settled(d)
    {
      hide TooLarge, Strandable, Startable, Oversize, Settled;
      NothingPending();
    }

    /**
     An identical plan, and power going once `k` old files have moved: from then on every recovery and
     every apply, of any plan and whatever its faults, raises and changes nothing.
     */
    method ReapplyStrands(plan: Plan, t: Txn, k: nat, later: Plan, u: Txn) returns (v: Verdict, after: Verdict)
      requires disk.record.None? && Strandable(disk, plan, t) && disk.marker == Some(MarkerOf(plan))
      requires 0 < k && Reached(Files(disk), plan, k) && SoonCrash(clock, |plan.files| + 3, k)
      modifies this
      ensures v == PoweredOff && after == Raised(RecoveryNeeded)
      ensures Stranded(disk) && Declined(disk) && Files(disk) != Files(old(disk))
    {
      hide Finishable, Finish, Target, Ready, Startable, StoppedMoving, AsMap, Stranded, Declined, Settles, Strandable;
      ghost var d := disk;
      v := Apply(plan, t);
      StoppedFate(d, plan, disk, k);
      StrandedIsDeclined(disk);
      after := Apply(later, u);
    }

    /**
     More files than a record may hold: the apply publishes a record that never loads, and from then on
     every recovery and every apply raises and changes nothing.  The destination is as it was.
     */
    method OversizeStrands(plan: Plan, t: Txn, later: Plan, u: Txn) returns (v: Verdict, after: Verdict)
      requires disk.record.None? && Oversize(disk, plan, t) && Smooth(clock, clock + |plan.files| + 3)
      modifies this
      ensures v == Raised(RecoveryNeeded) && after == Raised(RecoveryNeeded)
      ensures Declined(disk) && disk.dest == old(disk).dest && disk.marker == old(disk).marker
    {
      hide Finishable, Finish, Target, Ready, Startable, StoppedMoving, AsMap, Declined, Settles, Oversize, Smooth;
      v := Apply(plan, t);
      after := Apply(later, u);
    }
  }

  /**
   The unlink of the record takes effect and is reported as failed: the apply raises although the plan is
   installed and no record is left.  Any plan that could be applied gives such a run.
   */
  method CommittedYetRaised(d: Disk, plan: Plan, t: Txn) returns (h: Host, v: Verdict)
    requires d.record.None? && Startable(d, plan, t) && t !in d.temps
    ensures fresh(h) && v == Raised(FilesystemError)
    ensures h.disk.record.None? && Settled(h.disk) == Target(d, plan)
  {
    var n := UnlinkAt(d, plan);
    h := new Host(d, i => if i == n then Late else Fine);
    hide Startable, Target, Settled, UnlinkAt, Ready, Finishable, Finish, Declined;
    v := h.Apply(plan, t);
  }

  datatype Job = Job(plan: Plan, txn: Txn)

  /** What the destination shows: its files and its marker. */
  datatype Shown = Shown(files: Option<Inventory>, marker: Option<Marker>)

  function Show(v: Visible): Shown {
    Shown(if v.dest.Some? then Some(v.dest.value.files) else None, v.marker)
  }

  function ShowPlan(plan: Plan): Shown {
    Shown(Some(AsMap(plan.files)), Some(MarkerOf(plan)))
  }

  /**
   Any number of applies, each of which may crash or fail anywhere, in its own recovery too.  A plan
   already shown is not applied again.  Job `w` is the last that committed, `last` the last that
   returned normally (-1 for neither).
   */
  method Campaign(h: Host, jobs: seq<Job>) returns (ghost w: int, ghost last: int, ghost quiet: nat, end: Recovery)
    requires Finishable(h.disk)
    modifies h
    ensures -1 <= last <= w < |jobs|
    ensures Finishable(h.disk)
    ensures Show(Settled(h.disk)) == if w < 0 then Show(Settled(old(h.disk))) else ShowPlan(jobs[w].plan)
    ensures h.CalmFrom(quiet) ==>
      h.disk.record.None? && Show(Visible(h.disk.dest, h.disk.marker)) == Show(Settled(h.disk)) && end != RecoveryRequired
  {
    hide Finishable, Finish, Ready, AsMap;
    w, last := -1, -1;
    var i := 0;
    while i < |jobs|
      invariant 0 <= i <= |jobs| && -1 <= last <= w < i
      invariant Finishable(h.disk)
      invariant Show(Settled(h.disk)) == if w < 0 then Show(Settled(old(h.disk))) else ShowPlan(jobs[w].plan)
    {
      if Ready(Finish(h.disk), jobs[i].plan) {
        ghost var before := h.disk;
        var v := h.Apply(jobs[i].plan, jobs[i].txn);
        if v == Applied {
          w, last := i, i;
        } else if Settled(h.disk) != Settled(before) {
          w := i;
        }
      }
      i := i + 1;
    }
    quiet := h.clock;
    FinishedIsSettled(h.disk);
    end := h.Recover();
    SettledIsFinished(h.disk);
  }
}
