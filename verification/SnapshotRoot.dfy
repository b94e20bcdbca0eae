/** The publication protocol itself: recovery, publication, retirement, load and
    save act in place on a snapshot root whose file operations may fail. Every state
    the disk goes through, the half-deleted ones included, is kept in a history; a
    crash leaves any state since the last directory sync. */
module SnapshotRoot {
  import opened Wrappers
  import opened Snapshot
  import SyncTree

  /** Both differ at most in slot `s`. */
  ghost predicate OnlySlot(a: Disk, b: Disk, s: Slot) {
    a - {s} == b - {s}
  }

  /** What else a load or save waits for, and how many states the disk had been in
      when it was there. */
  datatype Part = Manifest | Import | Export

  datatype Outcome = Outcome(part: Part, ok: bool, at: nat)

  /** The manifest and every import succeeded before state `i`. */
  predicate ImportsDone(outcomes: seq<Outcome>, from: nat, services: nat, i: nat) {
    && |outcomes| == from + 1 + services
    && (forall k | from <= k < |outcomes| :: outcomes[k].ok && outcomes[k].at <= i)
    && outcomes[from].part == Manifest && forall k | from < k < |outcomes| :: outcomes[k].part == Import
  }

  /** Every export succeeded before state `i`. */
  predicate ExportsDone(outcomes: seq<Outcome>, from: nat, services: nat, i: nat) {
    && |outcomes| == from + services
    && forall k | from <= k < |outcomes| :: outcomes[k].ok && outcomes[k].at <= i && outcomes[k].part == Export
  }

  predicate NoStaged(disk: Disk) {
    forall s | s in disk :: !s.Staged?
  }

  predicate SomeFailed(outcomes: seq<Outcome>, from: nat) {
    exists k :: from <= k < |outcomes| && !outcomes[k].ok
  }

  /** One thing that happens to a root in the life of its owners. */
  datatype Action =
    | Load(deadline: nat, services: nat, suffix: nat)
    | Save(version: nat, services: nat, suffix: nat)
    | Crash

  /** How it ended; `exported` says that a save got past its exports. */
  datatype Reply = Reply(ok: bool, exported: bool)

  /** The generations a disk may stand for after one more action: a successful save
      leaves its own only, one that fails past its exports adds a possibility. */
  ghost function After(action: Action, reply: Reply, earlier: set<Option<nat>>): set<Option<nat>> {
    match action
    case Save(version, _, _) =>
      if reply.ok then {Some(version)}
      else if reply.exported then earlier + {Some(version)}
      else earlier
    case _ => earlier
  }

  ghost function Allowed(script: seq<Action>, replies: seq<Reply>, start: Option<nat>): set<Option<nat>>
    requires |script| == |replies|
  {
    if script == [] then {start}
    else
      var last := |script| - 1;
      After(script[last], replies[last], Allowed(script[..last], replies[..last], start))
  }

  ghost predicate Acknowledged(script: seq<Action>, replies: seq<Reply>)
    requires |script| == |replies|
  {
    exists i :: 0 <= i < |script| && script[i].Save? && replies[i].ok
  }

  /** No run can leave a root without a generation once there was one: exactly those from a
      committed generation, or with an acknowledged save. */
  lemma {:induction false} AllowedSome(script: seq<Action>, replies: seq<Reply>, start: Option<nat>)
    requires |script| == |replies|
    ensures None !in Allowed(script, replies, start) <==> start.Some? || Acknowledged(script, replies)
  {
    if script != [] {
      var last := |script| - 1;
      AllowedSome(script[..last], replies[..last], start);
      if script[last].Save? && replies[last].ok {
        assert Acknowledged(script, replies);
      } else if Acknowledged(script, replies) {
        var i :| 0 <= i < |script| && script[i].Save? && replies[i].ok;
        assert script[..last][i].Save? && replies[..last][i].ok;
      }
    }
  }

  /** After any run and any crash: from a committed generation, or once a save was
      acknowledged, recovery ends with a complete target, the last acknowledged generation
      or one past its exports since; from any clean root, one without a snapshot included,
      it refuses, or ends with such a target, or with none where none was committed. It
      does not refuse a clean root without legacy backups. */
  lemma CrashRecovers(disk: Disk, script: seq<Action>, replies: seq<Reply>, start: Option<nat>, judge: Judge,
                      failed: Slot)
    requires |script| == |replies| && Selected(disk) in Allowed(script, replies, start)
    requires Exact(judge) && failed.Failed? && failed !in disk
    ensures var r := Recovered(disk, judge, failed);
            start.Some? || Acknowledged(script, replies) ==>
              r.Ok? && exists v :: Some(v) in Allowed(script, replies, start) && Holds(r.value, Target, v)
    ensures var r := Recovered(disk, judge, failed);
            Clean(disk) && r.Ok? && Target in r.value ==>
              exists v :: Some(v) in Allowed(script, replies, start) && Holds(r.value, Target, v)
    ensures var r := Recovered(disk, judge, failed);
            Clean(disk) && r.Ok? && Target !in r.value ==> None in Allowed(script, replies, start)
    ensures Clean(disk) && NoLegacy(disk) ==> Recovered(disk, judge, failed).Ok?
  {
    var r := Recovered(disk, judge, failed);
    AllowedSome(script, replies, start);
    if None !in Allowed(script, replies, start) {
      RecoveryRestores(disk, judge, failed);
      assert Holds(r.value, Target, Selected(disk).value);
    }
    if Clean(disk) {
      RecoveryClean(disk, judge, failed);
      if r.Ok? && Target in r.value { assert Holds(r.value, Target, Selected(disk).value); }
      if NoLegacy(disk) { RecoveryConfined(disk, judge, failed, Versions(disk), true); }
    }
  }

  /** The complete generations outside staging. */
  function Versions(disk: Disk): (versions: set<nat>)
    ensures Confined(disk, versions, false)
  {
    set s | s in disk && !s.Staged? && disk[s].Gen? :: disk[s].version
  }

  /** The versions whose exports all succeeded. */
  function Exported(script: seq<Action>, replies: seq<Reply>): set<nat>
    requires |script| == |replies|
  {
    set i | 0 <= i < |script| && script[i].Save? && replies[i].exported :: script[i].version
  }

  /** A disk that stands for a generation is not refused. */
  lemma RecoverableNow(disk: Disk, judge: Judge)
    requires Exact(judge) && Selected(disk).Some?
    ensures forall failed: Slot | failed.Failed? && failed !in disk ::
              && Recovered(disk, judge, failed).Ok?
              && Holds(Recovered(disk, judge, failed).value, Target, Selected(disk).value)
    ensures forall error :: !Refuses(disk, judge, error)
  {
    forall failed: Slot | failed.Failed? && failed !in disk
      ensures Recovered(disk, judge, failed).Ok?
           && Holds(Recovered(disk, judge, failed).value, Target, Selected(disk).value)
    {
      RecoveryRestores(disk, judge, failed);
    }
    var failed := Unused(disk);
    assert Recovered(disk, judge, failed).Ok?;
  }

  ghost predicate SameStaged(a: Disk, b: Disk) {
    forall s: Slot | s.Staged? && (s in a || s in b) :: s in a && s in b && a[s] == b[s]
  }

  ghost predicate Prefix(a: seq<Disk>, b: seq<Disk>) {
    |a| <= |b| && forall i | 0 <= i < |a| :: a[i] == b[i]
  }

  /** Every recorded state from `from` on, before `to`, selects `v`. */
  ghost predicate Selects(history: seq<Disk>, from: int, to: int, v: Option<nat>) {
    forall i | 0 <= from <= i < to <= |history| :: Selected(history[i]) == v
  }

  /** Every recorded state from `from` on is clean. */
  predicate AllClean(history: seq<Disk>, from: nat) {
    forall i | from <= i < |history| :: Clean(history[i])
  }

  /** `.previous` stays, or recovery renames it to the target. */
  ghost predicate PreviousStep(a: Disk, b: Disk) {
    SamePrevious(a, b) || (Previous in a && Target !in a && b == Moved(a, Previous, Target))
  }

  ghost predicate KeptPrevious(history: seq<Disk>, from: nat) {
    forall j, i | from <= i < |history| && 0 <= j && j + 1 == i :: PreviousStep(history[j], history[i])
  }

  ghost predicate AllFaithful(judges: seq<Judge>) {
    forall n | 0 <= n < |judges| :: Faithful(judges[n])
  }

  class Root {
    var disk: Disk
    /** Every state the disk has been in, in order. */
    var history: seq<Disk>
    /** A crash leaves one of the states from here on. */
    var durable: nat
    /** Monotonic time, as far as any step has looked at it. */
    var clock: nat
    /** The slots whose files may not have reached the disk yet. */
    var loose: set<Slot>
    /** What loads and saves have waited for, in order. */
    var outcomes: seq<Outcome>
    /** What the staged directories hold. */
    var trees: map<Slot, SyncTree.Node>
    /** The generations that were there at first or were let through to publication. */
    ghost var genuine: set<nat>
    /** The file operations that have failed. */
    ghost var faults: nat
    /** There was no legacy backup at first. */
    ghost const bare: bool

    ghost predicate Recorded()
      reads this
    {
      durable < |history| && history[|history| - 1] == disk && PastConfined()
    }

    ghost predicate PastConfined()
      reads this
    {
      forall i | durable <= i < |history| :: Confined(history[i], genuine, bare)
    }

    ghost predicate LooseStaged()
      reads this
    {
      forall s | s in loose :: s.Staged? && s in trees && trees[s].Dir? && SyncTree.Named(trees[s])
    }

    ghost predicate Valid()
      reads this
    {
      Recorded() && LooseStaged()
    }

    twostate predicate Extends()
      reads this
    {
      Grows() && genuine == old(genuine)
    }

    /** History only grows, and durability only advances. */
    twostate predicate Grows()
      reads this
    {
      && Prefix(old(history), history)
      && old(durable) <= durable && old(clock) <= clock && old(faults) <= faults && old(outcomes) <= outcomes
      && (Clean(old(disk)) ==> AllClean(history, |old(history)|))
    }

    /** Each state recorded since selects what the disk selected before. */
    twostate predicate Keeps()
      reads this
    {
      Extends() && Selects(history, |old(history)|, |history|, Selected(old(disk)))
    }

    constructor (initial: Disk)
      ensures Valid() && disk == initial && history == [initial] && durable == 0 && outcomes == []
      ensures genuine == Versions(initial) && bare == NoLegacy(initial)
    {
      disk := initial;
      history := [initial];
      durable := 0;
      clock, loose, outcomes, trees := 0, {}, [], map[];
      genuine, bare, faults := Versions(initial), NoLegacy(initial), 0;
    }

    // -------------------------------------------------------------------
    // File operations: any of them may fail
    // -------------------------------------------------------------------

    /** Take down a new state of the disk. */
    method Record()
      requires durable < |history| && PastConfined() && Confined(disk, genuine, bare)
      modifies this`history
      ensures Recorded() && history == old(history) + [disk]
    {
      history := history + [disk];
    }

    /** The files of a directory move with its name. */
    method Rename(from: Slot, to: Slot) returns (ok: bool)
      requires Valid() && !to.Legacy?
      requires from in disk && from.Staged? && disk[from].Gen? ==> disk[from].version in genuine
      modifies this`disk, this`history, this`loose, this`faults
      ensures faults == old(faults) + if ok then 0 else 1
      ensures Recorded() && (from !in old(loose) ==> Valid())
      ensures !ok ==> loose == old(loose)
      ensures ok ==> loose == if from in old(loose) then old(loose) - {from} + {to} else old(loose) - {to}
      ensures ok ==> from in old(disk) && to !in old(disk)
      ensures ok ==> disk == Moved(old(disk), from, to) && history == old(history) + [disk]
      ensures !ok ==> disk == old(disk) && history == old(history)
    {
      ok := *;
      if from !in disk || to in disk { ok := false; }
      if ok {
        disk := Moved(disk, from, to);
        Record();
        loose := if from in loose then loose - {from} + {to} else loose - {to};
      } else {
        faults := faults + 1;
      }
    }

    /** A recursive delete passes through damaged directories, and may stop at one. */
    method RemoveDirIfExists(s: Slot) returns (ok: bool)
      requires Valid()
      modifies this`disk, this`history, this`faults
      ensures faults == old(faults) + if ok then 0 else 1
      ensures Valid() && Prefix(old(history), history)
      ensures forall i | |old(history)| <= i < |history| :: OnlySlot(history[i], old(disk), s)
      ensures ok ==> s !in disk && disk == old(disk) - {s}
      ensures OnlySlot(disk, old(disk), s)
    {
      if s !in disk { return true; }
      var steps: nat :| steps >= 0;
      for n := 0 to steps
        invariant Valid() && s in disk && OnlySlot(disk, old(disk), s) && faults == old(faults)
        invariant Prefix(old(history), history)
        invariant forall i | |old(history)| <= i < |history| :: OnlySlot(history[i], old(disk), s)
      {
        var tag: nat :| tag >= 0;
        disk := disk[s := Damaged(tag)];
        Record();
      }
      ok := *;
      if ok {
        disk := disk - {s};
        Record();
      } else {
        faults := faults + 1;
      }
    }

    /** Files are going to be written that have not reached the disk. */
    method Loosen(s: Slot)
      requires Valid() && s.Staged?
      modifies this`loose, this`trees
      ensures Valid() && loose == old(loose) + {s}
    {
      var tree: SyncTree.Node := *;
      if !tree.Dir? || !SyncTree.Named(tree) { tree := SyncTree.Dir([]); }
      loose, trees := loose + {s}, trees[s := tree];
    }

    method SetStaged(s: Slot, content: Dir)
      requires Valid() && s.Staged?
      modifies this`disk, this`history
      ensures Valid() && history == old(history) + [disk]
      ensures disk == old(disk)[s := content]
    {
      disk := disk[s := content];
      Record();
    }

    /** Fill a directory: damaged until its last write is done. */
    method WriteDir(s: Slot, content: Dir) returns (ok: bool)
      requires Valid() && s.Staged?
      modifies this`disk, this`history, this`loose, this`trees, this`faults
      ensures faults == old(faults) + if ok then 0 else 1
      ensures s in loose
      ensures Valid() && Prefix(old(history), history)
      ensures forall i | |old(history)| <= i < |history| :: OnlySlot(history[i], old(disk), s)
      ensures ok ==> s in disk && disk[s] == content
      ensures OnlySlot(disk, old(disk), s)
    {
      var tag: nat :| tag >= 0;
      Loosen(s);
      SetStaged(s, Damaged(tag));
      ok := *;
      if ok { SetStaged(s, content); } else { faults := faults + 1; }
    }

    method SyncDirectory() returns (ok: bool)
      requires Valid()
      modifies this`durable, this`faults
      ensures faults == old(faults) + if ok then 0 else 1
      ensures Valid()
      ensures durable == if ok then |history| - 1 else old(durable)
    {
      ok := *;
      if ok { durable := |history| - 1; } else { faults := faults + 1; }
    }

    method Now() returns (t: nat)
      modifies this`clock
      ensures t == clock >= old(clock)
    {
      var passed: nat :| passed >= 0;
      clock := clock + passed;
      t := clock;
    }

    /** `sync_tree` on a staged directory: once it has synced every file and directory
        in it, children first, no crash takes them. */
    method SyncStaged(s: Slot) returns (ok: bool, log: seq<SyncTree.Event>)
      requires Valid()
      modifies this`loose, this`faults
      ensures faults == old(faults) + if ok then 0 else 1
      ensures Valid()
      ensures loose == if ok then old(loose) - {s} else old(loose)
      ensures ok && s in old(loose) ==> SyncTree.Covers(log, [], trees[s])
    {
      var broken: set<SyncTree.Path> := *;
      var tree := if s in loose then trees[s] else SyncTree.Dir([]);
      ok, log := SyncTree.Sync(tree, [], broken);
      if ok { loose := loose - {s}; } else { faults := faults + 1; }
    }

    /** The machine stops and comes back with some state since the last sync, in
        which any directory whose files were not synced may be damaged. */
    method Crash()
      requires Valid()
      modifies this`disk, this`history, this`durable, this`loose
      ensures Valid() && |old(history)| + 1 == |history| && history[..|old(history)|] == old(history)
      ensures exists i | old(durable) <= i < |old(history)| :: SameNonStaged(disk, old(history)[i])
      ensures durable == |history| - 1
    {
      var i: nat :| i >= 0;
      if i < durable || i >= |history| { i := durable; }
      var left, rest := history[i], loose;
      while rest != {}
        invariant rest <= loose && SameNonStaged(left, history[i])
        decreases |rest|
      {
        var s :| s in rest;
        rest := rest - {s};
        var lost: bool := *;
        var tag: nat :| tag >= 0;
        if lost && s in left { left := left[s := Damaged(tag)]; }
      }
      disk := left;
      history := history + [disk];
      durable := |history| - 1;
    }

    /** Wait for a manifest, an import or an export; any of them may fail. */
    method Await(part: Part) returns (ok: bool)
      modifies this`outcomes
      ensures outcomes == old(outcomes) + [Outcome(part, ok, |history|)]
    {
      ok := *;
      outcomes := outcomes + [Outcome(part, ok, |history|)];
    }

    // -------------------------------------------------------------------
    // Recovery
    // -------------------------------------------------------------------

    /** The scan for `.name.bak.*`: at most one candidate is allowed. */
    method FindLegacy() returns (r: Result<Option<Slot>, Error>)
      ensures r.Ok? && r.value.None? ==> NoLegacy(disk)
      ensures r.Ok? && r.value.Some? ==> IsSoleLegacy(disk, r.value.value)
      ensures r.Err? ==> r.error == AmbiguousLegacy && !NoLegacy(disk) && forall s :: !IsSoleLegacy(disk, s)
    {
      var entries := disk.Keys;
      var candidate: Option<Slot> := None;
      while entries != {}
        invariant entries <= disk.Keys
        invariant candidate.None? ==> forall s | s in disk && s !in entries :: !s.Legacy?
        invariant candidate.Some? ==>
                    candidate.value in disk && candidate.value !in entries && candidate.value.Legacy? &&
                    forall s | s in disk && s !in entries && s.Legacy? :: s == candidate.value
        decreases |entries|
      {
        var entry :| entry in entries;
        entries := entries - {entry};
        if entry.Legacy? {
          if candidate.Some? {
            TwoLegacies(disk, entry, candidate.value);
            return Err(AmbiguousLegacy);
          }
          candidate := Some(entry);
        }
      }
      return Ok(candidate);
    }

    method FindBackup() returns (r: Result<Option<Slot>, Error>)
      ensures r.Ok? ==> IsBackup(disk, r.value)
      ensures r.Err? ==> r.error == AmbiguousLegacy && Ambiguous(disk)
    {
      if Previous in disk { return Ok(Some(Previous)); }
      if Target in disk { return Ok(None); }
      r := FindLegacy();
      if r.Err? {
        forall b ensures !IsBackup(disk, b) {}
      }
    }

    method Validate(s: Slot, judge: Judge) returns (r: Result<(), Error>)
      requires s in disk
      ensures r == match judge(disk[s])
                   case Accept => Ok(())
                   case OverBudget => Err(BudgetLimit)
                   case Reject => Err(InvalidGeneration)
    {
      match judge(disk[s]) {
        case Accept => return Ok(());
        case OverBudget => return Err(BudgetLimit);
        case Reject => return Err(InvalidGeneration);
      }
    }

    /** The decision: an error, nothing to do, or the backup to restore. */
    method JudgeRecovery(judge: Judge) returns (r: Result<Option<Slot>, Error>)
      requires Sound(judge)
      ensures r.Err? ==> Refuses(disk, judge, r.error)
      ensures r.Ok? && r.value.None? ==> forall failed :: Recovered(disk, judge, failed) == Ok(disk)
      ensures r.Ok? && r.value.None? && Previous in disk ==> Target in disk && disk[Target].Gen?
      ensures r.Ok? && r.value.None? && Target !in disk ==> Previous !in disk && NoLegacy(disk)
      ensures r.Ok? && r.value.Some? ==>
                IsBackup(disk, r.value) && judge(disk[r.value.value]) == Accept &&
                (Target in disk ==> judge(disk[Target]) == Reject)
    {
      var found := FindBackup();
      if found.Err? || found.value.None? { return found; }
      var backup := found.value.value;
      BackupPresent(disk, found.value);
      if Target in disk {
        var current := Validate(Target, judge);
        if current.Ok? { return Ok(None); }
        if current.error == BudgetLimit { return Err(BudgetLimit); }
      }
      var previous := Validate(backup, judge);
      if previous.Err? { return Err(previous.error); }
      return Ok(Some(backup));
    }

    /** Keep an invalid target for diagnosis. */
    method MoveAside(id: nat) returns (ok: bool, ghost failed: Slot)
      requires Valid()
      modifies this`disk, this`history, this`loose, this`faults
      ensures faults == old(faults) + if ok then 0 else 1
      ensures Valid() && failed.Failed? && loose == old(loose)
      ensures ok ==> failed !in old(disk) && disk == SetAside(old(disk), failed)
      ensures !ok ==> disk == old(disk)
      ensures history == if ok && Target in old(disk) then old(history) + [disk] else old(history)
    {
      failed, ok := Failed(id), true;
      if Target in disk {
        ok := Rename(Target, Failed(id));
      } else if Failed(id) in disk {
        failed := Unused(disk);
      }
    }

    /** The two renames of recovery, as far as they get. */
    method RenameBack(backup: Slot, id: nat) returns (ok: bool, ghost failed: Slot)
      requires Valid() && IsBackup(disk, Some(backup))
      modifies this`disk, this`history, this`loose, this`faults
      ensures faults == old(faults) + if ok then 0 else 1
      ensures Valid() && failed.Failed? && loose == old(loose)
      ensures history == old(history) || (failed !in old(disk) && backup in SetAside(old(disk), failed))
      ensures var aside := SetAside(old(disk), failed);
              || history == old(history)
              || (Target in old(disk) && history == old(history) + [aside])
              || history == (if Target in old(disk) then old(history) + [aside] else old(history))
                            + [Moved(aside, backup, Target)]
      ensures ok ==> failed !in old(disk) && backup in SetAside(old(disk), failed)
      ensures ok ==> disk == Moved(SetAside(old(disk), failed), backup, Target)
    {
      BackupPresent(disk, Some(backup));
      ok, failed := MoveAside(id);
      if ok { ok := Rename(backup, Target); }
    }

    method Restore(backup: Slot, judge: Judge, id: nat) returns (ok: bool, ghost failed: Slot)
      requires Valid() && Sound(judge)
      requires IsBackup(disk, Some(backup)) && judge(disk[backup]) == Accept
      requires Target in disk ==> judge(disk[Target]) == Reject
      modifies this
      ensures Valid() && Extends() && failed.Failed? && (Faithful(judge) ==> Keeps())
      ensures ok ==> failed !in old(disk) && Recovered(old(disk), judge, failed) == Ok(disk)
      ensures ok ==> Previous !in disk && Target in disk
      ensures SameStaged(disk, old(disk)) && loose == old(loose) && outcomes == old(outcomes)
      ensures KeptPrevious(history, |old(history)|)
      ensures forall i | |old(history)| <= i < |history| ::
                history[i] == SetAside(old(disk), failed) || history[i] == disk
      ensures ok ==> faults == old(faults) && durable == |history| - 1
      ensures !ok ==> faults > old(faults)
    {
      BackupPresent(disk, Some(backup));
      ok, failed := RenameBack(backup, id);
      RestoreHistory(old(history), history, old(disk), judge, failed, backup);
      if ok { ok := SyncDirectory(); }
    }

    /** A judge that meets read errors is allowed; the meaning of the disk is kept by
        one that does not. */
    method RecoverSnapshot(judge: Judge) returns (r: Result<(), Error>, ghost failed: Slot)
      requires Valid() && Sound(judge)
      modifies this
      ensures Valid() && Extends() && failed.Failed? && (Faithful(judge) ==> Keeps())
      ensures r.Ok? ==> failed !in old(disk) && Recovered(old(disk), judge, failed) == Ok(disk)
      ensures r.Err? && r.error != Io ==>
                Refuses(old(disk), judge, r.error) && disk == old(disk) && history == old(history)
      ensures r.Ok? ==> faults == old(faults)
      ensures r.Ok? && disk != old(disk) ==> durable == |history| - 1
      ensures r == Err(Io) ==> faults > old(faults)
      ensures Exact(judge) && Selected(old(disk)).Some? && (r.Ok? || faults == old(faults)) ==>
                r.Ok? && Holds(disk, Target, Selected(old(disk)).value)
      ensures r.Ok? && Previous in disk ==> Target in disk && disk[Target].Gen?
      ensures r.Ok? && Target !in disk ==> Previous !in disk && NoLegacy(disk)
      ensures SameStaged(disk, old(disk)) && loose == old(loose) && outcomes == old(outcomes)
      ensures KeptPrevious(history, |old(history)|)
      ensures forall i | |old(history)| <= i < |history| ::
                history[i] == SetAside(old(disk), failed) || history[i] == disk
    {
      if Exact(judge) && Selected(disk).Some? { RecoverableNow(disk, judge); }
      failed := Unused(disk);
      var choice := JudgeRecovery(judge);
      if choice.Err? { return Err(choice.error), failed; }
      if choice.value.Some? {
        var id: nat :| id >= 0;
        var ok;
        ok, failed := Restore(choice.value.value, judge, id);
        if !ok { return Err(Io), failed; }
      }
      return Ok(()), failed;
    }

    // -------------------------------------------------------------------
    // Publication
    // -------------------------------------------------------------------

    method CheckLoadDeadline(deadline: nat) returns (ok: bool)
      modifies this`clock
      ensures old(clock) <= clock
      ensures ok <==> clock < deadline
    {
      var now := Now();
      return now < deadline;
    }

    /** Remove `.previous`, if the deadline still allows it. */
    method RetirePreviousChecked(deadline: Option<nat>) returns (r: Result<(), Error>)
      requires Valid()
      requires Previous in disk ==> Target in disk && disk[Target].Gen?
      modifies this
      ensures Valid() && Keeps()
      ensures OnlySlot(disk, old(disk), Previous) && loose == old(loose) && outcomes == old(outcomes)
      ensures forall i | |old(history)| <= i < |history| :: OnlySlot(history[i], old(disk), Previous)
      ensures |history| > |old(history)| ==> Previous in old(disk) && (deadline.Some? ==> clock < deadline.value)
      ensures r.Ok? ==> Previous !in disk && disk == old(disk) - {Previous}
      ensures disk != old(disk) ==> Previous in old(disk) && (deadline.Some? ==> clock < deadline.value)
      ensures r.Ok? ==> faults == old(faults)
      ensures r.Ok? && Previous in old(disk) ==> durable == |history| - 1
      ensures r.Err? ==> (r.error == Io && faults > old(faults)) ||
                         (r.error == DeadlineExceeded && deadline.Some? && deadline.value <= clock)
    {
      if deadline.Some? {
        var ok := CheckLoadDeadline(deadline.value);
        if !ok { return Err(DeadlineExceeded); }
      }
      if Previous in disk {
        if deadline.Some? {
          var ok := CheckLoadDeadline(deadline.value);
          if !ok { return Err(DeadlineExceeded); }
        }
        ghost var before := disk;
        var removed := RemoveDirIfExists(Previous);
        forall i | |old(history)| <= i < |history|
          ensures Selected(history[i]) == Selected(before) && Clean(history[i])
        {
          TargetWins(before, history[i], Previous);
        }
        if !removed { return Err(Io); }
        var synced := SyncDirectory();
        if !synced { return Err(Io); }
      }
      return Ok(());
    }

    /** Set the old target aside as `.previous`. */
    method PreserveTarget() returns (ok: bool)
      requires Valid() && Target in disk && Previous !in disk
      modifies this
      ensures Valid() && Keeps() && outcomes == old(outcomes) && loose == old(loose)
      ensures disk == old(disk) || disk == Moved(old(disk), Target, Previous)
      ensures ok ==> disk != old(disk) && faults == old(faults) && |history| == |old(history)| + 1
      ensures durable == if ok then |history| - 1 else old(durable)
      ensures !ok ==> faults > old(faults)
    {
      ok := Rename(Target, Previous);
      if !ok { return false; }
      TargetPreserved(old(disk));
      ok := SyncDirectory();
    }

    /** Undo `PreserveTarget` after a failed publication. */
    method RestoreTarget(ghost before: Disk)
      requires Valid() && Target in before && Previous !in before && disk == Moved(before, Target, Previous)
      modifies this
      ensures Valid() && Keeps() && outcomes == old(outcomes)
      ensures disk == before || disk == old(disk)
      ensures old(faults) <= faults
      ensures faults == old(faults) ==> disk == before && durable == |history| - 1
    {
      TargetPreserved(before);
      var restored := Rename(Previous, Target);
      if restored {
        assert disk == before;
        var _ := SyncDirectory();
      }
    }

    /** Remove the backup of a published generation. */
    method DiscardBackup() returns (ok: bool)
      requires Valid() && Target in disk && disk[Target].Gen?
      modifies this
      ensures Valid() && Keeps() && outcomes == old(outcomes)
      ensures Target in disk && disk[Target] == old(disk[Target])
      ensures ok ==> disk == old(disk) - {Previous}
      ensures ok ==> faults == old(faults) && durable == |history| - 1
      ensures !ok ==> faults > old(faults)
    {
      ok := RemoveDirIfExists(Previous);
      forall i | |old(history)| <= i < |history|
        ensures Selected(history[i]) == Selected(old(disk)) && Clean(history[i])
      {
        TargetWins(old(disk), history[i], Previous);
      }
      TargetWins(old(disk), disk, Previous);
      if !ok { return; }
      ok := SyncDirectory();
    }

    /** The renames up to the new target, with the old one as `.previous`, which reaches
        the disk first; if the last of them alone fails the old target is brought back. */
    method Publish(temp: Slot) returns (ok: bool)
      requires Valid() && temp.Staged? && temp in disk && disk[temp].Gen? && temp !in loose
      requires Previous !in disk && (Target !in disk ==> NoLegacy(disk)) && disk[temp].version in genuine
      modifies this
      ensures Valid() && Extends() && outcomes == old(outcomes)
      ensures !ok ==> Keeps()
      ensures ok ==> |history| > |old(history)| && Selects(history, |old(history)|, |history| - 1, Selected(old(disk)))
      ensures ok ==> Holds(disk, Target, old(disk)[temp].version) && temp !in disk
      ensures ok && Target !in old(disk) ==> Previous !in disk
      ensures ok ==> faults == old(faults)
      ensures ok && Target in old(disk) ==> durable == |history| - 2
      ensures !ok ==> faults > old(faults)
      ensures !ok && durable >= |old(history)| && faults == old(faults) + 1 ==> disk == old(disk)
    {
      var hadTarget := Target in disk;
      if hadTarget {
        var preserved := PreserveTarget();
        if !preserved { return false; }
      }
      ok := Rename(temp, Target);
      if !ok && hadTarget { RestoreTarget(old(disk)); }
    }

    /** The renames of a publication. From state `switch` on, and not before, the
        disk stands for the new generation. */
    method SwapIn(temp: Slot) returns (r: Result<(), Error>, ghost switch: nat)
      requires Valid() && temp.Staged? && temp in disk && disk[temp].Gen? && temp !in loose
      requires Previous !in disk && (Target !in disk ==> NoLegacy(disk))
      modifies this
      ensures Valid() && Grows() && outcomes == old(outcomes)
      ensures genuine == old(genuine) + {old(disk)[temp].version}
      ensures |old(history)| <= switch <= |history|
      ensures Selects(history, |old(history)|, switch, Selected(old(disk)))
      ensures Selects(history, switch, |history|, Some(old(disk)[temp].version))
      ensures r.Ok? ==> Holds(disk, Target, old(disk)[temp].version)
      ensures r.Ok? ==> switch <= durable == |history| - 1 && Previous !in disk && temp !in disk
      ensures r.Ok? ==> faults == old(faults)
      ensures r.Err? ==> r.error == Io && faults > old(faults)
    {
      genuine := genuine + {disk[temp].version};
      var hadTarget := Target in disk;
      var published := Publish(temp);
      if !published { return Err(Io), |history|; }
      switch := |history| - 1;
      SelectedTarget(disk);
      var synced := SyncDirectory();
      if !synced { return Err(Io), switch; }
      if hadTarget {
        var discarded := DiscardBackup();
        if !discarded { return Err(Io), switch; }
      }
      return Ok(()), switch;
    }

    /** Nothing but a valid generation whose files have all reached the disk. */
    method ValidateAndSync(temp: Slot, judge: Judge) returns (r: Result<(), Error>)
      requires Valid() && temp in disk
      modifies this`loose, this`faults
      ensures Valid() && old(faults) <= faults
      ensures r.Ok? ==> judge(disk[temp]) == Accept && loose == old(loose) - {temp} && faults == old(faults)
      ensures r.Err? ==> (r.error == Io && faults > old(faults)) || Unfit(judge(disk[temp])) == Some(r.error)
    {
      r := Validate(temp, judge);
      if r.Err? { return; }
      var synced, log := SyncStaged(temp);
      if !synced { return Err(Io); }
    }

    /** Everything before the renames: recover, validate, make durable, make room. */
    method Prepare(temp: Slot, judge: Judge) returns (r: Result<(), Error>)
      requires Valid() && Sound(judge)
      requires temp.Staged? && temp in disk
      modifies this
      ensures Valid() && Extends() && (Faithful(judge) ==> Keeps()) && outcomes == old(outcomes)
      ensures r.Ok? ==> temp in disk && disk[temp] == old(disk[temp]) && disk[temp].Gen? && temp !in loose
      ensures r.Ok? ==> Previous !in disk && (Target !in disk ==> NoLegacy(disk))
      ensures r.Ok? ==> faults == old(faults) && judge(old(disk)[temp]) == Accept
      ensures r.Err? ==> (r.error == Io && faults > old(faults)) ||
                         Refuses(old(disk), judge, r.error) || Unfit(judge(old(disk)[temp])) == Some(r.error)
    {
      var recovered, failed := RecoverSnapshot(judge);
      if recovered.Err? { return recovered; }
      var valid := ValidateAndSync(temp, judge);
      if valid.Err? { return valid; }
      r := RetirePreviousChecked(None);
    }

    /** Publish a prepared generation. */
    method ReplaceDirectory(temp: Slot, judge: Judge) returns (r: Result<(), Error>, ghost switch: nat)
      requires Valid() && Sound(judge)
      requires temp.Staged? && temp in disk
      modifies this
      ensures Valid() && Grows() && outcomes == old(outcomes)
      ensures genuine == old(genuine) || (old(disk)[temp].Gen? && genuine == old(genuine) + {old(disk)[temp].version})
      ensures |old(history)| <= switch <= |history|
      ensures Faithful(judge) ==> Selects(history, |old(history)|, switch, Selected(old(disk)))
      ensures switch < |history| ==>
                old(disk)[temp].Gen? && Selects(history, switch, |history|, Some(old(disk)[temp].version))
      ensures r.Ok? ==> old(disk)[temp].Gen? && Holds(disk, Target, old(disk)[temp].version)
      ensures r.Ok? ==> switch <= durable == |history| - 1 && Previous !in disk && temp !in disk
      ensures r.Ok? ==> faults == old(faults) && judge(old(disk)[temp]) == Accept
      ensures r.Err? ==> (r.error == Io && faults > old(faults)) ||
                         Refuses(old(disk), judge, r.error) || Unfit(judge(old(disk)[temp])) == Some(r.error)
    {
      r := Prepare(temp, judge);
      switch := |history|;
      if r.Err? { return; }
      assert Faithful(judge) ==> Selected(disk) == Selected(old(disk));
      r, switch := SwapIn(temp);
    }

    // -------------------------------------------------------------------
    // Load and save
    // -------------------------------------------------------------------

    /** Changing staging directories keeps what the disk stands for. */
    method RemoveStaged(s: Slot) returns (ok: bool)
      requires Valid() && s.Staged?
      modifies this
      ensures Valid() && Keeps() && KeptPrevious(history, |old(history)|) && outcomes == old(outcomes)
      ensures ok ==> disk == old(disk) - {s}
      ensures OnlySlot(disk, old(disk), s)
      ensures ok ==> faults == old(faults)
      ensures !ok ==> faults > old(faults)
    {
      ok := RemoveDirIfExists(s);
      StagedSteps(old(disk), history, |old(history)|, s);
    }

    method WriteStaged(s: Slot, content: Dir) returns (ok: bool)
      requires Valid() && s.Staged?
      modifies this
      ensures Valid() && Keeps() && KeptPrevious(history, |old(history)|) && outcomes == old(outcomes)
      ensures ok ==> s in disk && disk[s] == content
      ensures OnlySlot(disk, old(disk), s)
      ensures ok ==> faults == old(faults)
      ensures !ok ==> faults > old(faults)
    {
      ok := WriteDir(s, content);
      StagedSteps(old(disk), history, |old(history)|, s);
    }

    /** Delete every staging leftover; nothing else changes. */
    method CleanupStaleStaging() returns (ok: bool)
      requires Valid()
      modifies this
      ensures Valid() && Keeps() && KeptPrevious(history, |old(history)|) && outcomes == old(outcomes)
      ensures SameNonStaged(disk, old(disk))
      ensures ok ==> NoStaged(disk)
      ensures ok ==> faults == old(faults)
      ensures !ok ==> faults > old(faults)
    {
      var entries := disk.Keys;
      while entries != {}
        invariant Valid() && Keeps() && SameNonStaged(disk, old(disk)) && faults == old(faults)
        invariant KeptPrevious(history, |old(history)|) && outcomes == old(outcomes)
        invariant Selected(disk) == Selected(old(disk))
        invariant forall s | s in disk && s !in entries :: !s.Staged?
        decreases |entries|
      {
        var entry :| entry in entries;
        entries := entries - {entry};
        if entry.Staged? {
          ghost var before := disk;
          ok := RemoveStaged(entry);
          OnlyStaged(before, disk, entry);
          if !ok { return false; }
        }
      }
      return true;
    }

    /** An empty staging directory, whatever was left in its place. */
    method Restage(staging: Slot) returns (ok: bool)
      requires Valid() && staging.Staged?
      modifies this
      ensures Valid() && Keeps() && KeptPrevious(history, |old(history)|) && outcomes == old(outcomes)
      ensures SameNonStaged(disk, old(disk)) && Selected(disk) == Selected(old(disk))
      ensures ok ==> faults == old(faults)
      ensures !ok ==> faults > old(faults)
      ensures forall s: Slot | s in disk && s != staging :: s in old(disk)
    {
      ok := RemoveStaged(staging);
      OnlyStaged(old(disk), disk, staging);
      if !ok { return; }
      ghost var vacated := disk;
      ok := WriteStaged(staging, Damaged(0));
      OnlyStaged(vacated, disk, staging);
    }

    /** Import every service through a staging directory; all imports are joined,
        in whatever order they finish. */
    method ImportServices(services: nat, staging: Slot) returns (r: Result<(), Error>)
      requires Valid() && staging.Staged?
      modifies this
      ensures Valid() && Keeps() && KeptPrevious(history, |old(history)|)
      ensures SameNonStaged(disk, old(disk))
      ensures r.Ok? ==> |outcomes| == |old(outcomes)| + services
      ensures r.Ok? ==> forall k | |old(outcomes)| <= k < |outcomes| ::
                outcomes[k].part == Import && outcomes[k].ok && outcomes[k].at <= |history|
      ensures r.Err? ==> (r.error == Io && faults > old(faults)) ||
                         (r.error == ImportFailed && SomeFailed(outcomes, |old(outcomes)|))
      ensures r.Ok? && NoStaged(old(disk)) ==> NoStaged(disk)
    {
      var staged := Restage(staging);
      if !staged { return Err(Io); }
      var failure := AwaitAll(Import, services);
      ghost var before := disk;
      var cleanup := RemoveStaged(staging);
      OnlyStaged(before, disk, staging);
      if failure { return Err(ImportFailed); }
      return if cleanup then Ok(()) else Err(Io);
    }

    /** Join every task of a load or save; the first failure is the answer of all. */
    method AwaitAll(part: Part, services: nat) returns (failure: bool)
      modifies this`outcomes
      ensures |outcomes| == |old(outcomes)| + services && old(outcomes) <= outcomes
      ensures forall k | |old(outcomes)| <= k < |outcomes| :: outcomes[k].part == part && outcomes[k].at == |history|
      ensures failure <==> SomeFailed(outcomes, |old(outcomes)|)
    {
      failure := false;
      for i := 0 to services
        invariant |outcomes| == |old(outcomes)| + i && old(outcomes) <= outcomes
        invariant forall k | |old(outcomes)| <= k < |outcomes| ::
                    outcomes[k].part == part && outcomes[k].at == |history|
        invariant failure <==> SomeFailed(outcomes, |old(outcomes)|)
      {
        ghost var was := outcomes;
        var ok := Await(part);
        assert outcomes == was + [Outcome(part, ok, |history|)];
        assert forall k | 0 <= k < |was| :: outcomes[k] == was[k];
        if !ok {
          failure := true;
          assert !outcomes[|outcomes| - 1].ok;
        }
      }
    }

    /** Clean up and recover: the state the import starts from. */
    method OpenForLoad(judge: Judge, deadline: nat) returns (r: Result<(), Error>)
      requires Valid() && Sound(judge)
      modifies this
      ensures Valid() && Extends() && (Faithful(judge) ==> Keeps()) && outcomes == old(outcomes)
      ensures KeptPrevious(history, |old(history)|)
      ensures r.Ok? && Previous in disk ==> Target in disk && disk[Target].Gen?
      ensures r.Ok? && Target !in disk ==> Previous !in disk && NoLegacy(disk)
      ensures r.Ok? && Exact(judge) && Selected(old(disk)).Some? ==> Holds(disk, Target, Selected(old(disk)).value)
      ensures r.Err? ==> (r.error == Io && faults > old(faults)) ||
                         (r.error == DeadlineExceeded && deadline <= clock) ||
                         Refuses(old(disk), judge, r.error)
      ensures r.Ok? ==> NoStaged(disk)
    {
      var early := CheckLoadDeadline(deadline);
      if !early { return Err(DeadlineExceeded); }
      var cleaned := CleanupStaleStaging();
      if !cleaned { return Err(Io); }
      SelectedFrame(disk, old(disk));
      ghost var swept, failed := disk, Failed(0);
      r, failed := RecoverSnapshot(judge);
      if r.Err? && Refuses(swept, judge, r.error) { RefusesFrame(swept, old(disk), judge, r.error); }
    }

    /** Load the snapshot. Of all states it leads the disk through, each has the
        `.previous` of the one before, or that of a recovery by rename, or it comes
        after the manifest and every import, before the deadline, over a complete
        target. */
    method LoadBefore(judge: Judge, deadline: nat, services: nat, suffix: nat) returns (r: Result<(), Error>)
      requires Valid() && Sound(judge)
      modifies this
      ensures Valid() && Extends() && (Faithful(judge) ==> Keeps())
      ensures r.Ok? && Target in disk ==>
                ImportsDone(outcomes, |old(outcomes)|, services, |history|) && Previous !in disk
      ensures forall j, i | |old(history)| <= i < |history| && 0 <= j && j + 1 == i ::
                PreviousStep(history[j], history[i]) ||
                (ImportsDone(outcomes, |old(outcomes)|, services, i) && clock < deadline && CompleteTarget(history[i]))
      ensures r.Ok? && Target !in disk ==> Previous !in disk && NoLegacy(disk)
      ensures r.Ok? && Exact(judge) && Selected(old(disk)).Some? ==> Holds(disk, Target, Selected(old(disk)).value)
      ensures r.Err? ==> (r.error == Io && faults > old(faults)) ||
                         (r.error == DeadlineExceeded && deadline <= clock) ||
                         (r.error == ImportFailed && SomeFailed(outcomes, |old(outcomes)|)) ||
                         Refuses(old(disk), judge, r.error)
      ensures r.Ok? ==> NoStaged(disk)
    {
      r := ImportAll(judge, deadline, services, suffix);
      if r.Err? || Target !in disk { return; }
      ghost var ready, start := disk, history;
      r := RetirePreviousChecked(Some(deadline));
      OnlyPrevious(ready, disk);
      forall j, i | |old(history)| <= i < |history| && 0 <= j && j + 1 == i
        ensures PreviousStep(history[j], history[i]) ||
                (ImportsDone(outcomes, |old(outcomes)|, services, i) && clock < deadline && CompleteTarget(history[i]))
      {
        if i < |start| {
          assert history[i] == start[i] && history[j] == start[j];
        } else {
          OnlyPrevious(ready, history[i]);
        }
      }
    }

    /** Read the manifest and import every service of the target. */
    method ImportFound(services: nat, suffix: nat) returns (r: Result<(), Error>)
      requires Valid()
      modifies this
      ensures Valid() && Keeps() && KeptPrevious(history, |old(history)|) && SameNonStaged(disk, old(disk))
      ensures r.Ok? ==> ImportsDone(outcomes, |old(outcomes)|, services, |history|)
      ensures r.Err? ==> (r.error == Io && faults > old(faults)) ||
                         (r.error == ImportFailed && SomeFailed(outcomes, |old(outcomes)|))
      ensures r.Ok? && NoStaged(old(disk)) ==> NoStaged(disk)
    {
      var manifest := Await(Manifest);
      if !manifest {
        assert !outcomes[|outcomes| - 1].ok;
        return Err(ImportFailed);
      }
      r := ImportServices(services, Staged(suffix));
    }

    /** Everything of a load before `.previous` may go. */
    method ImportAll(judge: Judge, deadline: nat, services: nat, suffix: nat) returns (r: Result<(), Error>)
      requires Valid() && Sound(judge)
      modifies this
      ensures Valid() && Extends() && (Faithful(judge) ==> Keeps()) && KeptPrevious(history, |old(history)|)
      ensures r.Ok? && Target in disk ==> ImportsDone(outcomes, |old(outcomes)|, services, |history|)
      ensures r.Ok? && Previous in disk ==> CompleteTarget(disk)
      ensures r.Ok? && Target !in disk ==> Previous !in disk && NoLegacy(disk)
      ensures r.Ok? && Exact(judge) && Selected(old(disk)).Some? ==> Holds(disk, Target, Selected(old(disk)).value)
      ensures r.Err? ==> (r.error == Io && faults > old(faults)) ||
                         (r.error == DeadlineExceeded && deadline <= clock) ||
                         (r.error == ImportFailed && SomeFailed(outcomes, |old(outcomes)|)) ||
                         Refuses(old(disk), judge, r.error)
      ensures r.Ok? ==> NoStaged(disk)
    {
      r := OpenForLoad(judge, deadline);
      if r.Err? || Target !in disk { return; }
      r := ImportFound(services, suffix);
    }

    /** Export every service into a staging directory; the manifest comes last. */
    method ExportServices(staging: Slot, version: nat, services: nat) returns (r: Result<(), Error>)
      requires Valid() && staging.Staged?
      modifies this
      ensures Valid() && Keeps()
      ensures r.Ok? ==> staging in disk && disk[staging] == Gen(version)
      ensures r.Ok? ==> ExportsDone(outcomes, |old(outcomes)|, services, |history|)
      ensures SameNonStaged(disk, old(disk))
      ensures r.Err? ==> (r.error == Io && faults > old(faults)) ||
                         (r.error == ExportFailed && SomeFailed(outcomes, |old(outcomes)|))
    {
      var staged := Restage(staging);
      if !staged { return Err(Io); }
      var failure := AwaitAll(Export, services);
      if failure { return Err(ExportFailed); }
      ghost var before := disk;
      var written := WriteStaged(staging, Gen(version));
      OnlyStaged(before, disk, staging);
      return if written then Ok(()) else Err(Io);
    }

    /** Save: nothing is published before every export succeeded, and a reported
        success can no longer be lost. */
    method Save(judge: Judge, version: nat, services: nat, suffix: nat)
      returns (r: Result<(), Error>, exported: bool, ghost switch: nat)
      requires Valid() && Sound(judge)
      modifies this
      ensures Valid() && Grows()
      ensures old(genuine) <= genuine <= old(genuine) + if exported then {version} else {}
      ensures |old(history)| <= switch <= |history|
      ensures Faithful(judge) ==> Selects(history, |old(history)|, switch, Selected(old(disk)))
      ensures Selects(history, switch, |history|, Some(version))
      ensures exported ==> ExportsDone(outcomes, |old(outcomes)|, services, switch)
      ensures r.Ok? || switch < |history| ==> exported
      ensures r.Ok? ==> switch <= durable == |history| - 1 && Holds(disk, Target, version)
      ensures r.Err? ==> (r.error == Io && faults > old(faults)) ||
                         (r.error == ExportFailed && SomeFailed(outcomes, |old(outcomes)|)) ||
                         Refuses(old(disk), judge, r.error) || Unfit(judge(Gen(version))) == Some(r.error)
    {
      r := ExportServices(Staged(suffix), version, services);
      exported, switch := r.Ok?, |history|;
      if r.Err? { return; }
      assert Selected(disk) == Selected(old(disk));
      ghost var staged := disk;
      r, switch := ReplaceDirectory(Staged(suffix), judge);
      if r.Err? && Refuses(staged, judge, r.error) {
        RefusesFrame(staged, old(disk), judge, r.error);
      }
    }

    // -------------------------------------------------------------------
    // Whole runs
    // -------------------------------------------------------------------

    /** What a crash can leave stands for one of these. */
    ghost predicate StandsFor(allowed: set<Option<nat>>)
      reads this
    {
      forall i | durable <= i < |history| :: Selected(history[i]) in allowed
    }

    method Act(action: Action, judge: Judge, ghost earlier: set<Option<nat>>) returns (reply: Reply)
      requires Valid() && Sound(judge)
      modifies this
      ensures Valid()
      ensures Faithful(judge) && old(StandsFor(earlier)) ==> StandsFor(After(action, reply, earlier))
      ensures AllClean(old(history), old(durable)) ==> AllClean(history, durable)
      ensures genuine <= old(genuine) + if action.Save? && reply.exported then {action.version} else {}
    {
      match action {
        case Crash =>
          Crash();
          CrashMeans(old(history), old(durable), disk);
          reply := Reply(true, true);
        case Load(deadline, services, suffix) =>
          var r := LoadBefore(judge, deadline, services, suffix);
          reply := Reply(r.Ok?, true);
        case Save(version, services, suffix) =>
          ghost var switch;
          var r, exported;
          r, exported, switch := Save(judge, version, services, suffix);
          reply := Reply(r.Ok?, exported);
      }
    }

    /** Any sequence of loads, saves and crashes: what a crash can leave always
        stands for the last acknowledged save or one attempted since, unless a read
        error made a complete generation look damaged, and stays clean if the root
        was. Read errors or not, its complete generations outside staging were there
        at first or got past their exports, and no legacy backup appears. */
    method Live(script: seq<Action>, judges: seq<Judge>) returns (replies: seq<Reply>)
      requires Valid() && durable == |history| - 1
      requires |judges| == |script| && forall n | 0 <= n < |judges| :: Sound(judges[n])
      modifies this
      ensures Valid() && |replies| == |script|
      ensures AllFaithful(judges) ==> StandsFor(Allowed(script, replies, Selected(old(disk))))
      ensures Clean(old(disk)) ==> AllClean(history, durable)
      ensures forall i | durable <= i < |history| ::
                Confined(history[i], old(genuine) + Exported(script, replies), bare)
    {
      replies := [];
      for n := 0 to |script|
        invariant Valid() && |replies| == n
        invariant AllFaithful(judges) ==> StandsFor(Allowed(script[..n], replies, Selected(old(disk))))
        invariant Clean(old(disk)) ==> AllClean(history, durable)
        invariant genuine <= old(genuine) + Exported(script[..n], replies)
      {
        var reply := Act(script[n], judges[n], Allowed(script[..n], replies, Selected(old(disk))));
        assert script[..n + 1][..n] == script[..n];
        assert (replies + [reply])[..n] == replies;
        ExportedOn(script[..n], script[n], replies, reply);
        assert script[..n] + [script[n]] == script[..n + 1];
        replies := replies + [reply];
      }
      assert script[..|script|] == script;
    }
  }

  lemma ExportedOn(script: seq<Action>, action: Action, replies: seq<Reply>, reply: Reply)
    requires |script| == |replies|
    ensures Exported(script, replies) <= Exported(script + [action], replies + [reply])
    ensures action.Save? && reply.exported ==> action.version in Exported(script + [action], replies + [reply])
  {
    var all, answers := script + [action], replies + [reply];
    forall v | v in Exported(script, replies) ensures v in Exported(all, answers) {
      var i :| 0 <= i < |script| && script[i].Save? && replies[i].exported && script[i].version == v;
      assert all[i] == script[i] && answers[i] == replies[i];
    }
    assert all[|script|] == action && answers[|script|] == reply;
  }

  /** A crash leaves what one of the states stood for. */
  lemma CrashMeans(history: seq<Disk>, from: nat, disk: Disk)
    requires exists i | from <= i < |history| :: SameNonStaged(disk, history[i])
    ensures exists i | from <= i < |history| :: Selected(disk) == Selected(history[i])
    ensures AllClean(history, from) ==> Clean(disk)
  {
    var i :| from <= i < |history| && SameNonStaged(disk, history[i]);
    SelectedFrame(disk, history[i]);
  }

  predicate CompleteTarget(disk: Disk) { Target in disk && disk[Target].Gen? }

  ghost predicate SamePrevious(a: Disk, b: Disk) {
    (Previous in a <==> Previous in b) && (Previous in a ==> a[Previous] == b[Previous])
  }

  lemma OnlyPrevious(before: Disk, now: Disk)
    requires OnlySlot(now, before, Previous)
    ensures Target in before <==> Target in now
    ensures Target in now ==> now[Target] == before[Target]
  {
    assert Target in now - {Previous} <==> Target in before - {Previous};
    if Target in now { assert (now - {Previous})[Target] == (before - {Previous})[Target]; }
  }

  ghost predicate SameNonStaged(a: Disk, b: Disk) {
    forall s: Slot | !s.Staged? && (s in a || s in b) :: s in a && s in b && a[s] == b[s]
  }

  lemma OnlyStaged(before: Disk, now: Disk, s: Slot)
    requires s.Staged? && OnlySlot(now, before, s)
    ensures SameNonStaged(now, before) && Selected(now) == Selected(before)
    ensures forall t | t != s :: t in now <==> t in before
  {
    forall t: Slot | t != s ensures t in now <==> t in before
      ensures t in now ==> now[t] == before[t]
    {
      assert t in now - {s} <==> t in before - {s};
      if t in now { assert (now - {s})[t] == (before - {s})[t]; }
    }
    SelectedFrame(now, before);
  }

  /** States that differ in a staged slot only mean the same, are as clean, and have
      the same `.previous`. */
  lemma StagedSteps(before: Disk, history: seq<Disk>, from: nat, s: Slot)
    requires s.Staged? && 0 < from <= |history| && history[from - 1] == before
    requires forall i | from <= i < |history| :: OnlySlot(history[i], before, s)
    ensures forall i | from <= i < |history| :: Selected(history[i]) == Selected(before)
    ensures Clean(before) ==> AllClean(history, from)
    ensures KeptPrevious(history, from)
  {
    forall i | from <= i < |history|
      ensures Selected(history[i]) == Selected(before) && SameNonStaged(history[i], before)
    {
      OnlyStaged(before, history[i], s);
    }
  }

  /** The renames of recovery keep `.previous` or make it the target, and a clean root
      clean. */
  lemma RestoreSteps(disk: Disk, judge: Judge, failed: Slot, backup: Slot)
    requires Sound(judge) && failed.Failed? && (Target in disk ==> failed !in disk)
    requires IsBackup(disk, Some(backup)) && judge(disk[backup]) == Accept
    ensures var aside := SetAside(disk, failed);
            && PreviousStep(disk, aside) && backup in aside && PreviousStep(aside, Moved(aside, backup, Target))
            && (Clean(disk) ==> Clean(aside)) && Clean(Moved(aside, backup, Target))
  {
    BackupPresent(disk, Some(backup));
  }

  /** What recovery leads the disk through. */
  lemma RestoreHistory(before: seq<Disk>, history: seq<Disk>, disk: Disk, judge: Judge, failed: Slot, backup: Slot)
    requires before != [] && before[|before| - 1] == disk
    requires Sound(judge) && failed.Failed?
    requires IsBackup(disk, Some(backup)) && judge(disk[backup]) == Accept
    requires Target in disk ==> judge(disk[Target]) == Reject
    requires history != before ==> failed !in disk && backup in SetAside(disk, failed)
    requires var aside := SetAside(disk, failed);
             || history == before
             || (Target in disk && history == before + [aside])
             || history == (if Target in disk then before + [aside] else before) + [Moved(aside, backup, Target)]
    ensures KeptPrevious(history, |before|) && (Clean(disk) ==> AllClean(history, |before|))
    ensures Faithful(judge) ==> Selects(history, |before|, |history|, Selected(disk))
    ensures forall i | |before| <= i < |history| ::
              history[i] == SetAside(disk, failed) || history[i] == history[|history| - 1]
  {
    if history != before {
      RestoreSteps(disk, judge, failed, backup);
      if Faithful(judge) { RecoverySelects(disk, judge, failed, backup); }
    }
  }

  /** A complete target decides, whatever happens to one other slot. */
  lemma TargetWins(before: Disk, now: Disk, s: Slot)
    requires Target in before && before[Target].Gen? && s != Target && OnlySlot(now, before, s)
    ensures Target in now && now[Target] == before[Target]
    ensures Selected(now) == Selected(before) == Some(before[Target].version) && Clean(now)
  {
    assert Target in before - {s} && Target in now - {s};
    assert (before - {s})[Target] == (now - {s})[Target];
    SelectedTarget(before);
    SelectedTarget(now);
  }

  /** Renaming the target to `.previous` keeps what the disk stands for. */
  lemma TargetPreserved(disk: Disk)
    requires Target in disk && Previous !in disk
    ensures Selected(Moved(disk, Target, Previous)) == Selected(disk)
  {
    SelectedPrevious(Moved(disk, Target, Previous));
    if disk[Target].Gen? { SelectedTarget(disk); } else { SelectedNone(disk); }
  }

  lemma TwoLegacies(disk: Disk, a: Slot, b: Slot)
    requires a in disk && b in disk && a.Legacy? && b.Legacy? && a != b
    ensures !NoLegacy(disk) && forall s :: !IsSoleLegacy(disk, s)
  {}

  /** A `.failed.*` name not in use. */
  ghost function Unused(disk: Disk): (s: Slot)
    ensures s.Failed? && s !in disk
  {
    UnusedExists(disk, 0);
    var id: nat :| Failed(id) !in disk;
    Failed(id)
  }

  lemma UnusedExists(disk: Disk, from: nat)
    ensures exists id: nat :: id >= from && Failed(id) !in disk
    decreases |disk|
  {
    if Failed(from) in disk {
      var smaller := disk - {Failed(from)};
      UnusedExists(smaller, from + 1);
      var id: nat :| id >= from + 1 && Failed(id) !in smaller;
      assert Failed(id) !in disk;
    }
  }
}
