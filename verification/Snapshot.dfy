/** Crash-safe publication and recovery of one named snapshot.

    A snapshot root is a map from directory slots to their contents. This module
    says which generation a state of the root stands for and what recovery makes of
    it; the steps that change the root are in `SnapshotRoot`. Archive validation is
    an oracle. */
module Snapshot {
  import opened Wrappers

  /** A directory: a complete generation, or anything that is not one. */
  datatype Dir = Gen(version: nat) | Damaged(tag: nat)

  /** `name`, `.name.previous`, `.name.bak.*`, `.name.failed.*`, and the staging
      directories `.name.tmp.*` and `.name.load.*`. */
  datatype Slot = Target | Previous | Legacy(id: nat) | Failed(id: nat) | Staged(id: nat)

  type Disk = map<Slot, Dir>

  datatype Error =
    | BudgetLimit | AmbiguousLegacy | InvalidGeneration | ImportFailed | ExportFailed | DeadlineExceeded | Io

  // ---------------------------------------------------------------------
  // The validation oracle
  // ---------------------------------------------------------------------

  datatype Verdict = Accept | Reject | OverBudget

  type Judge = Dir -> Verdict

  /** The error that a verdict stands for. */
  function Unfit(verdict: Verdict): Option<Error> {
    match verdict
    case Accept => None
    case OverBudget => Some(BudgetLimit)
    case Reject => Some(InvalidGeneration)
  }

  /** The oracle accepts only complete generations. A read error may make it reject
      one, and either kind may be too large for the budget of the run. */
  ghost predicate Sound(judge: Judge) {
    forall d :: judge(d) == Accept ==> d.Gen?
  }

  /** No read error: the oracle rejects only damaged directories. */
  ghost predicate Faithful(judge: Judge) {
    Sound(judge) && forall d :: judge(d) == Reject ==> d.Damaged?
  }

  /** A run whose budget fits everything. */
  ghost predicate Exact(judge: Judge) {
    forall d :: judge(d) == if d.Gen? then Accept else Reject
  }

  // ---------------------------------------------------------------------
  // What a disk state means
  // ---------------------------------------------------------------------

  predicate IsSoleLegacy(disk: Disk, s: Slot) {
    s.Legacy? && s in disk && forall t | t in disk && t.Legacy? :: t == s
  }

  predicate NoLegacy(disk: Disk) { forall t | t in disk :: !t.Legacy? }

  predicate Holds(disk: Disk, s: Slot, version: nat) { s in disk && disk[s] == Gen(version) }

  /** The generation a disk state stands for: the one recovery ends with. */
  ghost predicate Means(disk: Disk, version: nat) {
    if Target in disk && disk[Target].Gen? then Holds(disk, Target, version)
    else if Previous in disk then Holds(disk, Previous, version)
    else Target !in disk && exists s :: IsSoleLegacy(disk, s) && Holds(disk, s, version)
  }

  ghost function Selected(disk: Disk): Option<nat> {
    if exists v :: Means(disk, v) then var v :| Means(disk, v); Some(v) else None
  }

  lemma SelectedIff(disk: Disk, v: nat)
    ensures Selected(disk) == Some(v) <==> Means(disk, v)
  {}

  /** Whatever a recovery can reach by renaming is complete: the target, or without
      one the backup. A root nobody has saved to yet is one of these. */
  predicate Clean(disk: Disk) {
    && (Target in disk ==> disk[Target].Gen?)
    && (Target !in disk && Previous in disk ==> disk[Previous].Gen?)
  }

  /** Outside staging every complete generation is one of these; a bare root has no
      legacy backup. */
  predicate Confined(disk: Disk, genuine: set<nat>, bare: bool) {
    forall s | s in disk && !s.Staged? :: (disk[s].Gen? ==> disk[s].version in genuine) && (bare ==> !s.Legacy?)
  }

  ghost predicate SameCommitted(a: Disk, b: Disk) {
    forall s: Slot | (s in a || s in b) && (s == Target || s == Previous || s.Legacy?) ::
      s in a && s in b && a[s] == b[s]
  }

  /** Staged and failed directories mean nothing. */
  lemma SelectedFrame(a: Disk, b: Disk)
    requires SameCommitted(a, b)
    ensures Selected(a) == Selected(b)
  {
    forall v ensures Means(a, v) <==> Means(b, v) {
      if Target !in a && Previous !in a {
        forall s ensures IsSoleLegacy(a, s) <==> IsSoleLegacy(b, s) {}
      }
    }
    if Selected(a).Some? { SelectedIff(a, Selected(a).value); SelectedIff(b, Selected(a).value); }
    if Selected(b).Some? { SelectedIff(b, Selected(b).value); SelectedIff(a, Selected(b).value); }
  }

  lemma SelectedTarget(disk: Disk)
    requires Target in disk && disk[Target].Gen?
    ensures Selected(disk) == Some(disk[Target].version)
  {
    SelectedIff(disk, disk[Target].version);
  }

  lemma SelectedPrevious(disk: Disk)
    requires !(Target in disk && disk[Target].Gen?) && Previous in disk
    ensures Selected(disk) == if disk[Previous].Gen? then Some(disk[Previous].version) else None
  {
    if disk[Previous].Gen? { SelectedIff(disk, disk[Previous].version); }
    if Selected(disk).Some? { SelectedIff(disk, Selected(disk).value); }
  }

  lemma SelectedNone(disk: Disk)
    requires Previous !in disk
    requires if Target in disk then disk[Target].Damaged? else NoLegacy(disk)
    ensures Selected(disk) == None
  {}

  // ---------------------------------------------------------------------
  // Recovery, as a function
  // ---------------------------------------------------------------------

  function Moved(disk: Disk, from: Slot, to: Slot): Disk
    requires from in disk
  {
    (disk - {from})[to := disk[from]]
  }

  /** `b` is the backup recovery looks at. */
  ghost predicate IsBackup(disk: Disk, b: Option<Slot>) {
    if Previous in disk then b == Some(Previous)
    else if Target in disk then b == None
    else if b.None? then NoLegacy(disk)
    else IsSoleLegacy(disk, b.value)
  }

  ghost predicate Ambiguous(disk: Disk) { forall b :: !IsBackup(disk, b) }

  /** The state between the two renames. */
  ghost function SetAside(disk: Disk, failed: Slot): Disk {
    if Target in disk then Moved(disk, Target, failed) else disk
  }

  /** What recovery does when no file operation fails. */
  ghost function Recovered(disk: Disk, judge: Judge, failed: Slot): Result<Disk, Error>
  {
    if Ambiguous(disk) then Err(AmbiguousLegacy)
    else
      var b :| IsBackup(disk, b);
      if b.None? then Ok(disk)
      else if Target in disk && judge(disk[Target]) == Accept then Ok(disk)
      else if Target in disk && judge(disk[Target]) == OverBudget then Err(BudgetLimit)
      else if judge(disk[b.value]) == OverBudget then Err(BudgetLimit)
      else if judge(disk[b.value]) == Reject then Err(InvalidGeneration)
      else if b.value in SetAside(disk, failed) then Ok(Moved(SetAside(disk, failed), b.value, Target))
      else Err(Io)
  }

  lemma BackupUnique(disk: Disk, b: Option<Slot>, c: Option<Slot>)
    requires IsBackup(disk, b) && IsBackup(disk, c)
    ensures b == c
  {}

  lemma BackupPresent(disk: Disk, b: Option<Slot>)
    requires IsBackup(disk, b) && b.Some?
    ensures b.value in disk && b.value != Target && !b.value.Failed? && !b.value.Staged?
  {}

  /** The three states recovery goes through keep the selected generation. */
  lemma RecoverySelects(disk: Disk, judge: Judge, failed: Slot, b: Slot)
    requires Faithful(judge) && failed.Failed? && failed !in disk
    requires IsBackup(disk, Some(b)) && judge(disk[b]) == Accept
    requires Target in disk ==> judge(disk[Target]) == Reject
    ensures b in SetAside(disk, failed) && disk[b].Gen?
    ensures Selected(disk) == Some(disk[b].version)
    ensures Selected(SetAside(disk, failed)) == Selected(disk)
    ensures Selected(Moved(SetAside(disk, failed), b, Target)) == Selected(disk)
  {
    BackupPresent(disk, Some(b));
    var v := disk[b].version;
    var aside := SetAside(disk, failed);
    SelectedIff(disk, v);
    if b != Previous {
      assert IsSoleLegacy(disk, b) && aside == disk;
    }
    SelectedIff(aside, v);
    SelectedTarget(Moved(aside, b, Target));
  }

  /** Recovery of a state that means a generation ends with it as the target. */
  lemma RecoveryRestores(disk: Disk, judge: Judge, failed: Slot)
    requires Exact(judge) && failed.Failed? && failed !in disk
    requires Selected(disk).Some?
    ensures Recovered(disk, judge, failed).Ok?
    ensures Target in Recovered(disk, judge, failed).value
    ensures Recovered(disk, judge, failed).value[Target] == Gen(Selected(disk).value)
  {
    var v := Selected(disk).value;
    SelectedIff(disk, v);
    if Previous in disk {
      assert IsBackup(disk, Some(Previous));
    } else if Target in disk {
      assert IsBackup(disk, None);
    } else {
      var s :| IsSoleLegacy(disk, s) && Holds(disk, s, v);
      assert IsBackup(disk, Some(s));
    }
  }

  /** Exactly when recovery ends with a complete target: when the state means a
      generation. It reports success over a damaged target in one case only, a
      damaged target with no `.previous` beside it. */
  lemma RecoveryExact(disk: Disk, judge: Judge, failed: Slot)
    requires Exact(judge) && failed.Failed? && failed !in disk
    ensures var r := Recovered(disk, judge, failed);
            && (r.Ok? && Target in r.value && r.value[Target].Gen? <==> Selected(disk).Some?)
            && (r.Ok? && Target in r.value && r.value[Target].Damaged? <==>
                  Target in disk && disk[Target].Damaged? && Previous !in disk)
  {
    if Selected(disk).Some? {
      RecoveryRestores(disk, judge, failed);
    }
    var r := Recovered(disk, judge, failed);
    if r.Ok? && Target in r.value {
      var b :| IsBackup(disk, b);
      if r.value == disk {
        if disk[Target].Gen? { SelectedTarget(disk); }
      } else {
        BackupUnique(disk, b, b);
        RecoverySelects(disk, judge, failed, b.value);
      }
    }
    if Target in disk && disk[Target].Damaged? && Previous !in disk {
      assert IsBackup(disk, None);
      assert r == Ok(disk);
    }
  }

  /** From a clean state, recovery refuses or ends with the selected generation as its
      target, or with no target where none is selected; never with a damaged one. */
  lemma RecoveryClean(disk: Disk, judge: Judge, failed: Slot)
    requires Faithful(judge) && failed.Failed? && failed !in disk && Clean(disk)
    ensures var r := Recovered(disk, judge, failed);
            r.Ok? ==> Clean(r.value) && Selected(r.value) == Selected(disk)
    ensures var r := Recovered(disk, judge, failed);
            r.Ok? ==>
              if Target in r.value then Selected(disk) == Some(r.value[Target].version) else Selected(disk).None?
  {
    var r := Recovered(disk, judge, failed);
    if r.Ok? {
      var b :| IsBackup(disk, b);
      if Target in disk {
        SelectedTarget(disk);
      } else if b.None? {
        SelectedNone(disk);
      } else {
        RecoverySelects(disk, judge, failed, b.value);
        SelectedTarget(r.value);
      }
    }
  }

  /** Recovery replaces a target exactly when the oracle rejects it, because it is damaged
      or for a read error, and accepts the `.previous` beside it; it is then kept aside. */
  lemma RejectedTarget(disk: Disk, judge: Judge, failed: Slot)
    requires Sound(judge) && failed.Failed? && failed !in disk
    requires Target in disk
    ensures var r := Recovered(disk, judge, failed);
            r.Ok? && r.value != disk <==>
            Previous in disk && judge(disk[Target]) == Reject && judge(disk[Previous]) == Accept
    ensures var r := Recovered(disk, judge, failed);
            r.Err? <==>
            Previous in disk && judge(disk[Target]) != Accept
            && (judge(disk[Target]) == OverBudget || judge(disk[Previous]) != Accept)
    ensures var r := Recovered(disk, judge, failed);
            r.Ok? && r.value != disk ==>
              && r.value[failed] == disk[Target] && r.value[Target] == disk[Previous] && Previous !in r.value
              && (disk[Target].Gen? ==> Selected(disk) == Some(disk[Target].version))
              && Selected(r.value) == Some(disk[Previous].version)
  {
    assert IsBackup(disk, if Previous in disk then Some(Previous) else None);
    if disk[Target].Gen? { SelectedTarget(disk); }
    var r := Recovered(disk, judge, failed);
    if r.Ok? && r.value != disk { SelectedTarget(r.value); }
  }

  /** What an error stands for: of the target and the backup, the first that the oracle
      finds too large or that it had to accept; or two legacy backups and nothing else. */
  lemma RefusedBecause(disk: Disk, judge: Judge, failed: Slot)
    requires Sound(judge) && failed.Failed? && failed !in disk
    ensures Recovered(disk, judge, failed) == Err(AmbiguousLegacy) <==>
            Target !in disk && Previous !in disk &&
            exists a, b :: a in disk && b in disk && a.Legacy? && b.Legacy? && a != b
    ensures Recovered(disk, judge, failed) == Err(InvalidGeneration) <==>
            exists s :: IsBackup(disk, Some(s)) && judge(disk[s]) == Reject &&
                        (Target in disk ==> judge(disk[Target]) == Reject)
    ensures Recovered(disk, judge, failed) == Err(BudgetLimit) <==>
            exists s :: IsBackup(disk, Some(s)) &&
                        if Target in disk && judge(disk[Target]) != Reject then judge(disk[Target]) == OverBudget
                        else judge(disk[s]) == OverBudget
    ensures Recovered(disk, judge, failed).Err? ==>
              Recovered(disk, judge, failed).error in {AmbiguousLegacy, InvalidGeneration, BudgetLimit}
  {
    if Ambiguous(disk) {
      assert !IsBackup(disk, Some(Previous)) && !IsBackup(disk, None);
      assert !NoLegacy(disk);
      var a :| a in disk && a.Legacy?;
      assert !IsBackup(disk, Some(a));
      forall s ensures !IsBackup(disk, Some(s)) {}
    } else {
      var b :| IsBackup(disk, b);
      forall s | IsBackup(disk, Some(s)) ensures b == Some(s) { BackupUnique(disk, b, Some(s)); }
      if b.Some? { BackupPresent(disk, b); }
    }
  }

  /** Read errors or not, recovery brings up no generation that was not there; without
      read errors it does not refuse a clean root without legacy backups. */
  lemma RecoveryConfined(disk: Disk, judge: Judge, failed: Slot, genuine: set<nat>, bare: bool)
    requires Sound(judge) && failed.Failed? && failed !in disk && Confined(disk, genuine, bare)
    ensures var r := Recovered(disk, judge, failed);
            r.Ok? ==> Confined(r.value, genuine, bare)
    ensures bare && Clean(disk) && Exact(judge) ==> Recovered(disk, judge, failed).Ok?
  {
    var r := Recovered(disk, judge, failed);
    if bare {
      assert NoLegacy(disk) by {
        forall s | s in disk ensures !s.Legacy? { if !s.Staged? {} }
      }
      assert IsBackup(disk, if Previous in disk then Some(Previous) else None);
    }
    if r.Ok? && r.value != disk {
      var b :| IsBackup(disk, b);
      BackupPresent(disk, b);
    }
  }

  /** Recovery refuses with this error, whatever the name it would set a target aside under. */
  ghost predicate Refuses(disk: Disk, judge: Judge, error: Error) {
    error != Io && forall failed :: Recovered(disk, judge, failed) == Err(error)
  }

  /** Staged and failed directories have no say in it. */
  lemma RefusesFrame(a: Disk, b: Disk, judge: Judge, error: Error)
    requires SameCommitted(a, b) && Refuses(a, judge, error)
    ensures Refuses(b, judge, error)
  {
    forall c ensures IsBackup(a, c) <==> IsBackup(b, c) {
      if c.Some? { assert IsSoleLegacy(a, c.value) <==> IsSoleLegacy(b, c.value); }
      assert NoLegacy(a) <==> NoLegacy(b);
    }
    forall failed ensures Recovered(b, judge, failed) == Err(error) {
      assert Recovered(a, judge, failed) == Err(error);
      if !Ambiguous(b) {
        var c :| IsBackup(b, c);
        assert IsBackup(a, c);
        BackupUnique(a, c, c);
      }
    }
  }

  /** A crash between the two renames and a rerun reach the same disk. */
  lemma RecoveryRestartable(disk: Disk, judge: Judge, failed: Slot, again: Slot)
    requires failed.Failed? && failed !in disk && again.Failed? && again !in disk && again != failed
    requires Recovered(disk, judge, failed).Ok? && Recovered(disk, judge, failed).value != disk && Target in disk
    ensures Recovered(SetAside(disk, failed), judge, again) == Recovered(disk, judge, failed)
  {}

  ghost function Pick(disk: Disk): Slot
    requires disk != map[]
    ensures Pick(disk) in disk
  {
    var s :| s in disk;
    s
  }

  /** The contents of all slots, with multiplicity. */
  ghost function Contents(disk: Disk): multiset<Dir> {
    if disk == map[] then multiset{}
    else multiset{disk[Pick(disk)]} + Contents(disk - {Pick(disk)})
  }

  lemma {:induction false} ContentsRemove(disk: Disk, s: Slot)
    requires s in disk
    ensures Contents(disk) == multiset{disk[s]} + Contents(disk - {s})
    decreases |disk|
  {
    var t := Pick(disk);
    if t != s {
      var both := disk - {s} - {t};
      assert disk - {t} - {s} == both;
      ContentsRemove(disk - {t}, s);
      ContentsRemove(disk - {s}, t);
      assert Contents(disk - {t}) == multiset{disk[s]} + Contents(both);
      assert Contents(disk - {s}) == multiset{disk[t]} + Contents(both);
    }
  }

  lemma MovedRest(disk: Disk, from: Slot, to: Slot)
    requires from in disk && to !in disk
    ensures to in Moved(disk, from, to) && Moved(disk, from, to)[to] == disk[from]
    ensures Moved(disk, from, to) - {to} == disk - {from}
  {}

  lemma MovedContents(disk: Disk, from: Slot, to: Slot)
    requires from in disk && to !in disk
    ensures Contents(Moved(disk, from, to)) == Contents(disk)
  {
    var moved := Moved(disk, from, to);
    MovedRest(disk, from, to);
    ContentsRemove(disk, from);
    ContentsRemove(moved, to);
  }

  /** Recovery deletes nothing: it permutes the contents of the slots. */
  lemma RecoveryConserves(disk: Disk, judge: Judge, failed: Slot)
    requires failed.Failed? && failed !in disk && Recovered(disk, judge, failed).Ok?
    ensures Contents(Recovered(disk, judge, failed).value) == Contents(disk)
  {
    var r := Recovered(disk, judge, failed).value;
    if r != disk {
      var b :| IsBackup(disk, b);
      BackupPresent(disk, b);
      if Target in disk { MovedContents(disk, Target, failed); }
      MovedContents(SetAside(disk, failed), b.value, Target);
    }
  }
}
