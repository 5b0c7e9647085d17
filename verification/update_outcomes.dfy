/** How an update ends: what a completed one leaves behind for good, and that it completes when nothing fails. */
module UpdateOutcomes {
  import opened Wrappers
  import opened UpdateJournal
  import opened UpdateRuns

  // ---------- A completed update stays ----------

  /** The disk after a completed installation over `before`: the target over a backup of the release before it, no
      temporary backup, and every other file as it was. */
  function DiskAfter(before: map<Path, Content>, target: Release): map<Path, Content>
    requires Executable in before
  {
    (before - {BackupTemp})[Backup := before[Executable]][Executable := Whole(target)]
  }

  function FinalJournal(running: Release, target: Release): Transaction {
    Transaction(Committed, None, Some(Backup), running, target, false)
  }

  lemma {:induction false} CommittedStays(w: World, schedules: seq<seq<bool>>)
    requires w.journal.Some? && w.journal.value.phase == Committed
    ensures var r := Recoveries(w, schedules);
      r.files == w.files && r.journal == w.journal && r.serving == w.serving
  {
    if schedules != [] { CommittedStays(w, schedules[..|schedules| - 1]); }
  }

  lemma StagedDisk(w: World, source: Option<Content>)
    requires NamesAreFresh(w)
    ensures var (w1, s) := StageStep(w, source);
      s == Done ==> source.Some? && w1.files == w.files[Staged(w.next) := source.value] && Staged(w.next) !in w.files
  {
  }

  lemma ReplacedDisk(w: World, staged: Path)
    requires staged.Staged?
    ensures var (w1, s) := ReplaceStep(w, staged);
      s == Done ==>
        && staged in w.files && Executable in w.files
        && w1.files == (w.files - {BackupTemp, staged})[Backup := w.files[Executable]][Executable := w.files[staged]]
  {
    hide CopyStep;
    var w1 := RemoveStep(w, BackupTemp).0;
    CopiedDisk(w1, Lookup(w1.files, Executable), BackupTemp);
  }

  lemma CopiedDisk(w: World, source: Option<Content>, path: Path)
    ensures var (w1, s) := CopyStep(w, source, path);
      s == Done ==> source.Some? && path !in w.files && w1.files == w.files[path := source.value]
  {
  }

  lemma RestartKeepsFiles(w: World, tx: Transaction)
    ensures var (w1, s) := RestartStep(w, tx);
      s == Done ==> w1.files == w.files && w1.serving == Lookup(w.files, Executable)
  {
    hide RestoreStep;
  }

  lemma ReplaceKeepsService(w: World, staged: Path)
    ensures ReplaceStep(w, staged).0.serving == w.serving
  {
    var w1 := RemoveStep(w, BackupTemp).0;
    CopyKeepsService(w1, Lookup(w1.files, Executable), BackupTemp);
    hide CopyStep;
  }

  lemma CopyKeepsService(w: World, source: Option<Content>, path: Path)
    ensures CopyStep(w, source, path).0.serving == w.serving
  {
  }

  lemma StageKeepsService(w: World, source: Option<Content>)
    ensures StageStep(w, source).0.serving == w.serving
  {
  }

  lemma RollbackKeepsService(w: World, tx: Transaction)
    ensures RollbackStep(w, tx).0.serving == w.serving
  {
    var w1 := SaveStep(w, tx.(phase := RollingBack)).0;
    if tx.backup.Some? { StageKeepsService(w1, Lookup(w1.files, tx.backup.value)); }
    hide StageStep;
  }

  lemma RecoverKeepsService(w: World)
    ensures RecoverStep(w).0.serving == w.serving
  {
    hide RollbackStep;
    if w.journal.Some? { RollbackKeepsService(w, w.journal.value); }
  }

  lemma PrepareKeepsService(w: World, running: Release, target: Release)
    ensures PrepareStep(w, running, target).0.serving == w.serving
  {
    hide StageStep;
    StageKeepsService(w, Some(Whole(target)));
  }

  lemma PreparedReplacement(w: World, tx: Transaction)
    requires Prepared(w, tx)
    ensures var (w1, s) := ReplaceStep(w, tx.staged.value);
      && w1.serving == w.serving
      && (s == Done ==>
            && Executable in w.files && w1.files == DiskAfter(w.files - {tx.staged.value}, tx.target)
            && Lookup(w1.files, Executable) == Some(Whole(tx.target)))
  {
    ReplaceKeepsService(w, tx.staged.value);
    ReplacedDisk(w, tx.staged.value);
    hide ReplaceStep;
    assert w.files - {BackupTemp, tx.staged.value} == w.files - {tx.staged.value} - {BackupTemp};
  }

  lemma CompletedActivation(w: World, tx: Transaction, service: Service)
    requires Prepared(w, tx) && tx.backup == Some(Backup)
    ensures Executable in w.files && tx.staged.Some? && tx.staged.value.Staged?
    ensures var (w1, s) := ActivateStep(w, tx, service);
      s == Done ==>
        && w1.journal == Some(FinalJournal(tx.previous, tx.target))
        && w1.files == DiskAfter(w.files - {tx.staged.value}, tx.target)
        && w1.serving == if service == Running then Some(Whole(tx.target)) else w.serving
  {
    PreparedReplacement(w, tx);
    assert Executable in w.files && tx.staged.Some? && tx.staged.value.Staged?;
    hide ReplaceStep, RestartStep, DiskAfter, Prepared;
    var w1, replaced := ReplaceStep(w, tx.staged.value).0, tx.(phase := Replaced, staged := None);
    RestartKeepsFiles(SaveStep(w1, replaced).0, replaced);
  }

  lemma PreparedDisk(w: World, running: Release, target: Release)
    requires NamesAreFresh(w) && PrepareStep(w, running, target).1 == Done
    ensures PrepareStep(w, running, target).0.files == w.files[Staged(w.next) := Whole(target)]
    ensures Staged(w.next) !in w.files
  {
    hide StageStep;
    StagedDisk(w, Some(Whole(target)));
  }

  /** An update that installs and completes changes exactly this of what its recovery has left: the latest release is
      installed over a backup of the one before it, the journal is committed, and the service runs the latest release
      if it is to be restarted. No later recovery, completed or not, changes any of it. */
  lemma CompletedUpdateStays(w: World, running: Release, latest: Release, force: bool, service: Service,
                             schedules: seq<seq<bool>>)
    requires Sound(w) && (running != latest || force)
    requires UpdateStep(w, running, latest, force, service).1 == Done
    ensures var w1, before := UpdateStep(w, running, latest, force, service).0, RecoverStep(w).0.files;
      && w1.journal == Some(FinalJournal(running, latest))
      && Executable in before && w1.files == DiskAfter(before, latest)
      && w1.serving == (if service == Running then Some(Whole(latest)) else w.serving)
      && var r := Recoveries(w1, schedules); r.files == w1.files && r.journal == w1.journal && r.serving == w1.serving
  {
    hide RecoverStep, PrepareStep, ActivateStep;
    RecoverKeepsSound(w);
    RecoverKeepsService(w);
    var recovered := RecoverStep(w).0;
    PrepareTouches(recovered, running, latest);
    PrepareKeepsService(recovered, running, latest);
    PrepareKeepsSound(recovered, running, latest);
    PreparedDisk(recovered, running, latest);
    CompletedActivation(PrepareStep(recovered, running, latest).0, NewTransaction(recovered, running, latest), service);
    assert recovered.files[Staged(recovered.next) := Whole(latest)] - {Staged(recovered.next)} == recovered.files;
    CommittedStays(UpdateStep(w, running, latest, force, service).0, schedules);
  }

  // ---------- An update in which nothing fails completes ----------

  /** No step is going to fail, and there are at least n more. */
  ghost predicate Smooth(w: World, n: nat) {
    |w.schedule| >= n && forall i :: 0 <= i < |w.schedule| ==> w.schedule[i]
  }

  lemma SmoothStage(w: World, source: Option<Content>, n: nat)
    requires NamesAreFresh(w) && source.Some? && Smooth(w, n + 4)
    ensures var (w1, s) := StageStep(w, source); s == Done && Smooth(w1, n) && Staged(w.next) in w1.files
  {
  }

  lemma SmoothRollback(w: World, tx: Transaction, n: nat)
    requires NamesAreFresh(w) && tx.backup == Some(Backup) && Backup in w.files && Smooth(w, n + 7)
    ensures var (w1, s) := RollbackStep(w, tx); s == Done && Smooth(w1, n)
  {
    hide StageStep;
    var w1 := SaveStep(w, tx.(phase := RollingBack)).0;
    SmoothStage(w1, Lookup(w1.files, Backup), n + 2);
  }

  lemma SmoothRecovery(w: World, previous: Release, n: nat)
    requires Sound(w) && Agrees(w, previous) && Smooth(w, n + 7)
    ensures var (w1, s) := RecoverStep(w); s == Done && Smooth(w1, n)
  {
    hide RollbackStep;
    if w.journal.Some? && w.journal.value.phase in {Replaced, Restarted, RollingBack} {
      SmoothRollback(w, w.journal.value, n);
    }
  }

  lemma SmoothReplace(w: World, staged: Path, n: nat)
    requires Executable in w.files && staged in w.files && staged.Staged? && Smooth(w, n + 5)
    ensures var (w1, s) := ReplaceStep(w, staged); s == Done && Smooth(w1, n)
  {
    var w1 := RemoveStep(w, BackupTemp).0;
    var w2 := CopyStep(w1, Lookup(w1.files, Executable), BackupTemp).0;
    assert Smooth(w2, n + 2) && BackupTemp in w2.files && staged in w2.files;
    var w3 := RenameStep(w2, BackupTemp, Backup).0;
    assert Smooth(w3, n + 1) && staged in w3.files;
  }

  lemma SmoothActivation(w: World, tx: Transaction, service: Service, n: nat)
    requires Prepared(w, tx) && Smooth(w, n + 11)
    ensures var (w1, s) := ActivateStep(w, tx, service); s == Done
  {
    hide ReplaceStep;
    SmoothReplace(w, tx.staged.value, n + 6);
  }

  /** The longest update, with a rollback first and a restart at the end, takes 23 steps; where none of them fails, it
      completes. */
  lemma SmoothUpdateCompletes(w: World, running: Release, latest: Release, force: bool, service: Service,
                              previous: Release)
    requires Sound(w) && Agrees(w, previous)
    requires |w.schedule| >= 23 && forall i :: 0 <= i < |w.schedule| ==> w.schedule[i]
    ensures UpdateStep(w, running, latest, force, service).1 == Done
  {
    hide RecoverStep, PrepareStep, ActivateStep, Sound, Agrees;
    SmoothRecovery(w, previous, 16);
    RecoverKeepsSound(w);
    var recovered := RecoverStep(w).0;
    SmoothPreparation(recovered, running, latest, 11);
    SmoothActivation(PrepareStep(recovered, running, latest).0, NewTransaction(recovered, running, latest), service, 0);
  }

  lemma SmoothPreparation(w: World, running: Release, target: Release, n: nat)
    requires Sound(w) && Smooth(w, n + 5)
    ensures var (w1, s) := PrepareStep(w, running, target);
      s == Done && Smooth(w1, n) && Prepared(w1, NewTransaction(w, running, target))
  {
    PrepareTouches(w, running, target);
    PrepareKeepsSound(w, running, target);
    SmoothStage(w, Some(Whole(target)), n + 1);
    hide StageStep;
  }

  // ---------- A service that does not come up gets the previous release back ----------

  lemma RolledBackDisk(w: World, tx: Transaction)
    requires NamesAreFresh(w) && tx.backup == Some(Backup) && RollbackStep(w, tx).1 == Done
    ensures Backup in w.files && RollbackStep(w, tx).0.files == w.files[Executable := w.files[Backup]]
  {
    hide StageStep;
    var w1 := SaveStep(w, tx.(phase := RollingBack)).0;
    StagedDisk(w1, Lookup(w1.files, Backup));
  }

  /** A completed restoration puts the backup in place of the executable and changes no other file; the journal is rolled
      back, and a service that is running runs the backup. */
  lemma CompletedRestoration(w: World, tx: Transaction, service: Service)
    requires NamesAreFresh(w) && tx.backup == Some(Backup) && RestoreStep(w, tx, service).1 == Done
    ensures var w1 := RestoreStep(w, tx, service).0;
      && Backup in w.files && w1.files == w.files[Executable := w.files[Backup]]
      && w1.journal == Some(tx.(phase := RolledBack, error := false))
      && w1.serving == (if service == Running then Some(w.files[Backup]) else w.serving)
  {
    hide RollbackStep;
    RollbackTouches(w, tx);
    RollbackKeepsService(w, tx);
    RolledBackDisk(w, tx);
  }

  /** Only the step with this number fails. */
  ghost predicate FailsOnlyAt(w: World, n: nat) {
    n < |w.schedule| && forall i :: 0 <= i < |w.schedule| ==> (w.schedule[i] <==> i != n)
  }

  /** The steps of an activation up to the restart, if they succeed. */
  lemma ReachesRestart(w: World, tx: Transaction)
    requires Prepared(w, tx) && |w.schedule| >= 6 && forall i :: 0 <= i < 6 ==> w.schedule[i]
    ensures var (w1, s) := ReplaceStep(w, tx.staged.value);
      && s == Done && w1.schedule == w.schedule[5..] && NamesAreFresh(w1)
      && Lookup(w1.files, Backup) == Some(Whole(Installed(w)))
  {
    ReplacedIff(w, tx);
    ReplaceTouches(w, tx.staged.value);
    hide ReplaceStep;
  }

  /** If the new executable cannot be started, or does not become healthy, and nothing else fails, then the update fails
      with the previous release installed and running and the journal rolled back. */
  lemma FailedServiceIsRestored(w: World, tx: Transaction, failing: nat)
    requires Prepared(w, tx) && tx.backup == Some(Backup)
    requires failing in {6, 8} && FailsOnlyAt(w, failing) && |w.schedule| >= failing + 10
    ensures var (w1, s) := ActivateStep(w, tx, Running);
      && s == Failed && w1.journal == Some(tx.(phase := RolledBack, staged := None, error := false))
      && Lookup(w1.files, Executable) == Some(Whole(Installed(w))) == w1.serving
  {
    ReachesRestart(w, tx);
    hide ReplaceStep, RestartStep, Prepared;
    var w1, replaced := ReplaceStep(w, tx.staged.value).0, tx.(phase := Replaced, staged := None);
    var w2 := SaveStep(w1, replaced).0;
    assert w2.schedule == w.schedule[6..];
    FailedRestart(w2, replaced, failing - 6);
  }

  lemma FailedRestart(w: World, tx: Transaction, failing: nat)
    requires NamesAreFresh(w) && tx.backup == Some(Backup) && Backup in w.files
    requires failing in {0, 2} && FailsOnlyAt(w, failing) && |w.schedule| >= failing + 10
    ensures var (w1, s) := RestartStep(w, tx);
      && s == Failed && w1.journal == Some(tx.(phase := RolledBack, error := false))
      && Lookup(w1.files, Executable) == Lookup(w.files, Backup) == w1.serving
  {
    hide RestoreStep;
    var restarted := tx.(phase := Restarted);
    var (w', tx') := if failing == 0 then (LaunchStep(w).0, tx.(error := true))
                     else (Take(SaveStep(LaunchStep(w).0, restarted).0).0, restarted.(error := true));
    assert w'.files == w.files && w'.schedule == w.schedule[failing + 1..];
    SmoothRestoration(w', tx', Running);
    CompletedRestoration(w', tx', Running);
  }

  /** If the previous release cannot be started again, or does not become healthy, the restoration fails, with that
      release installed all the same. */
  lemma UnhealthyRestorationFails(w: World, tx: Transaction, failing: nat)
    requires NamesAreFresh(w) && tx.backup == Some(Backup) && Backup in w.files
    requires failing in {7, 8} && FailsOnlyAt(w, failing)
    ensures var (w1, s) := RestoreStep(w, tx, Running);
      && s == Failed && w1.files == w.files[Executable := w.files[Backup]]
      && w1.journal == Some(tx.(phase := RolledBack, error := false))
  {
    RollbackTakesSeven(w, tx);
    hide RollbackStep;
    RolledBackDisk(w, tx);
    RollbackTouches(w, tx);
  }

  lemma RollbackTakesSeven(w: World, tx: Transaction)
    requires NamesAreFresh(w) && tx.backup == Some(Backup) && Backup in w.files
    requires |w.schedule| >= 7 && forall i :: 0 <= i < 7 ==> w.schedule[i]
    ensures RollbackStep(w, tx).1 == Done && RollbackStep(w, tx).0.schedule == w.schedule[7..]
  {
    hide StageStep;
    var w1 := SaveStep(w, tx.(phase := RollingBack)).0;
    StagingCompletes(w1, Lookup(w1.files, Backup));
  }

  lemma SmoothRestoration(w: World, tx: Transaction, service: Service)
    requires NamesAreFresh(w) && tx.backup == Some(Backup) && Backup in w.files && Smooth(w, 9)
    ensures RestoreStep(w, tx, service).1 == Done
  {
    hide RollbackStep;
    SmoothRollback(w, tx, 2);
  }

  // ---------- Failures are cleaned up after and recorded ----------

  /** A recovery in which nothing fails removes the staged release of an update that was cut short before it replaced the
      executable, restores the backup after one that had, and otherwise leaves the disk alone. */
  lemma RecoveredDisk(w: World, previous: Release)
    requires Sound(w) && Agrees(w, previous) && Smooth(w, 7)
    ensures var (w1, s) := RecoverStep(w);
      && s == Done
      && w1.files ==
         if w.journal.None? then w.files else
           match w.journal.value.phase
           case StagedPhase =>
             if w.journal.value.staged.Some? then w.files - {w.journal.value.staged.value} else w.files
           case Replaced | Restarted | RollingBack => w.files[Executable := Whole(previous)]
           case _ => w.files
  {
    hide RollbackStep;
    SmoothRecovery(w, previous, 0);
    if w.journal.Some? && w.journal.value.phase in {Replaced, Restarted, RollingBack} {
      RolledBackDisk(w, w.journal.value);
    }
  }

  /** If the copy of a release cannot be made, nothing of it is left; only the placeholder that reserved its name stays
      if it cannot be removed. */
  lemma FailedStagingLeavesNothing(w: World, source: Option<Content>, failing: nat)
    requires NamesAreFresh(w) && failing in {0, 2, 3} && FailsOnlyAt(w, failing) && |w.schedule| >= 5
    ensures var (w1, s) := StageStep(w, source); s == Failed && w1.files == w.files
  {
  }

  /** If the staged release cannot be journalled, it is removed again. */
  lemma FailedJournalLeavesNothing(w: World, running: Release, target: Release)
    requires NamesAreFresh(w) && FailsOnlyAt(w, 4) && |w.schedule| >= 6
    ensures var (w1, s) := PrepareStep(w, running, target);
      s == Failed && w1.files == w.files && w1.journal == w.journal
  {
    StagingCompletes(w, Some(Whole(target)));
    StagedDisk(w, Some(Whole(target)));
  }

  /** If the executable cannot be replaced, it stays as it is, and the journal records the failure. */
  lemma FailedReplacementIsRecorded(w: World, tx: Transaction, service: Service, failing: nat)
    requires Prepared(w, tx) && failing in {1, 2, 3, 4} && FailsOnlyAt(w, failing) && |w.schedule| >= 6
    ensures var (w1, s) := ActivateStep(w, tx, service);
      && s == Failed && w1.journal == Some(tx.(error := true))
      && Lookup(w1.files, Executable) == Lookup(w.files, Executable)
  {
    ReplaceTouches(w, tx.staged.value);
    FailedReplacement(w, tx.staged.value, failing);
    hide ReplaceStep, RestartStep;
  }

  lemma FailedStagingGoesOn(w: World, source: Option<Content>, failing: nat)
    requires NamesAreFresh(w) && source.Some? && failing < 4 && FailsOnlyAt(w, failing) && |w.schedule| >= 6
    ensures var (w1, s) := StageStep(w, source);
      s == Failed && |w1.schedule| > 0 && w1.schedule[0]
  {
  }

  /** If a rollback cannot stage the backup, or cannot put it in place, the executable stays as it is, and the journal
      records that the rollback is under way and has failed. */
  lemma FailedRollbackIsRecorded(w: World, tx: Transaction, failing: nat)
    requires NamesAreFresh(w) && tx.backup == Some(Backup) && Backup in w.files
    requires failing in {1, 2, 3, 4, 5} && FailsOnlyAt(w, failing) && |w.schedule| >= 7
    ensures var (w1, s) := RollbackStep(w, tx);
      && s == Failed && w1.journal == Some(tx.(phase := RollingBack, error := true))
      && Lookup(w1.files, Executable) == Lookup(w.files, Executable)
  {
    hide StageStep;
    var w1 := SaveStep(w, tx.(phase := RollingBack)).0;
    var source := Lookup(w1.files, Backup);
    StageTouches(w1, source);
    assert w1.schedule == w.schedule[1..];
    if failing < 5 {
      FailedStagingGoesOn(w1, source, failing - 1);
    } else {
      StagingCompletes(w1, source);
      assert StageStep(w1, source).0.schedule == w.schedule[5..];
    }
  }

  lemma FailedReplacement(w: World, staged: Path, failing: nat)
    requires staged.Staged? && staged in w.files && Executable in w.files
    requires failing in {1, 2, 3, 4} && FailsOnlyAt(w, failing) && |w.schedule| >= 6
    ensures var (w1, s) := ReplaceStep(w, staged);
      s == Failed && |w1.schedule| > 0 && w1.schedule[0]
  {
    var w1 := RemoveStep(w, BackupTemp).0;
    var (w2, s2) := CopyStep(w1, Lookup(w1.files, Executable), BackupTemp);
    assert s2 == (if failing <= 2 then Failed else Done) && w2.schedule == w.schedule[if failing == 1 then 2 else 3..];
  }
}
