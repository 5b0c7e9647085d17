/** The self-update transaction: a journal, a staged file, a backup and the live executable, with a crash or a failure
    possible at every step that touches the disk. */
module UpdateJournal {
  import opened Wrappers

  /** Two executables with the same contents are the same release. */
  type Release = nat

  datatype Content = Partial | Whole(release: Release)

  datatype Path = Executable | Backup | BackupTemp | Staged(number: nat)

  datatype Phase = StagedPhase | Replaced | Restarted | Healthy | RollingBack | RolledBack | Committed

  datatype Transaction = Transaction(
    phase: Phase, staged: Option<Path>, backup: Option<Path>, previous: Release, target: Release, error: bool)

  datatype Service = NoService | Stopped | Running

  datatype Status = Done | Failed | Crashed

  /** The disk, what the service was last started from, and what is going to happen to the next steps: each one
      succeeds or fails, and where the schedule ends the program crashes. Temporary names are numbered in the order they
      are handed out. */
  datatype World = World(
    files: map<Path, Content>, journal: Option<Transaction>, next: nat, serving: Option<Content>, schedule: seq<bool>)

  // ---------- One step on the disk ----------

  function Take(w: World): (World, Status) {
    if w.schedule == [] then (w, Crashed)
    else (w.(schedule := w.schedule[1..]), if w.schedule[0] then Done else Failed)
  }

  /** The journal is written beside its place and renamed into it. */
  function SaveStep(w: World, tx: Transaction): (World, Status) {
    var (w1, s) := Take(w);
    (if s == Done then w1.(journal := Some(tx)) else w1, s)
  }

  function RemoveStep(w: World, path: Path): (World, Status) {
    var (w1, s) := Take(w);
    (if s == Done then w1.(files := w1.files - {path}) else w1, s)
  }

  function RenameStep(w: World, from: Path, to: Path): (World, Status) {
    var (w1, s) := Take(w);
    if s != Done then (w1, s)
    else if from !in w1.files then (w1, Failed)
    else (w1.(files := (w1.files - {from})[to := w1.files[from]]), Done)
  }

  /** Creating a file that must not exist yet. */
  function CreateStep(w: World, path: Path): (World, Status) {
    var (w1, s) := Take(w);
    if s != Done then (w1, s)
    else if path in w1.files then (w1, Failed)
    else (w1.(files := w1.files[path := Partial]), Done)
  }

  function FillStep(w: World, path: Path, content: Content): (World, Status) {
    var (w1, s) := Take(w);
    (if s == Done then w1.(files := w1.files[path := content]) else w1, s)
  }

  function Lookup(files: map<Path, Content>, path: Path): Option<Content> {
    if path in files then Some(files[path]) else None
  }

  /** The service is started again, from the executable that is installed now. */
  function LaunchStep(w: World): (World, Status) {
    var (w1, s) := Take(w);
    (if s == Done then w1.(serving := Lookup(w1.files, Executable)) else w1, s)
  }

  /** A step of the error path: the operation has failed, whatever becomes of it. */
  function Failing(s: Status): Status { if s == Crashed then Crashed else Failed }

  // ---------- The operations ----------

  function CopyStep(w: World, source: Option<Content>, path: Path): (World, Status) {
    if source.None? then (w, Failed) else
      var (w1, s1) := CreateStep(w, path);
      if s1 != Done then (w1, s1) else FillStep(w1, path, source.value)
  }

  function StageStep(w: World, source: Option<Content>): (World, Status) {
    var path := Staged(w.next);
    var (w1, s1) := CreateStep(w.(next := w.next + 1), path);
    if s1 != Done then (w1, s1) else
      var (w2, s2) := RemoveStep(w1, path);
      if s2 != Done then (w2, s2) else
        var (w3, s3) := CopyStep(w2, source, path);
        if s3 != Failed then (w3, s3) else
          var (w4, s4) := RemoveStep(w3, path);
          (w4, Failing(s4))
  }

  function ReplaceStep(w: World, staged: Path): (World, Status) {
    var (w1, s1) := RemoveStep(w, BackupTemp);
    if s1 == Crashed then (w1, s1) else
      var (w2, s2) := CopyStep(w1, Lookup(w1.files, Executable), BackupTemp);
      if s2 != Done then (w2, s2) else
        var (w3, s3) := RenameStep(w2, BackupTemp, Backup);
        if s3 == Crashed then (w3, s3)
        else if s3 == Failed then
          var (w4, s4) := RemoveStep(w3, BackupTemp);
          (w4, Failing(s4))
        else RenameStep(w3, staged, Executable)
  }

  function SaveErrorStep(w: World, tx: Transaction): (World, Status) {
    var (w1, s) := SaveStep(w, tx.(error := true));
    (w1, Failing(s))
  }

  function RollbackStep(w: World, tx: Transaction): (World, Status) {
    if tx.backup.None? then (w, Failed) else
      var rolling := tx.(phase := RollingBack);
      var (w1, s1) := SaveStep(w, rolling);
      if s1 != Done then (w1, s1) else
        var (w2, s2) := StageStep(w1, Lookup(w1.files, tx.backup.value));
        if s2 == Crashed then (w2, s2)
        else if s2 == Failed then SaveErrorStep(w2, rolling)
        else
          var (w3, s3) := RenameStep(w2, Staged(w1.next), Executable);
          if s3 == Crashed then (w3, s3)
          else if s3 == Failed then SaveErrorStep(w3, rolling)
          else SaveStep(w3, tx.(phase := RolledBack, error := false))
  }

  function RecoverStep(w: World): (World, Status) {
    if w.journal.None? then (w, Done) else
      var tx := w.journal.value;
      match tx.phase
      case StagedPhase =>
        var (w1, s1) := if tx.staged.Some? then RemoveStep(w, tx.staged.value) else (w, Done);
        if s1 == Crashed then (w1, s1) else SaveStep(w1, tx.(phase := RolledBack))
      case Replaced | Restarted | RollingBack => RollbackStep(w, tx)
      case Healthy => SaveStep(w, tx.(phase := Committed))
      case RolledBack | Committed => (w, Done)
  }

  function RestoreStep(w: World, tx: Transaction, service: Service): (World, Status) {
    var (w1, s1) := RollbackStep(w, tx);
    if s1 != Done || service != Running then (w1, s1) else
      var (w2, s2) := LaunchStep(w1);
      if s2 != Done then (w2, s2) else Take(w2)
  }

  function NewTransaction(w: World, running: Release, target: Release): Transaction {
    Transaction(StagedPhase, Some(Staged(w.next)), Some(Backup), running, target, false)
  }

  /** Staging the downloaded release and journalling the transaction. */
  function PrepareStep(w: World, running: Release, target: Release): (World, Status) {
    var (w1, s1) := StageStep(w, Some(Whole(target)));
    if s1 != Done then (w1, s1) else
      var (w2, s2) := SaveStep(w1, NewTransaction(w, running, target));
      if s2 != Failed then (w2, s2) else
        var (w3, s3) := RemoveStep(w2, Staged(w.next));
        (w3, Failing(s3))
  }

  /** Restarting the service on the new executable and waiting for its health; any failure restores the previous one. */
  function RestartStep(w: World, tx: Transaction): (World, Status) {
    var (w1, s1) := LaunchStep(w);
    if s1 == Crashed then (w1, s1)
    else if s1 == Failed then
      var (r, sr) := RestoreStep(w1, tx.(error := true), Running);
      (r, Failing(sr))
    else
      var restarted := tx.(phase := Restarted);
      var (w2, s2) := SaveStep(w1, restarted);
      if s2 != Done then (w2, s2) else
        var (w3, s3) := Take(w2);
        if s3 == Crashed then (w3, s3)
        else if s3 == Failed then
          var (r, sr) := RestoreStep(w3, restarted.(error := true), Running);
          (r, Failing(sr))
        else SaveStep(w3, tx.(phase := Healthy))
  }

  /** Replacing the executable and bringing the service up on it. `service` is Running only if it is to be restarted. */
  function ActivateStep(w: World, tx: Transaction, service: Service): (World, Status)
    requires tx.staged.Some?
  {
    var (w1, s1) := ReplaceStep(w, tx.staged.value);
    if s1 == Crashed then (w1, s1)
    else if s1 == Failed then SaveErrorStep(w1, tx)
    else
      var replaced := tx.(phase := Replaced, staged := None);
      var (w2, s2) := SaveStep(w1, replaced);
      if s2 != Done then (w2, s2)
      else if service != Running then SaveStep(w2, replaced.(phase := Committed, error := false))
      else
        var (w3, s3) := RestartStep(w2, replaced);
        if s3 != Done then (w3, s3) else SaveStep(w3, replaced.(phase := Committed, error := false))
  }

  function InstallStep(w: World, running: Release, target: Release, service: Service): (World, Status) {
    var (w1, s1) := PrepareStep(w, running, target);
    if s1 != Done then (w1, s1) else ActivateStep(w1, NewTransaction(w, running, target), service)
  }

  /** The update command, run by the release `running`: recovery first, then the installation unless the running
      release is the latest one. */
  function UpdateStep(w: World, running: Release, latest: Release, force: bool, service: Service): (World, Status) {
    var (w1, s1) := RecoverStep(w);
    if s1 != Done || (running == latest && !force) then (w1, s1)
    else InstallStep(w1, running, latest, service)
  }

  /** The update command with its rollback flag. */
  function RollbackCommandStep(w: World, service: Service): (World, Status) {
    if w.journal.None? then (w, Failed) else RestoreStep(w, w.journal.value, service)
  }

  // ---------- The same operations, in place ----------

  class Installation {
    var files: map<Path, Content>
    var journal: Option<Transaction>
    var next: nat
    var serving: Option<Content>
    var schedule: seq<bool>

    ghost function View(): World
      reads this
    {
      World(files, journal, next, serving, schedule)
    }

    constructor (disk: World)
      ensures View() == disk
    {
      files, journal, next := disk.files, disk.journal, disk.next;
      serving, schedule := disk.serving, disk.schedule;
    }

    method Attempt() returns (s: Status)
      modifies this`schedule
      ensures (View(), s) == Take(old(View()))
    {
      if schedule == [] {
        return Crashed;
      }
      s := if schedule[0] then Done else Failed;
      schedule := schedule[1..];
    }

    method Save(tx: Transaction) returns (s: Status)
      modifies this
      ensures (View(), s) == SaveStep(old(View()), tx)
    {
      s := Attempt();
      if s == Done {
        journal := Some(tx);
      }
    }

    method Remove(path: Path) returns (s: Status)
      modifies this
      ensures (View(), s) == RemoveStep(old(View()), path)
    {
      s := Attempt();
      if s == Done {
        files := files - {path};
      }
    }

    method Rename(from: Path, to: Path) returns (s: Status)
      modifies this
      ensures (View(), s) == RenameStep(old(View()), from, to)
    {
      s := Attempt();
      if s != Done {
        return;
      }
      if from !in files {
        return Failed;
      }
      files := (files - {from})[to := files[from]];
    }

    method Create(path: Path) returns (s: Status)
      modifies this
      ensures (View(), s) == CreateStep(old(View()), path)
    {
      s := Attempt();
      if s != Done {
        return;
      }
      if path in files {
        return Failed;
      }
      files := files[path := Partial];
    }

    method Fill(path: Path, content: Content) returns (s: Status)
      modifies this
      ensures (View(), s) == FillStep(old(View()), path, content)
    {
      s := Attempt();
      if s == Done {
        files := files[path := content];
      }
    }

    method Launch() returns (s: Status)
      modifies this
      ensures (View(), s) == LaunchStep(old(View()))
    {
      s := Attempt();
      if s == Done {
        serving := Lookup(files, Executable);
      }
    }

    method CopyExecutable(source: Option<Content>, path: Path) returns (s: Status)
      modifies this
      ensures (View(), s) == CopyStep(old(View()), source, path)
    {
      if source.None? {
        return Failed;
      }
      s := Create(path);
      if s != Done {
        return;
      }
      s := Fill(path, source.value);
    }

    method StageExecutable(source: Option<Content>) returns (s: Status, path: Path)
      modifies this
      ensures (View(), s) == StageStep(old(View()), source) && path == Staged(old(next))
    {
      hide CreateStep, RemoveStep, CopyStep;
      path := Staged(next);
      next := next + 1;
      s := Create(path);
      if s != Done {
        return;
      }
      s := Remove(path);
      if s != Done {
        return;
      }
      s := CopyExecutable(source, path);
      if s == Failed {
        s := Remove(path);
        s := Failing(s);
      }
    }

    method ReplaceWithBackup(staged: Path) returns (s: Status)
      modifies this
      ensures (View(), s) == ReplaceStep(old(View()), staged)
    {
      hide RemoveStep, CopyStep, RenameStep;
      s := Remove(BackupTemp);
      if s == Crashed {
        return;
      }
      s := CopyExecutable(Lookup(files, Executable), BackupTemp);
      if s != Done {
        return;
      }
      s := Rename(BackupTemp, Backup);
      if s == Crashed {
        return;
      }
      if s == Failed {
        s := Remove(BackupTemp);
        return Failing(s);
      }
      s := Rename(staged, Executable);
    }

    method SaveError(tx: Transaction) returns (s: Status)
      modifies this
      ensures (View(), s) == SaveErrorStep(old(View()), tx)
    {
      s := Save(tx.(error := true));
      s := Failing(s);
    }

    method RollbackExecutable(tx: Transaction) returns (s: Status)
      modifies this
      ensures (View(), s) == RollbackStep(old(View()), tx)
    {
      hide SaveStep, StageStep, RenameStep, SaveErrorStep;
      if tx.backup.None? {
        return Failed;
      }
      var rolling := tx.(phase := RollingBack);
      s := Save(rolling);
      if s != Done {
        return;
      }
      var staged;
      s, staged := StageExecutable(Lookup(files, tx.backup.value));
      if s == Crashed {
        return;
      }
      if s == Failed {
        s := SaveError(rolling);
        return;
      }
      s := Rename(staged, Executable);
      if s == Crashed {
        return;
      }
      if s == Failed {
        s := SaveError(rolling);
        return;
      }
      s := Save(tx.(phase := RolledBack, error := false));
    }

    method RecoverInterrupted() returns (s: Status)
      modifies this
      ensures (View(), s) == RecoverStep(old(View()))
    {
      hide SaveStep, RemoveStep, RollbackStep;
      if journal.None? {
        return Done;
      }
      var tx := journal.value;
      match tx.phase
      case StagedPhase =>
        if tx.staged.Some? {
          s := Remove(tx.staged.value);
          if s == Crashed {
            return;
          }
        }
        s := Save(tx.(phase := RolledBack));
      case Replaced | Restarted | RollingBack =>
        s := RollbackExecutable(tx);
      case Healthy =>
        s := Save(tx.(phase := Committed));
      case RolledBack | Committed =>
        s := Done;
    }

    method RestorePrevious(tx: Transaction, service: Service) returns (s: Status)
      modifies this
      ensures (View(), s) == RestoreStep(old(View()), tx, service)
    {
      hide RollbackStep, LaunchStep, Take;
      s := RollbackExecutable(tx);
      if s != Done || service != Running {
        return;
      }
      s := Launch();
      if s != Done {
        return;
      }
      s := Attempt();
    }

    method Prepare(running: Release, target: Release) returns (s: Status, tx: Transaction)
      modifies this
      ensures (View(), s) == PrepareStep(old(View()), running, target)
      ensures tx == NewTransaction(old(View()), running, target)
    {
      hide StageStep, SaveStep, RemoveStep;
      var staged;
      s, staged := StageExecutable(Some(Whole(target)));
      tx := Transaction(StagedPhase, Some(staged), Some(Backup), running, target, false);
      if s != Done {
        return;
      }
      s := Save(tx);
      if s == Failed {
        s := Remove(staged);
        s := Failing(s);
      }
    }

    method RestartService(tx: Transaction) returns (s: Status)
      modifies this
      ensures (View(), s) == RestartStep(old(View()), tx)
    {
      hide SaveStep, RestoreStep, LaunchStep, Take;
      s := Launch();
      if s == Crashed {
        return;
      }
      if s == Failed {
        s := RestorePrevious(tx.(error := true), Running);
        return Failing(s);
      }
      var restarted := tx.(phase := Restarted);
      s := Save(restarted);
      if s != Done {
        return;
      }
      s := Attempt();
      if s == Crashed {
        return;
      }
      if s == Failed {
        s := RestorePrevious(restarted.(error := true), Running);
        return Failing(s);
      }
      s := Save(tx.(phase := Healthy));
    }

    method Activate(tx: Transaction, service: Service) returns (s: Status)
      requires tx.staged.Some?
      modifies this
      ensures (View(), s) == ActivateStep(old(View()), tx, service)
    {
      hide ReplaceStep, SaveStep, SaveErrorStep, RestartStep;
      s := ReplaceWithBackup(tx.staged.value);
      if s == Crashed {
        return;
      }
      if s == Failed {
        s := SaveError(tx);
        return;
      }
      var replaced := tx.(phase := Replaced, staged := None);
      s := Save(replaced);
      if s != Done {
        return;
      }
      if service == Running {
        s := RestartService(replaced);
        if s != Done {
          return;
        }
      }
      s := Save(replaced.(phase := Committed, error := false));
    }

    method Update(running: Release, latest: Release, force: bool, service: Service) returns (s: Status)
      modifies this
      ensures (View(), s) == UpdateStep(old(View()), running, latest, force, service)
    {
      hide RecoverStep, PrepareStep, ActivateStep;
      s := RecoverInterrupted();
      if s != Done || (running == latest && !force) {
        return;
      }
      var tx;
      s, tx := Prepare(running, latest);
      if s == Done {
        s := Activate(tx, service);
      }
    }

    method Rollback(service: Service) returns (s: Status)
      modifies this
      ensures (View(), s) == RollbackCommandStep(old(View()), service)
    {
      hide RestoreStep;
      if journal.None? {
        return Failed;
      }
      s := RestorePrevious(journal.value, service);
    }
  }
}
