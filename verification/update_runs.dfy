/** What every run of update, recovery and rollback commands keeps, with crashes and failures anywhere, recovery
    included. */
module UpdateRuns {
  import opened Wrappers
  import opened UpdateJournal

  // ---------- What each operation touches ----------

  ghost predicate SameBut(before: map<Path, Content>, after: map<Path, Content>, paths: set<Path>) {
    forall p :: p !in paths ==> Lookup(after, p) == Lookup(before, p)
  }

  /** Names still to be handed out are not in use. */
  ghost predicate NamesAreFresh(w: World) {
    forall n: nat :: Staged(n) in w.files ==> n < w.next
  }

  lemma CopyTouches(w: World, source: Option<Content>, path: Path)
    ensures var (w1, s) := CopyStep(w, source, path);
      && w1.journal == w.journal && w1.next == w.next && SameBut(w.files, w1.files, {path})
      && (s == Done ==> source.Some? && Lookup(w1.files, path) == source)
  {
  }

  /** Names stay fresh if nothing but names already handed out has come in. */
  lemma NamesStayFresh(w: World, w1: World, paths: set<Path>)
    requires NamesAreFresh(w) && SameBut(w.files, w1.files, paths) && w.next <= w1.next
    requires forall n: nat :: Staged(n) in paths ==> n < w1.next
    ensures NamesAreFresh(w1)
  {
    forall n: nat | Staged(n) in w1.files ensures n < w1.next {
      if Staged(n) !in paths { assert Lookup(w1.files, Staged(n)) == Lookup(w.files, Staged(n)); }
    }
  }

  lemma StageTouches(w: World, source: Option<Content>)
    requires NamesAreFresh(w)
    ensures var (w1, s) := StageStep(w, source);
      && w1.journal == w.journal && w1.next == w.next + 1 && SameBut(w.files, w1.files, {Staged(w.next)})
      && NamesAreFresh(w1) && (s == Done ==> source.Some? && Lookup(w1.files, Staged(w.next)) == source)
  {
    StageFiles(w, source);
    hide StageStep, SameBut, NamesAreFresh;
    NamesStayFresh(w, StageStep(w, source).0, {Staged(w.next)});
  }

  lemma StageFiles(w: World, source: Option<Content>)
    ensures var (w1, s) := StageStep(w, source);
      && w1.journal == w.journal && w1.next == w.next + 1 && SameBut(w.files, w1.files, {Staged(w.next)})
      && (s == Done ==> source.Some? && Lookup(w1.files, Staged(w.next)) == source)
  {
    hide CopyStep;
    var path := Staged(w.next);
    var w1 := CreateStep(w.(next := w.next + 1), path).0;
    CopyTouches(RemoveStep(w1, path).0, source, path);
  }

  lemma ReplaceTouches(w: World, staged: Path)
    requires staged.Staged? && NamesAreFresh(w) && staged in w.files
    ensures var (w1, s) := ReplaceStep(w, staged);
      && w1.journal == w.journal && w1.next == w.next && NamesAreFresh(w1)
      && SameBut(w.files, w1.files, {BackupTemp, Backup, staged, Executable})
      && (s == Done ==>
            Lookup(w1.files, Executable) == Lookup(w.files, staged)
              && Lookup(w1.files, Backup) == Lookup(w.files, Executable) != None)
      && (s != Done ==>
            Lookup(w1.files, Executable) == Lookup(w.files, Executable)
              && Lookup(w1.files, Backup) in {Lookup(w.files, Backup), Lookup(w.files, Executable)})
  {
    assert staged.number < w.next;
    ReplaceFiles(w, staged);
    hide ReplaceStep, SameBut, NamesAreFresh;
    NamesStayFresh(w, ReplaceStep(w, staged).0, {BackupTemp, Backup, staged, Executable});
  }

  lemma ReplaceFiles(w: World, staged: Path)
    requires staged.Staged? && staged in w.files
    ensures var (w1, s) := ReplaceStep(w, staged);
      && w1.journal == w.journal && w1.next == w.next
      && SameBut(w.files, w1.files, {BackupTemp, Backup, staged, Executable})
      && (s == Done ==>
            Lookup(w1.files, Executable) == Lookup(w.files, staged)
              && Lookup(w1.files, Backup) == Lookup(w.files, Executable) != None)
      && (s != Done ==>
            Lookup(w1.files, Executable) == Lookup(w.files, Executable)
              && Lookup(w1.files, Backup) in {Lookup(w.files, Backup), Lookup(w.files, Executable)})
  {
    hide CopyStep;
    var w1 := RemoveStep(w, BackupTemp).0;
    CopyTouches(w1, Lookup(w1.files, Executable), BackupTemp);
    var w2 := CopyStep(w1, Lookup(w1.files, Executable), BackupTemp).0;
    assert Lookup(w2.files, staged) == Lookup(w.files, staged);
    assert Lookup(w2.files, Executable) == Lookup(w.files, Executable);
    assert Lookup(w2.files, Backup) == Lookup(w.files, Backup);
  }

  ghost predicate SameTransaction(t: Transaction, tx: Transaction) {
    t.(phase := tx.phase, error := tx.error) == tx
  }

  lemma RollbackTouches(w: World, tx: Transaction)
    requires NamesAreFresh(w) && tx.backup == Some(Backup)
    ensures var (w1, s) := RollbackStep(w, tx);
      && NamesAreFresh(w1) && w.next <= w1.next && SameBut(w.files, w1.files, {Staged(w.next), Executable})
      && Lookup(w1.files, Executable) in {Lookup(w.files, Executable), Lookup(w.files, Backup)}
      && (s == Done ==> && w1.journal == Some(tx.(phase := RolledBack, error := false))
                        && Lookup(w1.files, Executable) == Lookup(w.files, Backup) != None)
      && (s != Done ==>
          || (w1.journal == w.journal && Lookup(w1.files, Executable) == Lookup(w.files, Executable))
          || (w1.journal.Some? && w1.journal.value.phase == RollingBack && SameTransaction(w1.journal.value, tx)))
      && (Backup !in w.files ==> Lookup(w1.files, Executable) == Lookup(w.files, Executable))
  {
    hide StageStep;
    var w1 := SaveStep(w, tx.(phase := RollingBack)).0;
    StageTouches(w1, Lookup(w1.files, Backup));
    var after := RollbackStep(w, tx).0;
    var w2 := StageStep(w1, Lookup(w1.files, Backup)).0;
    assert Lookup(w2.files, Executable) == Lookup(w.files, Executable);
    forall n: nat | Staged(n) in after.files ensures n < after.next {
      assert Staged(n) in w2.files || Staged(n) in w.files;
    }
  }

  // ---------- The executable is always whole ----------

  /** The executable is a whole release, and so is the backup if there is one. */
  ghost predicate Sound(w: World) {
    && NamesAreFresh(w)
    && (exists r :: Lookup(w.files, Executable) == Some(Whole(r)))
    && (Backup in w.files ==> w.files[Backup].Whole?)
    && (w.journal.Some? ==>
          w.journal.value.backup == Some(Backup)
            && (w.journal.value.staged.Some? ==> w.journal.value.staged.value.Staged?))
  }

  function Installed(w: World): Release {
    if Executable in w.files && w.files[Executable].Whole? then w.files[Executable].release else 0
  }

  lemma RollbackKeepsSound(w: World, tx: Transaction)
    requires Sound(w) && tx.backup == Some(Backup) && (tx.staged.Some? ==> tx.staged.value.Staged?)
    ensures Sound(RollbackStep(w, tx).0)
  {
    hide RollbackStep;
    RollbackTouches(w, tx);
    var w1 := RollbackStep(w, tx).0;
    assert Lookup(w1.files, Backup) == Lookup(w.files, Backup);
    if Lookup(w1.files, Executable) != Lookup(w.files, Executable) {
      assert Lookup(w1.files, Executable) == Some(Whole(w.files[Backup].release));
    }
  }

  lemma RestoreKeepsSound(w: World, tx: Transaction, service: Service)
    requires Sound(w) && tx.backup == Some(Backup) && (tx.staged.Some? ==> tx.staged.value.Staged?)
    ensures Sound(RestoreStep(w, tx, service).0)
  {
    hide RollbackStep;
    RollbackKeepsSound(w, tx);
  }

  lemma RecoverKeepsSound(w: World)
    requires Sound(w)
    ensures Sound(RecoverStep(w).0)
  {
    hide RollbackStep;
    if w.journal.Some? {
      RollbackKeepsSound(w, w.journal.value);
    }
  }

  lemma PrepareTouches(w: World, running: Release, target: Release)
    requires NamesAreFresh(w)
    ensures var (w1, s) := PrepareStep(w, running, target);
      && NamesAreFresh(w1) && SameBut(w.files, w1.files, {Staged(w.next)})
      && (s == Done ==>
            w1.journal == Some(NewTransaction(w, running, target))
              && Lookup(w1.files, Staged(w.next)) == Some(Whole(target)))
      && (s != Done ==> w1.journal == w.journal)
  {
    hide StageStep;
    StageTouches(w, Some(Whole(target)));
  }

  lemma PrepareKeepsSound(w: World, running: Release, target: Release)
    requires Sound(w)
    ensures Sound(PrepareStep(w, running, target).0)
  {
    hide PrepareStep;
    PrepareTouches(w, running, target);
    var w1 := PrepareStep(w, running, target).0;
    assert Lookup(w1.files, Executable) == Lookup(w.files, Executable);
    assert Lookup(w1.files, Backup) == Lookup(w.files, Backup);
  }

  // ---------- What the journal says of the files ----------

  /** `previous` is the release that the executable held when the journal's transaction was staged. */
  ghost predicate Agrees(w: World, previous: Release) {
    w.journal.Some? ==>
      var tx, exe, backup := w.journal.value, Lookup(w.files, Executable), Lookup(w.files, Backup);
      var was, target := Some(Whole(previous)), Some(Whole(tx.target));
      match tx.phase
      case StagedPhase | RolledBack => exe == was || (exe == target && backup == was)
      case Replaced | Restarted | Healthy | Committed => exe == target && backup == was
      case RollingBack => (exe == was || exe == target) && backup == was
  }

  datatype Command =
    | Update(latest: Release, force: bool, service: Service)
    | Recover
    | Rollback(service: Service)

  /** One start of the program, by the release that is installed then. */
  datatype Boot = Boot(command: Command, schedule: seq<bool>)

  datatype History = History(world: World, previous: Release)

  function Next(h: History, boot: Boot): (r: History) {
    var w := h.world.(schedule := boot.schedule);
    match boot.command
    case Recover => History(RecoverStep(w).0, h.previous)
    case Rollback(service) => History(RollbackCommandStep(w, service).0, h.previous)
    case Update(latest, force, service) =>
      var running := Installed(w);
      var (w1, s1) := RecoverStep(w);
      if s1 != Done || (running == latest && !force) then History(w1, h.previous) else
        var (w2, s2) := PrepareStep(w1, running, latest);
        if s2 != Done then History(w2, h.previous)
        else History(ActivateStep(w2, NewTransaction(w1, running, latest), service).0, Installed(w1))
  }

  lemma NextIsTheCommand(h: History, boot: Boot)
    requires boot.command.Update?
    ensures var w, c := h.world.(schedule := boot.schedule), boot.command;
      Next(h, boot).world == UpdateStep(w, Installed(w), c.latest, c.force, c.service).0
  {
    hide RecoverStep, PrepareStep, ActivateStep;
  }

  lemma ActivateKeepsSound(w: World, tx: Transaction, service: Service)
    requires Sound(w) && tx.staged.Some? && tx.staged.value.Staged? && tx.backup == Some(Backup)
    requires exists r :: Lookup(w.files, tx.staged.value) == Some(Whole(r))
    ensures Sound(ActivateStep(w, tx, service).0)
  {
    hide ReplaceStep, RestartStep;
    ReplaceTouches(w, tx.staged.value);
    var w1 := ReplaceStep(w, tx.staged.value).0;
    var replaced := tx.(phase := Replaced, staged := None);
    assert Sound(w1);
    RestartKeepsSound(SaveStep(w1, replaced).0, replaced);
  }

  lemma RestartKeepsSound(w: World, tx: Transaction)
    requires Sound(w) && tx.backup == Some(Backup) && tx.staged.None?
    ensures Sound(RestartStep(w, tx).0)
  {
    hide RestoreStep;
    var restarted := tx.(phase := Restarted);
    var w1 := LaunchStep(w).0;
    RestoreKeepsSound(w1, tx.(error := true), Running);
    RestoreKeepsSound(Take(SaveStep(w1, restarted).0).0, restarted.(error := true), Running);
  }

  lemma NextKeepsSound(h: History, boot: Boot)
    requires Sound(h.world)
    ensures Sound(Next(h, boot).world)
  {
    hide RecoverStep, PrepareStep, ActivateStep, RestoreStep, Sound;
    var w := h.world.(schedule := boot.schedule);
    ScheduleIsIrrelevant(h.world, boot.schedule);
    match boot.command
    case Recover => RecoverKeepsSound(w);
    case Rollback(service) =>
      if w.journal.Some? {
        JournalIsSound(w);
        RestoreKeepsSound(w, w.journal.value, service);
      }
    case Update(latest, force, service) =>
      var running, w1 := Installed(w), RecoverStep(w).0;
      RecoverKeepsSound(w);
      JournalIsSound(w1);
      PrepareKeepsSound(w1, running, latest);
      PrepareTouches(w1, running, latest);
      if PrepareStep(w1, running, latest).1 == Done {
        assert Lookup(PrepareStep(w1, running, latest).0.files, Staged(w1.next)) == Some(Whole(latest));
        ActivateKeepsSound(PrepareStep(w1, running, latest).0, NewTransaction(w1, running, latest), service);
      }
  }

  lemma ScheduleIsIrrelevant(w: World, schedule: seq<bool>)
    requires Sound(w)
    ensures Sound(w.(schedule := schedule))
  {
  }

  lemma JournalIsSound(w: World)
    requires Sound(w)
    ensures NamesAreFresh(w)
    ensures w.journal.Some? ==>
      w.journal.value.backup == Some(Backup)
        && (w.journal.value.staged.Some? ==> w.journal.value.staged.value.Staged?)
  {
  }

  function Run(h: History, boots: seq<Boot>): History {
    if boots == [] then h else Next(Run(h, boots[..|boots| - 1]), boots[|boots| - 1])
  }

  /** In every run of commands, with crashes and failures anywhere, the executable is one whole release. */
  lemma {:induction false} ExecutableIsAlwaysWhole(h: History, boots: seq<Boot>)
    requires Sound(h.world)
    ensures Sound(Run(h, boots).world)
    ensures exists r :: Lookup(Run(h, boots).world.files, Executable) == Some(Whole(r))
  {
    if boots != [] {
      ExecutableIsAlwaysWhole(h, boots[..|boots| - 1]);
      NextKeepsSound(Run(h, boots[..|boots| - 1]), boots[|boots| - 1]);
    }
  }

  // ---------- The executable is the previous or the next release ----------

  lemma RollbackKeepsAgreement(w: World, tx: Transaction, previous: Release)
    requires Sound(w) && Agrees(w, previous) && tx.backup == Some(Backup)
    requires Lookup(w.files, Backup) == Some(Whole(previous))
    requires Lookup(w.files, Executable) in {Some(Whole(previous)), Some(Whole(tx.target))}
    ensures Agrees(RollbackStep(w, tx).0, previous)
  {
    hide RollbackStep;
    RollbackTouches(w, tx);
    var w1 := RollbackStep(w, tx).0;
    assert Lookup(w1.files, Backup) == Lookup(w.files, Backup);
  }

  lemma RestoreKeepsAgreement(w: World, tx: Transaction, service: Service, previous: Release)
    requires Sound(w) && Agrees(w, previous) && tx.backup == Some(Backup)
    requires Lookup(w.files, Backup) == Some(Whole(previous))
    requires Lookup(w.files, Executable) in {Some(Whole(previous)), Some(Whole(tx.target))}
    ensures Agrees(RestoreStep(w, tx, service).0, previous)
  {
    hide RollbackStep;
    RollbackKeepsAgreement(w, tx, previous);
  }

  lemma RecoverKeepsAgreement(w: World, previous: Release)
    requires Sound(w) && Agrees(w, previous)
    ensures Agrees(RecoverStep(w).0, previous)
  {
    hide RollbackStep;
    if w.journal.Some? && w.journal.value.phase in {Replaced, Restarted, RollingBack} {
      RollbackKeepsAgreement(w, w.journal.value, previous);
    }
  }

  lemma RestartKeepsAgreement(w: World, tx: Transaction, previous: Release)
    requires Sound(w) && Agrees(w, previous) && w.journal == Some(tx)
    requires tx.phase == Replaced && tx.staged.None?
    ensures var (w1, s) := RestartStep(w, tx);
      Agrees(w1, previous) && (s == Done ==> w1.journal == Some(tx.(phase := Healthy)))
  {
    hide RestoreStep;
    var restarted := tx.(phase := Restarted);
    var w1 := LaunchStep(w).0;
    RestoreKeepsAgreement(w1, tx.(error := true), Running, previous);
    var w2 := SaveStep(w1, restarted).0;
    RestoreKeepsAgreement(Take(w2).0, restarted.(error := true), Running, previous);
  }

  lemma ActivateKeepsAgreement(w: World, tx: Transaction, service: Service)
    requires Sound(w) && w.journal == Some(tx) && tx.phase == StagedPhase
    requires tx.staged.Some? && Lookup(w.files, tx.staged.value) == Some(Whole(tx.target))
    ensures Agrees(ActivateStep(w, tx, service).0, Installed(w))
  {
    hide ReplaceStep, RestartStep;
    ReplaceTouches(w, tx.staged.value);
    var w1 := ReplaceStep(w, tx.staged.value).0;
    var replaced := tx.(phase := Replaced, staged := None);
    var w2 := SaveStep(w1, replaced).0;
    if SaveStep(w1, replaced).1 == Done && ReplaceStep(w, tx.staged.value).1 == Done {
      assert Sound(w2);
      RestartKeepsAgreement(w2, replaced, Installed(w));
    }
  }

  /** The rollback command restores the backup, so it is only safe where the backup is the previous release. */
  ghost predicate RollbackIsSafe(h: History) {
    h.world.journal.Some? ==> Lookup(h.world.files, Backup) == Some(Whole(h.previous))
  }

  lemma NextKeepsAgreement(h: History, boot: Boot)
    requires Sound(h.world) && Agrees(h.world, h.previous)
    requires boot.command.Rollback? ==> RollbackIsSafe(h)
    ensures Agrees(Next(h, boot).world, Next(h, boot).previous)
  {
    hide RecoverStep, PrepareStep, ActivateStep, RestoreStep;
    var w := h.world.(schedule := boot.schedule);
    match boot.command
    case Recover => RecoverKeepsAgreement(w, h.previous);
    case Rollback(service) =>
      if w.journal.Some? { RestoreKeepsAgreement(w, w.journal.value, service, h.previous); }
    case Update(latest, force, service) =>
      var running, w1 := Installed(w), RecoverStep(w).0;
      RecoverKeepsAgreement(w, h.previous);
      RecoverKeepsSound(w);
      InstallKeepsAgreement(w1, running, latest, service, h.previous);
  }

  lemma InstallKeepsAgreement(w: World, running: Release, latest: Release, service: Service, previous: Release)
    requires Sound(w) && Agrees(w, previous)
    ensures var (w1, s1) := PrepareStep(w, running, latest);
      if s1 == Done then Agrees(ActivateStep(w1, NewTransaction(w, running, latest), service).0, Installed(w))
      else Agrees(w1, previous)
  {
    hide PrepareStep, ActivateStep;
    PrepareTouches(w, running, latest);
    PrepareKeepsSound(w, running, latest);
    var w1 := PrepareStep(w, running, latest).0;
    assert Lookup(w1.files, Executable) == Lookup(w.files, Executable);
    assert Lookup(w1.files, Backup) == Lookup(w.files, Backup);
    if PrepareStep(w, running, latest).1 == Done {
      ActivateKeepsAgreement(w1, NewTransaction(w, running, latest), service);
    }
  }

  ghost predicate RollbacksAreSafe(h: History, boots: seq<Boot>) {
    boots == [] ||
      var n := |boots| - 1;
      RollbacksAreSafe(h, boots[..n]) && (boots[n].command.Rollback? ==> RollbackIsSafe(Run(h, boots[..n])))
  }

  /** In every run, the executable is the release that was installed when the journal's transaction was staged, or that
      transaction's target, and the journal's phase says which. */
  lemma {:induction false} ExecutableIsOldOrNew(h: History, boots: seq<Boot>)
    requires Sound(h.world) && Agrees(h.world, h.previous) && RollbacksAreSafe(h, boots)
    ensures var r := Run(h, boots);
      && Sound(r.world) && Agrees(r.world, r.previous)
      && (r.world.journal.Some? ==> Installed(r.world) in {r.previous, r.world.journal.value.target})
  {
    if boots != [] {
      var n := |boots| - 1;
      ExecutableIsOldOrNew(h, boots[..n]);
      NextKeepsSound(Run(h, boots[..n]), boots[n]);
      NextKeepsAgreement(Run(h, boots[..n]), boots[n]);
    }
  }

  // ---------- Recovery ----------

  predicate Settled(w: World) {
    w.journal.Some? ==> w.journal.value.phase in {RolledBack, Committed}
  }

  /** The release a recovery is going to leave installed, and the phase it is going to end in. */
  function Verdict(w: World, previous: Release): (Release, Phase) {
    if w.journal.None? then (Installed(w), Committed) else
      match w.journal.value.phase
      case Replaced | Restarted | RollingBack => (previous, RolledBack)
      case StagedPhase | RolledBack => (Installed(w), RolledBack)
      case Healthy | Committed => (Installed(w), Committed)
  }

  /** A recovery, completed or not, does not change the verdict; completed, it has carried it out. */
  lemma RecoveryFollowsVerdict(w: World, previous: Release)
    requires Sound(w) && Agrees(w, previous)
    ensures var (w1, s) := RecoverStep(w);
      && Verdict(w1, previous) == Verdict(w, previous)
      && (s == Done ==> && Settled(w1) && Installed(w1) == Verdict(w, previous).0
                        && (w1.journal.Some? ==> w1.journal.value.phase == Verdict(w, previous).1))
  {
    hide RollbackStep;
    if w.journal.Some? {
      var tx := w.journal.value;
      RollbackTouches(w, tx);
      if tx.phase in {Replaced, Restarted, RollingBack} {
        var w1 := RollbackStep(w, tx).0;
        assert Lookup(w1.files, Backup) == Lookup(w.files, Backup);
      }
    }
  }

  function Recoveries(w: World, schedules: seq<seq<bool>>): World {
    if schedules == [] then w
    else RecoverStep(Recoveries(w, schedules[..|schedules| - 1]).(schedule := schedules[|schedules| - 1])).0
  }

  lemma {:induction false} AttemptsKeepVerdict(w: World, schedules: seq<seq<bool>>, previous: Release)
    requires Sound(w) && Agrees(w, previous)
    ensures var r := Recoveries(w, schedules);
      Sound(r) && Agrees(r, previous) && Verdict(r, previous) == Verdict(w, previous)
  {
    hide RecoverStep, Sound, Agrees, Verdict;
    if schedules != [] {
      var n := |schedules| - 1;
      AttemptsKeepVerdict(w, schedules[..n], previous);
      var before := Recoveries(w, schedules[..n]);
      var r := before.(schedule := schedules[n]);
      NextAttempt(before, schedules[n], previous);
      RecoverKeepsSound(r);
      RecoverKeepsAgreement(r, previous);
      RecoveryFollowsVerdict(r, previous);
    }
  }

  lemma NextAttempt(w: World, schedule: seq<bool>, previous: Release)
    ensures Verdict(w.(schedule := schedule), previous) == Verdict(w, previous)
    ensures Sound(w) ==> Sound(w.(schedule := schedule))
    ensures Agrees(w, previous) ==> Agrees(w.(schedule := schedule), previous)
  {
  }

  /** After any number of recoveries cut short, a completed one restores the previous release from replaced, restarted
      and rolling-back, and keeps the target from healthy; it ends in rolled-back or committed. */
  lemma RecoveryEnds(w: World, schedules: seq<seq<bool>>, last: seq<bool>, previous: Release)
    requires Sound(w) && Agrees(w, previous) && w.journal.Some?
    requires RecoverStep(Recoveries(w, schedules).(schedule := last)).1 == Done
    ensures var r, phase := Recoveries(w, schedules + [last]), w.journal.value.phase;
      && r.journal.Some? && r.journal.value.phase in {RolledBack, Committed}
      && (phase in {Replaced, Restarted, RollingBack} ==>
            Installed(r) == previous && r.journal.value.phase == RolledBack)
      && (phase in {Healthy, Committed} ==>
            Installed(r) == w.journal.value.target && r.journal.value.phase == Committed)
      && (phase in {StagedPhase, RolledBack} ==> Installed(r) == Installed(w) && r.journal.value.phase == RolledBack)
  {
    var all := schedules + [last];
    assert all[..|all| - 1] == schedules;
    AttemptsKeepVerdict(w, schedules, previous);
    var before := Recoveries(w, schedules);
    NextAttempt(before, last, previous);
    RecoveryFollowsVerdict(before.(schedule := last), previous);
    JournalStays(w, all);
  }

  lemma RecoveryKeepsJournal(w: World)
    requires w.journal.Some?
    ensures RecoverStep(w).0.journal.Some?
  {
    hide RollbackStep;
    RollbackKeepsJournal(w, w.journal.value);
  }

  lemma RollbackKeepsJournal(w: World, tx: Transaction)
    requires w.journal.Some?
    ensures RollbackStep(w, tx).0.journal.Some?
  {
    hide StageStep;
    var w1 := SaveStep(w, tx.(phase := RollingBack)).0;
    StageKeepsJournal(w1, Lookup(w1.files, if tx.backup.Some? then tx.backup.value else Backup));
  }

  lemma StageKeepsJournal(w: World, source: Option<Content>)
    ensures StageStep(w, source).0.journal == w.journal
  {
  }

  lemma {:induction false} JournalStays(w: World, schedules: seq<seq<bool>>)
    requires w.journal.Some?
    ensures Recoveries(w, schedules).journal.Some?
  {
    hide RecoverStep;
    if schedules != [] {
      var n := |schedules| - 1;
      JournalStays(w, schedules[..n]);
      RecoveryKeepsJournal(Recoveries(w, schedules[..n]).(schedule := schedules[n]));
    }
  }

  /** A second recovery changes nothing. */
  lemma SecondRecoveryIsIdle(w: World, again: seq<bool>, previous: Release)
    requires Sound(w) && Agrees(w, previous) && RecoverStep(w).1 == Done
    ensures var r := RecoverStep(w).0.(schedule := again);
      RecoverStep(r) == (r, Done)
  {
    hide RollbackStep;
    RecoveryFollowsVerdict(w, previous);
  }

  /** A recovery in which no step fails completes, so the journal cannot get stuck. */
  lemma RecoveryCompletes(w: World, previous: Release)
    requires Sound(w) && Agrees(w, previous)
    requires |w.schedule| >= 7 && forall i :: 0 <= i < 7 ==> w.schedule[i]
    ensures RecoverStep(w).1 == Done
  {
    if w.journal.Some? && w.journal.value.phase in {Replaced, Restarted, RollingBack} {
      var tx := w.journal.value;
      var w1 := SaveStep(w, tx.(phase := RollingBack)).0;
      StagingCompletes(w1, Lookup(w1.files, Backup));
      var w2 := StageStep(w1, Lookup(w1.files, Backup)).0;
      assert RenameStep(w2, Staged(w1.next), Executable).1 == Done;
    }
  }

  lemma StagingCompletes(w: World, source: Option<Content>)
    requires NamesAreFresh(w) && source.Some? && |w.schedule| >= 4 && forall i :: 0 <= i < 4 ==> w.schedule[i]
    ensures var (w1, s) := StageStep(w, source);
      s == Done && Staged(w.next) in w1.files && w1.schedule == w.schedule[4..]
  {
  }

  // ---------- When "rolled back" does not mean "previous" ----------

  /** The transaction is journalled and its release staged; nothing has been replaced yet. */
  ghost predicate Prepared(w: World, tx: Transaction) {
    && Sound(w) && w.journal == Some(tx) && tx.phase == StagedPhase
    && tx.staged.Some? && Lookup(w.files, tx.staged.value) == Some(Whole(tx.target))
  }

  /** The steps up to the replacement of the executable succeed. Only the removal of a left-over temporary backup may
      fail, if there is none. */
  predicate Reaches(w: World) {
    && |w.schedule| >= 5 && (w.schedule[0] || BackupTemp !in w.files)
    && w.schedule[1] && w.schedule[2] && w.schedule[3] && w.schedule[4]
  }

  /** The executable is replaced, and the journal entry right after it is not written. */
  predicate InWindow(w: World) {
    Reaches(w) && (|w.schedule| == 5 || !w.schedule[5])
  }

  /** The replacement happens exactly when its five steps succeed. */
  lemma ReplacedIff(w: World, tx: Transaction)
    requires Prepared(w, tx)
    ensures var (w1, s) := ReplaceStep(w, tx.staged.value);
      && (s == Done <==> Reaches(w)) && (s == Done ==> w1.schedule == w.schedule[5..])
  {
    var w1, s1 := RemoveStep(w, BackupTemp).0, RemoveStep(w, BackupTemp).1;
    if s1 != Crashed {
      BackupIff(w1, tx.staged.value);
    }
  }

  lemma BackupIff(w: World, staged: Path)
    requires Executable in w.files && staged in w.files && staged.Staged?
    ensures var (w2, s2) := CopyStep(w, Lookup(w.files, Executable), BackupTemp);
      && (s2 == Done <==> |w.schedule| >= 2 && w.schedule[0] && w.schedule[1] && BackupTemp !in w.files)
      && (s2 == Done ==> w2.schedule == w.schedule[2..] && BackupTemp in w2.files && staged in w2.files)
  {
  }

  /** Activation leaves a staged journal over a replaced executable exactly in the window. */
  lemma WindowIff(w: World, tx: Transaction, service: Service)
    requires Prepared(w, tx) && Installed(w) != tx.target
    ensures var w1 := ActivateStep(w, tx, service).0;
      && w1.journal.Some?
      && (InWindow(w) <==> w1.journal.value.phase == StagedPhase && Installed(w1) == tx.target)
      && (!InWindow(w) && w1.journal.value.phase in {StagedPhase, RolledBack} ==> Installed(w1) == Installed(w))
  {
    hide ReplaceStep, RestartStep;
    ReplaceTouches(w, tx.staged.value);
    ReplacedIff(w, tx);
    var w1 := ReplaceStep(w, tx.staged.value).0;
    var replaced := tx.(phase := Replaced, staged := None);
    var w2 := SaveStep(w1, replaced).0;
    if w2.journal == Some(replaced) && ReplaceStep(w, tx.staged.value).1 == Done {
      assert Sound(w2);
      RestartRestoresBackup(w2, replaced, Installed(w));
    }
  }

  lemma RestartRestoresBackup(w: World, tx: Transaction, previous: Release)
    requires Sound(w) && w.journal == Some(tx) && tx.phase == Replaced && tx.staged.None?
    requires Lookup(w.files, Backup) == Some(Whole(previous))
    ensures var w1 := RestartStep(w, tx).0;
      && w1.journal.Some? && w1.journal.value.phase != StagedPhase
      && (w1.journal.value.phase == RolledBack ==> Installed(w1) == previous)
  {
    hide RestoreStep;
    var restarted := tx.(phase := Restarted);
    RestoreRestoresBackup(LaunchStep(w).0, tx.(error := true), previous);
    RestoreRestoresBackup(Take(SaveStep(LaunchStep(w).0, restarted).0).0, restarted.(error := true), previous);
  }

  lemma RestoreRestoresBackup(w: World, tx: Transaction, previous: Release)
    requires Sound(w) && w.journal.Some? && w.journal.value.phase in {Replaced, Restarted} && tx.backup == Some(Backup)
    requires Lookup(w.files, Backup) == Some(Whole(previous))
    ensures var w1 := RestoreStep(w, tx, Running).0;
      && w1.journal.Some? && w1.journal.value.phase != StagedPhase
      && (w1.journal.value.phase == RolledBack ==> Installed(w1) == previous)
  {
    hide RollbackStep;
    RollbackRestoresBackup(w, tx, previous);
  }

  lemma RollbackRestoresBackup(w: World, tx: Transaction, previous: Release)
    requires Sound(w) && w.journal.Some? && w.journal.value.phase in {Replaced, Restarted} && tx.backup == Some(Backup)
    requires Lookup(w.files, Backup) == Some(Whole(previous))
    ensures var w1 := RollbackStep(w, tx).0;
      && w1.journal.Some? && w1.journal.value.phase != StagedPhase
      && (w1.journal.value.phase == RolledBack ==> Installed(w1) == previous)
  {
    hide RollbackStep;
    RollbackTouches(w, tx);
  }

  /** Whatever crashes and failures an activation and the recoveries after it meet: once a recovery completes with the
      journal rolled back, the previous release is installed, unless the activation ended in the window. */
  lemma RolledBackMeansPreviousIff(
    w: World, tx: Transaction, service: Service, schedules: seq<seq<bool>>, last: seq<bool>)
    requires Prepared(w, tx) && Installed(w) != tx.target
    requires RecoverStep(Recoveries(ActivateStep(w, tx, service).0, schedules).(schedule := last)).1 == Done
    ensures var r := Recoveries(ActivateStep(w, tx, service).0, schedules + [last]);
      && r.journal.Some?
      && (InWindow(w) <==> r.journal.value.phase == RolledBack && Installed(r) != Installed(w))
  {
    hide ActivateStep, RecoverStep, Recoveries, InWindow;
    var w1, previous := ActivateStep(w, tx, service).0, Installed(w);
    ActivateKeepsAgreement(w, tx, service);
    ActivateKeepsSound(w, tx, service);
    WindowIff(w, tx, service);
    RecoveryEnds(w1, schedules, last, previous);
  }

  /** A crash right after the replacement: the journal ends rolled back over the new release. */
  lemma CrashInTheWindow(w: World, tx: Transaction, service: Service, all: seq<bool>)
    requires Prepared(w, tx) && Installed(w) != tx.target && w.schedule == [true, true, true, true, true]
    requires |all| >= 7 && forall i :: 0 <= i < 7 ==> all[i]
    ensures var r := RecoverStep(ActivateStep(w, tx, service).0.(schedule := all)).0;
      r.journal.Some? && r.journal.value.phase == RolledBack && Installed(r) == tx.target
  {
    hide ActivateStep, RecoverStep;
    var w1 := ActivateStep(w, tx, service).0;
    ActivateKeepsAgreement(w, tx, service);
    ActivateKeepsSound(w, tx, service);
    WindowIff(w, tx, service);
    NextAttempt(w1, all, Installed(w));
    RecoveryCompletes(w1.(schedule := all), Installed(w));
    RecoveryFollowsVerdict(w1.(schedule := all), Installed(w));
    RecoveryKeepsJournal(w1.(schedule := all));
  }

  // ---------- The rollback command ----------

  /** A completed rollback restores the previous release exactly if the backup holds it. */
  lemma RollbackRestoresPreviousIff(h: History, service: Service, schedule: seq<bool>)
    requires Sound(h.world)
    requires var w := h.world.(schedule := schedule); RollbackCommandStep(w, service).1 == Done
    ensures Installed(Next(h, Boot(Rollback(service), schedule)).world) == h.previous <==> RollbackIsSafe(h)
    ensures h.world.journal.Some?
  {
    hide RollbackStep;
    var w := h.world.(schedule := schedule);
    NextAttempt(h.world, schedule, h.previous);
    RollbackTouches(w, w.journal.value);
  }

  /** An update that crashes right after its journal entry leaves the backup of the update before it, so that a rollback
      is not safe: it would skip the release that the journal names as the previous one. */
  lemma RollbackAfterStagingIsUnsafe(h: History, latest: Release, service: Service, backup: Release)
    requires Sound(h.world) && Settled(h.world) && Lookup(h.world.files, Backup) == Some(Whole(backup))
    requires backup != Installed(h.world) && latest != Installed(h.world)
    ensures var h1 := Next(h, Boot(Update(latest, false, service), [true, true, true, true, true]));
      && h1.world.journal.Some? && h1.world.journal.value.previous == h1.previous == Installed(h.world)
      && !RollbackIsSafe(h1)
  {
    hide StageStep;
    var w := h.world.(schedule := [true, true, true, true, true]);
    assert RecoverStep(w) == (w, Done);
    StagingCompletes(w, Some(Whole(latest)));
    StageTouches(w, Some(Whole(latest)));
    var w1 := StageStep(w, Some(Whole(latest))).0;
    assert Lookup(w1.files, Backup) == Lookup(w.files, Backup);
    assert w1.schedule == [true];
  }

  // ---------- The running release after a recovery ----------

  /** The recovery at the start of an update changes the installed release, so that the update then goes on under the
      name of a release that is no longer installed. */
  predicate RecoveryReplaces(h: History) {
    h.world.journal.Some? && h.world.journal.value.phase in {Replaced, Restarted, RollingBack}
    && Installed(h.world) != h.previous
  }

  /** The version that a new transaction records as the previous one is the installed release exactly if the recovery
      before it has not replaced the executable. */
  lemma RecordedVersionIsInstalledIff(h: History, schedule: seq<bool>, target: Release)
    requires Sound(h.world) && Agrees(h.world, h.previous)
    requires RecoverStep(h.world.(schedule := schedule)).1 == Done
    ensures var w := RecoverStep(h.world.(schedule := schedule)).0;
      NewTransaction(w, Installed(h.world), target).previous == Installed(w) <==> !RecoveryReplaces(h)
  {
    hide RecoverStep;
    NextAttempt(h.world, schedule, h.previous);
    RecoveryFollowsVerdict(h.world.(schedule := schedule), h.previous);
  }

  /** An update that ends as "already up to date" leaves the latest release installed exactly if its recovery has not
      replaced the executable. */
  lemma UpToDateIff(h: History, schedule: seq<bool>, service: Service)
    requires Sound(h.world) && Agrees(h.world, h.previous)
    requires var w, latest := h.world.(schedule := schedule), Installed(h.world);
      UpdateStep(w, latest, latest, false, service).1 == Done
    ensures Installed(Next(h, Boot(Update(Installed(h.world), false, service), schedule)).world) == Installed(h.world)
      <==> !RecoveryReplaces(h)
  {
    hide RecoverStep;
    NextAttempt(h.world, schedule, h.previous);
    RecoveryFollowsVerdict(h.world.(schedule := schedule), h.previous);
  }
}
