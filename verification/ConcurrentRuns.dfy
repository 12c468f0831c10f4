/** Whole runs of concurrent tasks: commands that run once, for packages that list their dependencies, and plugins
    that stay closed under them. */
module ConcurrentRuns {
  import opened Wrappers
  import opened PackageNames
  import opened Install
  import opened InstallLog
  import InstallClosure
  import opened ConcurrentTasks
  import R = RootWorker

  /* ---- Each command runs once ---- */

  /** The step that sends a command. */
  function StepOf(c: R.Command): nat {
    match c
    case AptGetUpdate(_) => 8
    case Install(_, _) => 9
    case UninstallPackage(_, _) => 2
  }

  /** The task may have sent its step's command: it holds the lock for it, or the step is over. */
  predicate HasSent(s: System, k: Task) {
    k.phase.Between? || k.phase.Ended? || k.phase.Abandoned?
        || (k.phase.Asking? && R.HoldsLock(R.CallerOf(s.root, k.thread)))
  }

  predicate IssuedBy(s: System, c: R.Command) {
    && c.uuid < |s.tasks|
    && var k := s.tasks[c.uuid];
    && StepOf(c) <= k.begun && CommandOf(c.uuid, k.(begun := StepOf(c))) == Some(c)
    && (k.begun == StepOf(c) ==> HasSent(s, k))
  }

  /** Whoever took the lock took it for its own command, and each command only once. */
  ghost predicate Issued(s: System) {
    && (forall p <- s.root.acquired :: IssuedBy(s, p.1))
    && (forall i, j | 0 <= i < j < |s.root.acquired| :: s.root.acquired[i].1 != s.root.acquired[j].1)
  }

  /** How one task may change without taking back what it sent. */
  predicate Advances(k: Task, k': Task) {
    && k'.kind == k.kind && k'.thread == k.thread
    && (k.begun >= 8 ==> k'.deb == k.deb)
    && (k'.begun > k.begun || (k'.begun == k.begun
        && (k'.phase == k.phase || k'.phase.Between? || k'.phase.Ended? || k'.phase.Abandoned? || !HasPassed(k))))
  }

  predicate HasPassed(k: Task) { k.phase.Between? || k.phase.Ended? || k.phase.Abandoned? || k.phase.Asking? }

  lemma EndAdvances(s: System, t: R.Thread, outcome: Outcome, u: Uuid)
    requires Linked(s) && Runs(s, t) && CanEnd(s, t) && Active(Running(s, t)) && u < |s.tasks|
    ensures u < |End(s, t, outcome).tasks| && Advances(s.tasks[u], End(s, t, outcome).tasks[u])
  {
    hide Closing, Placed;
    assert Active(Running(s, t)) ==> !Running(s, t).phase.Nested?;
  }

  lemma MoveAdvances(s: System, m: Move, u: Uuid)
    requires Enabled(s, m) && Linked(s) && u < |s.tasks|
    ensures u < |Apply(s, m).tasks| && Advances(s.tasks[u], Apply(s, m).tasks[u])
  {
    hide R.Apply, R.Enabled, EndsHere, Closing, Announcement, CommandOf, Linked, End;
    if EndOf(s, m).Some? {
      EndingMove(s, m);
      RunningIsActive(s);
      var s1 := s.(root := Apply(s, m).root);
      LinksIgnoreRoot(s, s1);
      EndAdvances(s1, MoverOf(m), EndOf(s, m).value, u);
    }
  }

  /** A thread in the lock stays there until its task's step is over. */
  lemma AskerKeepsLock(s: System, m: Move, u: Uuid)
    requires Inv(s) && Enabled(s, m) && u < |s.tasks| && u < |Apply(s, m).tasks|
    requires s.tasks[u].phase.Asking? && R.HoldsLock(R.CallerOf(s.root, s.tasks[u].thread))
    requires Apply(s, m).tasks[u].phase.Asking?
    ensures R.HoldsLock(R.CallerOf(Apply(s, m).root, s.tasks[u].thread))
  {
    hide R.Inv, Linked, Remembered, Traced, Asked, Vouched, Placed, EndsHere, Closing, Announcement, CommandOf;
    var t := s.tasks[u].thread;
    AskerIsRunning(s, u);
    if t != MoverOf(m) {
      OtherCallersStay(s, m, t);
    } else if m.Root? {
      LockSections(s.root, m.action);
    }
  }

  lemma AskerIsRunning(s: System, u: Uuid)
    requires Linked(s) && u < |s.tasks| && s.tasks[u].phase.Asking?
    ensures IsIn(s, s.tasks[u].thread, Asking) && s.current[s.tasks[u].thread] == u
  {
    hide Placed;
  }

  /** Only the sections that leave `send_cmd_and_wait` give up the lock. */
  lemma LockSections(root: R.State, a: R.Action)
    requires R.Enabled(root, a) && R.ByCaller(a) && R.HoldsLock(R.CallerOf(root, a.t))
    ensures !Leaves(root, a) ==> R.HoldsLock(R.CallerOf(R.Apply(root, a), a.t))
  {
  }

  lemma IssuedStays(s: System, m: Move, c: R.Command)
    requires Inv(s) && Enabled(s, m) && IssuedBy(s, c)
    ensures IssuedBy(Apply(s, m), c)
  {
    hide Inv, Apply, Enabled;
    InvIsLinked(s);
    MoveAdvances(s, m, c.uuid);
    var k, k' := s.tasks[c.uuid], Apply(s, m).tasks[c.uuid];
    if k.begun == StepOf(c) && k.phase.Asking? && k'.phase.Asking? { AskerKeepsLock(s, m, c.uuid); }
  }

  lemma InvIsLinked(s: System)
    requires Inv(s)
    ensures Linked(s) && Asked(s) && R.Inv(s.root)
  {
  }

  /** The lock is taken for a command that was not sent before. */
  lemma AcquiredIsNew(s: System, m: Move)
    requires Inv(s) && Issued(s) && Enabled(s, m)
    ensures var before, after := s.root.acquired, Apply(s, m).root.acquired;
            || after == before
            || (|after| == |before| + 1 && after[..|before|] == before
                && IssuedBy(Apply(s, m), after[|before|].1) && forall p <- before :: p.1 != after[|before|].1)
  {
    hide R.Inv, Linked, Traced, Vouched, Placed, EndsHere, Closing, Announcement;
    if m.Root? && m.action.Acquire? {
      var t := m.action.t;
      var u, k := s.current[t], Running(s, t);
      var c := R.CallerOf(s.root, t).command;
      assert CallsOwn(s, t);
      RunningIsOwn(s);
      AcquireTakesLock(s.root, t);
      CommandIsOwn(u, k);
      assert Apply(s, m).tasks == s.tasks;
      forall p <- s.root.acquired ensures p.1 != c { assert IssuedBy(s, p.1); }
    } else if m.Root? {
      OnlyAcquireIssues(s.root, m.action);
    }
  }

  lemma CommandIsOwn(u: Uuid, k: Task)
    requires CommandOf(u, k).Some?
    ensures CommandOf(u, k).value.uuid == u && StepOf(CommandOf(u, k).value) == k.begun
  {
  }

  lemma AcquireTakesLock(root: R.State, t: R.Thread)
    requires R.Enabled(root, R.Acquire(t))
    ensures var root' := R.Apply(root, R.Acquire(t));
            && root'.acquired == root.acquired + [(t, R.CallerOf(root, t).command)]
            && R.HoldsLock(R.CallerOf(root', t)) && !R.HoldsLock(R.CallerOf(root, t))
  {
  }

  lemma OnlyAcquireIssues(root: R.State, a: R.Action)
    requires R.Enabled(root, a) && !a.Acquire?
    ensures R.Apply(root, a).acquired == root.acquired
  {
  }

  lemma StepKeepsIssued(s: System, m: Move)
    requires Inv(s) && Issued(s) && Enabled(s, m)
    ensures Issued(Apply(s, m))
  {
    hide Inv, Apply, Enabled, IssuedBy;
    AcquiredIsNew(s, m);
    var before, after := s.root.acquired, Apply(s, m).root.acquired;
    forall p <- before ensures IssuedBy(Apply(s, m), p.1) { IssuedStays(s, m, p.1); }
    forall p <- after ensures IssuedBy(Apply(s, m), p.1) { assert p in before || p == after[|before|]; }
    forall i, j | 0 <= i < j < |after| ensures after[i].1 != after[j].1 {
      assert i < |before| && after[i] == before[i] && before[i] in before;
      assert j < |before| ==> after[j] == before[j];
    }
  }

  lemma {:induction false} ScheduleKeepsIssued(schedule: seq<Move>)
    requires After(schedule).Some?
    ensures Issued(After(schedule).value)
    decreases |schedule|
  {
    hide Inv, Apply, Enabled, IssuedBy;
    if schedule != [] {
      var most := schedule[..|schedule| - 1];
      ScheduleKeepsIssued(most);
      ScheduleKeepsInv(most);
      StepKeepsIssued(After(most).value, schedule[|schedule| - 1]);
    }
  }

  /** In every interleaving, the worker executes each task's command at most once, and only commands that a task
      reached the step of; an install is of the package that the task's own packaging produced. */
  lemma EachCommandRunsOnce(schedule: seq<Move>)
    requires After(schedule).Some?
    ensures var s := After(schedule).value;
            && (forall i, j | 0 <= i < j < |s.root.executed| ::
                s.root.executed[i].command != s.root.executed[j].command)
            && forall r <- s.root.executed ::
                 var u := r.command.uuid;
                 && u < |s.tasks| && StepOf(r.command) <= s.tasks[u].begun
                 && (r.command.Install? ==> s.tasks[u].kind.Installation? && r.command.deb == s.tasks[u].deb)
                 && (r.command.UninstallPackage? ==> s.tasks[u].kind == Uninstallation(r.command.package))
  {
    ScheduleKeepsInv(schedule);
    ScheduleKeepsIssued(schedule);
    var s := After(schedule).value;
    ExecutedIsAcquired(s.root);
    forall r <- s.root.executed ensures IssuedBy(s, r.command) {
      assert s.root.acquired[r.ticket] in s.root.acquired;
    }
    forall i, j | 0 <= i < j < |s.root.executed| ensures s.root.executed[i].command != s.root.executed[j].command {
      assert s.root.executed[i] in s.root.executed && s.root.executed[j] in s.root.executed;
    }
  }

  lemma ExecutedIsAcquired(root: R.State)
    requires R.Inv(root)
    ensures forall r <- root.executed :: r.ticket < |root.acquired| && root.acquired[r.ticket].1 == r.command
    ensures forall i, j | 0 <= i < j < |root.executed| :: root.executed[i].ticket < root.executed[j].ticket
  {
  }

  /* ---- Packages ---- */

  /** From the end of 'packaging' on an install has a package that lists its plugin's dependencies. */
  predicate HasPackage(k: Task) {
    k.kind.Installation? && (k.begun >= 8 || (k.begun == 7 && k.phase.Between?)) ==>
      k.package.Some? && WellPackaged(k.package.value)
  }

  ghost predicate Stocked(s: System) { forall u: nat | u < |s.tasks| :: HasPackage(s.tasks[u]) }

  lemma EndKeepsPackages(s: System, t: R.Thread, outcome: Outcome)
    requires Linked(s) && Stocked(s) && Runs(s, t) && CanEnd(s, t) && Active(Running(s, t))
    ensures Stocked(End(s, t, outcome))
  {
    hide Closing, WellPackaged, ThreadsRun, ActiveRun;
    var k := Running(s, t);
    assert k.parent.Some? ==> Placed(k.parent.value, s.tasks[k.parent.value]);
  }

  lemma OtherMovesKeepPackages(s: System, m: Move)
    requires Enabled(s, m) && EndOf(s, m).None? && Linked(s) && Stocked(s)
    ensures Stocked(Apply(s, m))
  {
    hide R.Apply, R.Enabled, Announcement, EndsHere, InstallClosure.PackageFrom, End, WellPackaged, Linked;
    RunningIsPlaced(s);
    if m.Finish? { InstallClosure.PackagesListDependencies(m.wazo, m.file); }
  }

  lemma StepKeepsPackages(s: System, m: Move)
    requires Enabled(s, m) && Linked(s) && Stocked(s)
    ensures Stocked(Apply(s, m))
  {
    hide Linked, Stocked, End, EndOf, R.Apply, R.Enabled, EndsHere;
    if EndOf(s, m).Some? {
      EndingMove(s, m);
      RunningIsActive(s);
      var s1 := s.(root := Apply(s, m).root);
      LinksIgnoreRoot(s, s1);
      PackagesIgnoreRoot(s, s1);
      EndKeepsPackages(s1, MoverOf(m), EndOf(s, m).value);
    } else {
      OtherMovesKeepPackages(s, m);
    }
  }

  lemma PackagesIgnoreRoot(s: System, s': System)
    requires s'.tasks == s.tasks
    ensures Stocked(s) == Stocked(s')
  {
  }

  lemma {:induction false} ScheduleKeepsPackages(schedule: seq<Move>)
    requires After(schedule).Some?
    ensures Stocked(After(schedule).value)
    decreases |schedule|
  {
    hide Inv, Apply, Enabled, HasPackage;
    if schedule != [] {
      var most := schedule[..|schedule| - 1];
      ScheduleKeepsPackages(most);
      ScheduleKeepsInv(most);
      InvIsLinked(After(most).value);
      StepKeepsPackages(After(most).value, schedule[|schedule| - 1]);
    }
  }

  /* ---- Closure under dependencies ---- */

  /** What the tools did for each command: whether a plugin's files were left in place, and which plugins were
      removed. */
  datatype Effects = Effects(recorded: R.Ticket -> bool, removed: R.Ticket -> set<PluginId>)

  /** An executed command with what it did; an install is of the package of the task that sent it. */
  function CallOf(tasks: seq<Task>, fx: Effects, r: R.Reply): RootCall {
    var ok := r.answer == Some(true);
    match r.command
    case AptGetUpdate(u) => UpdateCall(u, ok)
    case Install(u, _) =>
      if u < |tasks| && tasks[u].package.Some? then InstallCall(u, tasks[u].package.value, fx.recorded(r.ticket), ok)
      else UpdateCall(u, ok)
    case UninstallPackage(u, package) => RemoveCall(u, package, fx.removed(r.ticket), ok)
  }

  function CallsOf(s: System, fx: Effects): (calls: seq<RootCall>)
    ensures |calls| == |s.root.executed|
  {
    seq(|s.root.executed|, i requires 0 <= i < |s.root.executed| => CallOf(s.tasks, fx, s.root.executed[i]))
  }

  /** The contract of gdebi and apt alone. */
  predicate ToolsObey(env: Env, before: Plugins, call: RootCall) {
    && (call.InstallCall? ==>
          && (call.ok ==> call.recorded)
          && (call.recorded ==> forall package <- call.deb.depends :: DependMet(env, before, package)))
    && (call.RemoveCall? ==> RemovalPlan(before, call.removed))
  }

  /** Every install that the worker executed is of the package of the task that sent it, and that package lists
      the dependencies of its plugin. */
  lemma InstallsArePackaged(schedule: seq<Move>)
    requires After(schedule).Some?
    ensures var s := After(schedule).value;
            forall r <- s.root.executed | r.command.Install? ::
              var u := r.command.uuid;
              && u < |s.tasks| && r.command.deb == s.tasks[u].deb
              && s.tasks[u].package.Some? && WellPackaged(s.tasks[u].package.value)
  {
    hide WellPackaged;
    EachCommandRunsOnce(schedule);
    ScheduleKeepsPackages(schedule);
    var s := After(schedule).value;
    forall r <- s.root.executed | r.command.Install?
      ensures var u := r.command.uuid;
              && u < |s.tasks| && r.command.deb == s.tasks[u].deb
              && s.tasks[u].package.Some? && WellPackaged(s.tasks[u].package.value)
    {
      assert HasPackage(s.tasks[r.command.uuid]);
    }
  }

  /** However many tasks install and remove concurrently, and whichever of their commands fail, the installed plugins
      stay closed under their dependencies, as soon as the tools obey their contracts in the order in which the
      worker ran them: packaging does the rest. */
  lemma ConcurrentInstallsStayClosed(env: Env, base: Plugins, fx: Effects, schedule: seq<Move>)
    requires After(schedule).Some? && Closed(env, base)
    requires var calls := CallsOf(After(schedule).value, fx);
             forall k | 0 <= k < |calls| :: ToolsObey(env, Replay(base, calls[..k]), calls[k])
    ensures Closed(env, Replay(base, CallsOf(After(schedule).value, fx)))
  {
    hide WellPackaged, DependMet, RemovalPlan, Closed, Replay;
    var s := After(schedule).value;
    var calls := CallsOf(s, fx);
    InstallsArePackaged(schedule);
    forall k | 0 <= k < |calls| ensures LawfulCall(env, Replay(base, calls[..k]), calls[k]) {
      var r := s.root.executed[k];
      assert r in s.root.executed && ToolsObey(env, Replay(base, calls[..k]), calls[k]);
    }
    LawfulLogKeepsClosed(env, base, calls);
  }
}
