/** What the service starts: install and uninstall tasks, one after the other. */
module Service {
  import opened Wrappers
  import opened PackageNames
  import opened Schema
  import opened Install
  import opened InstallTrace
  import opened InstallWorkspace
  import opened InstallLog
  import opened InstallClosure
  import opened InstallProgress

  datatype Request =
    | Create(via: Method, options: Options, reinstall: bool, wazo: string)
    | Delete(id: PluginId)

  /** What the executor holds: calls of `execute` that wait for a thread. */
  datatype Job =
    | InstallJob(uuid: Uuid, via: Method, options: Options, reinstall: bool, wazo: string)
    | RemoveJob(uuid: Uuid, package: string)

  datatype Server = Server(world: World, jobs: seq<Job>)

  /** Requests arrive at any time; the executor, here with one thread, takes the oldest job and runs it. */
  datatype Input = Submit(request: Request) | RunNext

  /** The plugins that a removal takes away: apt never leaves behind what depends on something it removed. */
  function Removed(env: Env, uuid: Uuid, w: World): set<PluginId> {
    if RemovalPlan(w.installed, env.removes(uuid)) then env.removes(uuid) else {}
  }

  /** apt reports success only when the package is gone. */
  predicate AptRemoves(env: Env, uuid: Uuid, package: string, w: World) {
    env.ok(uuid, AptRemove) && forall id <- w.installed.Keys :: PackageName(id) == package ==>
        id in Removed(env, uuid, w)
  }

  /** `UninstallTask._uninstall_and_publish`. */
  function Uninstall(env: Env, uuid: Uuid, package: string, w: World): World {
    var started := Publish(Publish(w, Removal(uuid, RemovalStarting)), Removal(uuid, Removing));
    var done := AptRemoves(env, uuid, package, w);
    var called := started.(
      calls := w.calls + [RemoveCall(uuid, package, Removed(env, uuid, w), done)],
      installed := w.installed - Removed(env, uuid, w));
    Publish(called, if done then Removal(uuid, RemovalCompleted) else RemovalFailed(uuid, Removing))
  }

  /** An uninstall task ends with one terminal event: 'completed' exactly when apt succeeded and nothing installed
      still has the package. Whatever was removed, on success or not, nothing that is left depended on it. */
  lemma UninstallSettles(env: Env, uuid: Uuid, package: string, w: World)
    ensures var w' := Uninstall(env, uuid, package, w);
            var begun := [Removal(uuid, RemovalStarting), Removal(uuid, Removing)];
            var done := w'.events == w.events + begun + [Removal(uuid, RemovalCompleted)];
            && (!done ==> w'.events == w.events + begun + [RemovalFailed(uuid, Removing)])
            && (done <==> env.ok(uuid, AptRemove) && forall id <- w'.installed.Keys :: PackageName(id) != package)
            && (RemovalPlan(w.installed, env.removes(uuid)) ==> w'.installed == w.installed - env.removes(uuid))
            && exists removed ::
                 && RemovalPlan(w.installed, removed) && w'.installed == w.installed - removed
                 && w'.calls == w.calls + [RemoveCall(uuid, package, removed, done)]
  {
    var w', removed := Uninstall(env, uuid, package, w), Removed(env, uuid, w);
    var done := AptRemoves(env, uuid, package, w);
    assert w'.events[|w'.events| - 1]
        == if done then Removal(uuid, RemovalCompleted) else RemovalFailed(uuid, Removing);
    assert RemovalPlan(w.installed, removed) && w'.installed == w.installed - removed;
    assert w'.calls == w.calls + [RemoveCall(uuid, package, removed, done)];
  }

  /** `PluginService.create` and `PluginService.delete`; deleting what is not installed submits no task. */
  function Accept(request: Request, s: Server): Server {
    var uuid, world := s.world.next, s.world.(next := s.world.next + 1);
    match request
    case Create(via, options, reinstall, wazo) =>
      Server(world, s.jobs + [InstallJob(uuid, via, options, reinstall, wazo)])
    case Delete(id) =>
      Server(world, if id in world.installed then s.jobs + [RemoveJob(uuid, PackageName(id))] else s.jobs)
  }

  function ContextOf(job: Job): Ctx
    requires job.InstallJob?
  {
    NewCtx(job.uuid, job.via, job.options, job.reinstall, job.wazo)
  }

  function RunJob(env: Env, depth: nat, job: Job, w: World): World {
    match job
    case InstallJob(_, _, _, _, _) => RunTask(env, depth, ContextOf(job), w).world
    case RemoveJob(uuid, package) => Uninstall(env, uuid, package, w)
  }

  function Respond(env: Env, depth: nat, input: Input, s: Server): Server {
    match input
    case Submit(request) => Accept(request, s)
    case RunNext => if s.jobs == [] then s else Server(RunJob(env, depth, s.jobs[0], s.world), s.jobs[1..])
  }

  function Serve(env: Env, depth: nat, inputs: seq<Input>, s: Server): Server {
    if inputs == [] then s
    else Respond(env, depth, inputs[|inputs| - 1], Serve(env, depth, inputs[..|inputs| - 1], s))
  }

  /* ---- Waiting jobs ---- */

  predicate Fresh(env: Env, job: Job, w: World) {
    job.uuid < w.next && (job.InstallJob? ==> Stage(env, 0, ContextOf(job), w))
  }

  /** Every waiting task has a uuid of its own, under which there is nothing yet. */
  ghost predicate Queued(env: Env, s: Server) {
    && Numbered(s.world)
    && (forall job <- s.jobs :: Fresh(env, job, s.world))
    && (forall i, j | 0 <= i < j < |s.jobs| :: s.jobs[i].uuid != s.jobs[j].uuid)
  }

  lemma AcceptKeepsQueue(env: Env, request: Request, s: Server)
    requires Queued(env, s)
    ensures Queued(env, Accept(request, s))
  {
    var s' := Accept(request, s);
    forall job <- s'.jobs ensures Fresh(env, job, s'.world) {
      if job in s.jobs { assert Fresh(env, job, s.world); }
    }
    forall i, j | 0 <= i < j < |s'.jobs| ensures s'.jobs[i].uuid != s'.jobs[j].uuid {
      assert s.jobs[i] in s.jobs;
    }
  }

  /** A job's run touches nobody else's directories, so the others find theirs as fresh as before. */
  lemma JobKeepsOthersFresh(env: Env, depth: nat, job: Job, other: Job, w: World)
    requires Numbered(w) && Fresh(env, job, w) && Fresh(env, other, w) && other.uuid != job.uuid
    ensures Numbered(RunJob(env, depth, job, w)) && Fresh(env, other, RunJob(env, depth, job, w))
  {
    hide RunTask, Leftovers, Clones;
    if job.InstallJob? {
      TaskWorkspace(env, depth, ContextOf(job), w);
      var report := RunTask(env, depth, ContextOf(job), w).report;
      assert other.uuid !in Leftovers(env, report) && other.uuid !in Clones(env, report) by {
        assert forall v <- Leftovers(env, report) + Clones(env, report) :: v == job.uuid || w.next <= v;
        assert forall v <- Leftovers(env, report) :: v in Leftovers(env, report) + Clones(env, report);
        assert forall v <- Clones(env, report) :: v in Leftovers(env, report) + Clones(env, report);
      }
    }
  }

  lemma JobKeepsNumbers(env: Env, depth: nat, job: Job, w: World)
    requires Numbered(w) && Fresh(env, job, w)
    ensures Numbered(RunJob(env, depth, job, w))
  {
    hide RunTask;
    if job.InstallJob? { TaskWorkspace(env, depth, ContextOf(job), w); }
  }

  lemma RespondKeepsQueue(env: Env, depth: nat, input: Input, s: Server)
    requires Queued(env, s)
    ensures Queued(env, Respond(env, depth, input, s))
  {
    hide RunJob, Fresh;
    if input.Submit? {
      AcceptKeepsQueue(env, input.request, s);
    } else if s.jobs != [] {
      var job, rest := s.jobs[0], s.jobs[1..];
      JobKeepsNumbers(env, depth, job, s.world);
      forall other <- rest ensures Fresh(env, other, RunJob(env, depth, job, s.world)) {
        var i :| 0 <= i < |rest| && other == rest[i];
        assert s.jobs[i + 1] == other;
        JobKeepsOthersFresh(env, depth, job, other, s.world);
      }
    }
  }

  /* ---- Order of the queue ---- */

  function RunAll(env: Env, depth: nat, jobs: seq<Job>, w: World): World {
    if jobs == [] then w else RunAll(env, depth, jobs[1..], RunJob(env, depth, jobs[0], w))
  }

  function Runs(n: nat): seq<Input> { seq(n, _ => RunNext) }

  lemma {:induction false} ServeJoins(env: Env, depth: nat, a: seq<Input>, b: seq<Input>, s: Server)
    ensures Serve(env, depth, a + b, s) == Serve(env, depth, b, Serve(env, depth, a, s))
    decreases |b|
  {
    hide Respond;
    if b == [] {
      assert a + b == a;
    } else {
      var most := b[..|b| - 1];
      assert (a + b)[..|a + b| - 1] == a + most;
      ServeJoins(env, depth, a, most, s);
    }
  }

  /** Running as often as there are jobs runs each of them once, oldest first. */
  lemma {:induction false} JobsRunInOrder(env: Env, depth: nat, s: Server)
    ensures Serve(env, depth, Runs(|s.jobs|), s) == Server(RunAll(env, depth, s.jobs, s.world), [])
    decreases |s.jobs|
  {
    hide RunJob;
    if s.jobs != [] {
      var next := Respond(env, depth, RunNext, s);
      assert Runs(|s.jobs|) == [RunNext] + Runs(|next.jobs|);
      assert [RunNext][..0] == [];
      assert Serve(env, depth, [RunNext], s) == next;
      ServeJoins(env, depth, [RunNext], Runs(|next.jobs|), s);
      JobsRunInOrder(env, depth, next);
    }
  }

  /** A create request runs, when its turn comes, the task that it asked for, on the world of that moment. */
  lemma CreatedTaskRuns(env: Env, depth: nat, via: Method, options: Options, reinstall: bool, wazo: string, s: Server)
    ensures var s' := Accept(Create(via, options, reinstall, wazo), s);
            && s'.world == s.world.(next := s.world.next + 1)
            && |s'.jobs| == |s.jobs| + 1 && s'.jobs[..|s.jobs|] == s.jobs
            && forall w :: RunJob(env, depth, s'.jobs[|s.jobs|], w)
                           == RunTask(env, depth, Ctx(s.world.next, via, options, reinstall, wazo, None, false, None),
                                      w).world
  {
    hide RunTask;
  }

  /** A delete request submits a task exactly when the plugin is installed; when that task completes, neither the plugin
      nor anything else with its package is installed. */
  lemma DeletedPluginGoes(env: Env, depth: nat, id: PluginId, s: Server, w: World)
    ensures var s' := Accept(Delete(id), s);
            && s'.world == s.world.(next := s.world.next + 1)
            && (id !in s.world.installed ==> s'.jobs == s.jobs)
            && (id in s.world.installed ==>
                  && |s'.jobs| == |s.jobs| + 1 && s'.jobs[..|s.jobs|] == s.jobs
                  && var w' := RunJob(env, depth, s'.jobs[|s.jobs|], w);
                     && |w'.events| == |w.events| + 3
                     && (w'.events[|w.events| + 2] == Removal(s.world.next, RemovalCompleted) <==>
                           env.ok(s.world.next, AptRemove)
                           && forall x <- w'.installed.Keys :: PackageName(x) != PackageName(id))
                     && (w'.events[|w.events| + 2] == Removal(s.world.next, RemovalCompleted) ==> id !in w'.installed))
  {
    hide RunTask;
    if id in s.world.installed { UninstallSettles(env, s.world.next, PackageName(id), w); }
  }

  /* ---- Closure over a run ---- */

  lemma JobKeepsLog(env: Env, base: Plugins, depth: nat, job: Job, w: World)
    requires Numbered(w) && Fresh(env, job, w) && Logged(env, base, w)
    ensures Logged(env, base, RunJob(env, depth, job, w))
  {
    hide RunTask, Logged, Stage;
    match job {
      case InstallJob(_, _, _, _, _) => TaskLogged(env, base, depth, ContextOf(job), w);
      case RemoveJob(uuid, package) =>
        var call := RemoveCall(uuid, package, Removed(env, uuid, w), AptRemoves(env, uuid, package, w));
        LoggedCall(env, base, w, Uninstall(env, uuid, package, w), call);
    }
  }

  lemma {:induction false} ServeKeepsLog(env: Env, base: Plugins, depth: nat, inputs: seq<Input>, s: Server)
    requires Queued(env, s) && Logged(env, base, s.world)
    ensures var s' := Serve(env, depth, inputs, s); Queued(env, s') && Logged(env, base, s'.world)
    decreases |inputs|
  {
    hide RunJob, Fresh, Logged;
    if inputs != [] {
      var most, input := inputs[..|inputs| - 1], inputs[|inputs| - 1];
      ServeKeepsLog(env, base, depth, most, s);
      var mid := Serve(env, depth, most, s);
      RespondKeepsQueue(env, depth, input, mid);
      if input.Submit? {
        LoggedElsewhere(env, base, mid.world, Accept(input.request, mid).world);
      } else if mid.jobs != [] {
        JobKeepsLog(env, base, depth, mid.jobs[0], mid.world);
      }
    }
  }

  /** Whatever is requested and run, in whatever order and with whatever failures, every dependency of an installed
      plugin is installed; for well-named dependencies, as that very plugin. */
  lemma InstalledStaysClosed(env: Env, depth: nat, inputs: seq<Input>, w: World)
    requires Numbered(w) && w.calls == [] && Closed(env, w.installed)
    ensures var plugins := Serve(env, depth, inputs, Server(w, [])).world.installed;
            && Closed(env, plugins)
            && (ArchiveIsForeign(env) && (forall x <- w.installed :: Named(x)) ==>
                  forall id <- plugins :: forall d <- plugins[id].depends | IsWellNamed(d.Id()) :: d.Id() in plugins)
  {
    hide Serve;
    EmptyLogIsLogged(env, w);
    ServeKeepsLog(env, w.installed, depth, inputs, Server(w, []));
    var w' := Serve(env, depth, inputs, Server(w, [])).world;
    LawfulLogKeepsClosed(env, w.installed, w'.calls);
    if ArchiveIsForeign(env) && forall x <- w.installed :: Named(x) {
      LawfulLogKeepsNames(env, w.installed, w'.calls, |w'.calls|);
      assert w'.calls[..|w'.calls|] == w'.calls;
      forall id <- w'.installed, d <- w'.installed[id].depends | IsWellNamed(d.Id()) ensures d.Id() in w'.installed {
        ClosedMeansInstalled(env, w'.installed, id, d);
      }
    }
  }

  /* ---- Versions over a run ---- */

  predicate FromTheMarket(via: Method, options: Options) { via.Market? && options.MarketOptions? }

  predicate IsMarketInput(input: Input) {
    input.RunNext? || (input.request.Create? && FromTheMarket(input.request.via, input.request.options))
  }

  predicate IsMarketJob(job: Job) { job.InstallJob? && FromTheMarket(job.via, job.options) }

  /** Over any run of market installs, with or without pinned versions and `reinstall`, every change of an installed
      plugin is to a strictly newer version. */
  lemma {:induction false} VersionsOnlyRise(env: Env, rank: PluginId -> nat, depth: nat, inputs: seq<Input>, w: World)
    requires Sound(env, rank, false) && Numbered(w) && w.calls == [] && AllTruthy(w.installed)
    requires forall input <- inputs :: IsMarketInput(input)
    ensures var s' := Serve(env, depth, inputs, Server(w, []));
            && Queued(env, s') && (forall job <- s'.jobs :: IsMarketJob(job))
            && Rising(env, false, w.installed, s'.world)
    decreases |inputs|
  {
    hide RunJob, RunTask, Stage, Sound, Rising;
    if inputs == [] {
      EmptyLogRisesAtAll(env, w);
    } else {
      var most, input := inputs[..|inputs| - 1], inputs[|inputs| - 1];
      VersionsOnlyRise(env, rank, depth, most, w);
      var mid := Serve(env, depth, most, Server(w, []));
      assert IsMarketInput(input);
      RespondKeepsQueue(env, depth, input, mid);
      if input.Submit? {
        BelowItself(rank, 0, mid.world, Accept(input.request, mid).world);
      } else if mid.jobs != [] {
        JobRises(env, rank, depth, mid.jobs[0], w.installed, mid.world);
      }
    }
  }

  lemma JobRises(env: Env, rank: PluginId -> nat, depth: nat, job: Job, base: Plugins, w: World)
    requires Sound(env, rank, false) && IsMarketJob(job) && Fresh(env, job, w) && Rising(env, false, base, w)
    ensures Rising(env, false, base, RunJob(env, depth, job, w))
  {
    hide RunTask, Stage, Sound, Rising;
    TaskRises(env, rank, false, base, depth, PluginId(job.options.namespace, job.options.name), ContextOf(job), w);
  }

  lemma EmptyLogRisesAtAll(env: Env, w: World)
    requires w.calls == [] && AllTruthy(w.installed)
    ensures Rising(env, false, w.installed, w)
  {
  }

  /* ---- Passing 'installing' ---- */

  /** The worker ran this task's own package last and returned True, and it is what is now installed. */
  predicate InstalledOwn(ctx: Ctx, w: World) {
    && ctx.deb.Some? && |w.calls| > 0
    && w.calls[|w.calls| - 1] == InstallCall(ctx.uuid, ctx.deb.value, true, true)
    && ctx.deb.value.id in w.installed && w.installed[ctx.deb.value.id] == ctx.deb.value.record
  }

  /** The task's package was built from the metadata file in the source it cloned. */
  predicate BuiltFromSource(env: Env, ctx: Ctx) {
    var content := Source(env, ctx.uuid, ctx.options);
    content.Tree? && content.file.Mapping? && ctx.deb == PackageFrom(ctx.wazo, content.file.metadata)
  }

  lemma {:induction false} StepsInstallOwn(env: Env, depth: nat, i: nat, ctx: Ctx, w: World)
    requires i <= STEP_COUNT && Stage(env, i, ctx, w) && (i > 8 ==> InstalledOwn(ctx, w) && BuiltFromSource(env, ctx))
    ensures var run := RunFrom(env, depth, ctx, w, i);
            run.begun > 9 ==> InstalledOwn(run.ctx, run.world) && BuiltFromSource(env, run.ctx)
    decreases STEP_COUNT - i
  {
    hide RunStep, Stage, MetadataLoads, InstallDeb;
    if i < STEP_COUNT {
      var event := Progress(ctx.uuid, StepAt(i));
      var w1 := Publish(w, event);
      NextStage(env, depth, i, ctx, w, event);
      StepIs(env, depth, i, ctx, w1);
      if i == 8 {
        InstallsOwnPackage(env, ctx, w1);
        InstallKeepsCtx(env, ctx, w1);
        PackagedFromFile(env, i, ctx, w1);
        StageKnowsSource(env, i, ctx, w1);
      }
      if i > 8 { QuietStep(env, depth, i, ctx, w1); LastStepsKeepCtx(env, depth, i, ctx, w1); }
      var r := RunStep(env, depth, StepAt(i), ctx, w1);
      if r.outcome == Ok { StepsInstallOwn(env, depth, i + 1, r.ctx, r.world); }
    }
  }

  lemma StageKnowsSource(env: Env, i: nat, ctx: Ctx, w: World)
    requires 4 <= i <= 9 && Stage(env, i, ctx, w)
    ensures Source(env, ctx.uuid, ctx.options) == Tree(Mapping(FileOf(ctx, w)))
  {
    hide MetadataLoads, Packaged, InStep;
  }

  lemma InstallKeepsCtx(env: Env, ctx: Ctx, w: World)
    ensures InstallDeb(env, ctx, w).ctx == ctx
  {
  }

  lemma LastStepsKeepCtx(env: Env, depth: nat, i: nat, ctx: Ctx, w: World)
    requires 8 < i < STEP_COUNT
    ensures var r := RunStep(env, depth, StepAt(i), ctx, w); r.ctx == ctx && r.outcome == Ok
  {
  }

  /** A task gets past 'installing' only if the worker ran `install` for its own uuid and package and
      returned True; a completed task leaves its plugin installed with the version on disk. */
  lemma CompletedMeansInstalled(env: Env, depth: nat, ctx: Ctx, w: World)
    requires Stage(env, 0, ctx, w)
    ensures var done := RunTask(env, depth, ctx, w);
            done.report.begun > 9 ==> InstalledOwn(done.ctx, done.world) && BuiltFromSource(env, done.ctx)
  {
    hide RunFrom, Stage;
    StepsInstallOwn(env, depth, 0, ctx, w);
    StepsTrace(env, depth, ctx, w, 0);
  }

  /** By whatever method, what a task that got past 'installing' leaves in place is the identity and the version written
      in its source, whichever version was there: only the market compares the two. */
  lemma CompletedInstallsItsFile(env: Env, depth: nat, ctx: Ctx, w: World)
    requires Stage(env, 0, ctx, w)
    ensures var done := RunTask(env, depth, ctx, w);
            done.report.begun > 9 ==>
              var content := Source(env, done.ctx.uuid, done.ctx.options);
              && content.Tree? && content.file.Mapping?
              && var file := content.file.metadata;
                 && file.name.Some? && file.namespace.Some? && file.version.Some?
                 && IsInstalled(done.world, IdOf(file), file.version.value)
  {
    hide RunTask, Stage;
    CompletedMeansInstalled(env, depth, ctx, w);
  }

  /** Installing the same plugin again is recognised as such exactly when its `plugin.yml` writes the version as
      text: a bare number is compared as a number with the text made of it, and the plugin is built again. */
  lemma AlreadyInstalledExactlyOnText(ctx: Ctx, w: World, file: Metadata)
    requires ctx.metadata == Some(Mapping(file)) && !ctx.reinstall && MetadataLoads(ctx.wazo, Coerced(file))
    requires IsInstalled(w, IdOf(file), file.version.value)
    ensures Validate(ctx, w).outcome == (if file.version.value.Text? then AlreadyInstalled else Ok)
  {
  }
}
