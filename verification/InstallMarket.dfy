/** Tasks by the market: what the market's answer makes of them, and which version a pinned dependency gets. */
module InstallMarket {
  import opened Wrappers
  import opened Versions
  import opened PackageNames
  import opened Catalog
  import opened Schema
  import opened Install
  import opened InstallTrace
  import opened InstallWorkspace
  import opened InstallLog
  import opened InstallClosure
  import opened InstallProgress
  import opened InstallOutcome
  import opened Service

  /* ---- One hop ---- */

  /** What a task asks the market for. */
  function Wanted(ctx: Ctx): PluginId
    requires ctx.options.MarketOptions?
  {
    PluginId(ctx.options.namespace, ctx.options.name)
  }

  /** Version k of entry i is the one that the task gets: in the first entry of the name, the first version listed that
      can be installed and meets the requirement. */
  ghost predicate IsOffered(env: Env, ctx: Ctx, w: World, entries: seq<Entry>, i: int, k: int)
    requires ctx.options.MarketOptions?
  {
    && IsFirstNamed(entries, Wanted(ctx), i)
    && IsFirstChoice(env.loose, ctx.wazo, VersionAt(w.installed, Wanted(ctx)), ctx.options.version,
                     entries[i].versions, k)
  }

  /** The installed version meets the requirement already. */
  predicate IsSatisfied(ctx: Ctx, w: World)
    requires ctx.options.MarketOptions?
  {
    var id := Wanted(ctx);
    && !ctx.reinstall && id in w.installed && w.installed[id].version.Truthy()
    && (Unversioned(ctx.options.version) || w.installed[id].version == Text(ctx.options.version.value))
  }

  /** What a market request comes to, for every answer of the market. */
  lemma MarketHopExactly(env: Env, hop: nat, ctx: Ctx, w: World)
    requires ctx.options.MarketOptions? && !ctx.options.extra
    ensures var found, answer := FromMarket(env, hop, ctx, w), env.market(ctx.uuid, hop);
            if answer.None? then found == Failure(Crashed)
            else
              var entries := answer.value;
              if forall e <- entries :: e.Id() != Wanted(ctx) then found == Failure(Crashed)
              else if IsSatisfied(ctx, w) then found == Failure(DependencyInstalled)
              else
                || ((forall i, k :: !IsOffered(env, ctx, w, entries, i, k)) && found == Failure(DependencyInstalled))
                || (exists i, k :: IsOffered(env, ctx, w, entries, i, k)
                      && var loaded := LoadInstall(entries[i].versions[k]);
                         found == if loaded.None? then Failure(Crashed) else Success(loaded.value))
  {
    hide Upgradable, Choose, AlreadySatisfied;
    if env.market(ctx.uuid, hop).Some? {
      var entries, local, id := env.market(ctx.uuid, hop).value, LocalVersions(w.installed), Wanted(ctx);
      var c := Choose(env.loose, ctx.wazo, local, entries, id, ctx.options.version, ctx.reinstall);
      NothingChosenExactly(env.loose, ctx.wazo, local, entries, id, ctx.options.version, ctx.reinstall);
      ChosenIsFirst(env.loose, ctx.wazo, local, entries, id, ctx.options.version, ctx.reinstall);
      FirstNamedIsNamed(entries, id);
      if c.Chosen? {
        var i, k :| IsFirstNamed(entries, id, i)
                    && IsFirstChoice(env.loose, ctx.wazo, Lookup(local, id), ctx.options.version, entries[i].versions,
                                     k)
                    && c.version == Marked(env.loose, ctx.wazo, Lookup(local, id), entries[i].versions[k]);
        assert IsOffered(env, ctx, w, entries, i, k);
        assert LoadInstall(c.version) == LoadInstall(entries[i].versions[k]);
      } else if c.NotUpgradable? {
        forall i, k ensures !IsOffered(env, ctx, w, entries, i, k) {
          NothingOffered(env, ctx, w, entries, i, k);
        }
      }
    }
  }

  lemma NothingOffered(env: Env, ctx: Ctx, w: World, entries: seq<Entry>, i: int, k: int)
    requires ctx.options.MarketOptions? && FirstNamed(entries, Wanted(ctx)).Some?
    requires OffersNothing(env.loose, ctx.wazo, VersionAt(w.installed, Wanted(ctx)), ctx.options.version,
                           FirstNamed(entries, Wanted(ctx)).value)
    ensures !IsOffered(env, ctx, w, entries, i, k)
  {
    hide Upgradable;
    FirstNamedIsNamed(entries, Wanted(ctx));
    var j :| IsFirstNamed(entries, Wanted(ctx), j) && FirstNamed(entries, Wanted(ctx)).value == entries[j];
    assert IsFirstNamed(entries, Wanted(ctx), i) ==> i == j;
    assert 0 <= k < |entries[j].versions| ==> entries[j].versions[k] in entries[j].versions;
  }

  /** A market request that leads to a repository goes on as a git task with the options it was given. */
  lemma MarketTaskGoesOnAsGit(env: Env, depth: nat, ctx: Ctx, w: World, o: Options)
    requires Stage(env, 0, ctx, w) && ctx.via.Market? && depth > 0
    requires FromMarket(env, 0, ctx, w) == Success((Git, o)) && o.GitOptions?
    ensures var done, git := RunTask(env, depth, ctx, w), RunTask(env, depth, ctx.(via := Git, options := o), w);
            && done.report.begun == git.report.begun && done.report.outcome == git.report.outcome
            && done.world.installed == git.world.installed
            && (done.report.begun as nat, done.report.outcome)
                == GitEnding(env, depth, ctx.(via := Git, options := o), w)
  {
    hide RunStep, RunFrom, Download, FromMarket, GitEnding, Stage;
    var ctx' := ctx.(via := Git, options := o);
    var w1 := Publish(w, Progress(ctx.uuid, Starting));
    var w2 := Publish(w1, Progress(ctx.uuid, Downloading));
    LoopOnce(env, depth, ctx, w, 0);
    LoopOnce(env, depth, ctx', w, 0);
    EarlySteps(env, depth, ctx, w1);
    EarlySteps(env, depth, ctx', w1);
    LoopOnce(env, depth, ctx, w1, 1);
    LoopOnce(env, depth, ctx', w1, 1);
    EarlySteps(env, depth, ctx, w2);
    EarlySteps(env, depth, ctx', w2);
    MarketReadsInstalled(env, 0, ctx, w, w2);
    HopIsGit(env, depth, ctx, w2, o);
    SameStage(env, ctx, ctx', w);
    GitTaskEndsExactly(env, depth, ctx', w);
  }

  lemma MarketReadsInstalled(env: Env, hop: nat, ctx: Ctx, w: World, w': World)
    requires w'.installed == w.installed
    ensures FromMarket(env, hop, ctx, w') == FromMarket(env, hop, ctx, w)
  {
  }

  lemma HopIsGit(env: Env, depth: nat, ctx: Ctx, w: World, o: Options)
    requires ctx.via.Market? && depth > 0 && FromMarket(env, 0, ctx, w) == Success((Git, o)) && o.GitOptions?
    ensures Download(env, depth, 0, ctx, w) == Download(env, depth, 0, ctx.(via := Git, options := o), w)
  {
    hide FromMarket;
    var ctx' := ctx.(via := Git, options := o);
    assert Download(env, depth, 0, ctx, w) == Download(env, depth - 1, 1, ctx', w);
  }

  lemma SameStage(env: Env, ctx: Ctx, ctx': Ctx, w: World)
    requires Stage(env, 0, ctx, w) && ctx' == ctx.(via := ctx'.via, options := ctx'.options)
    ensures Stage(env, 0, ctx', w)
  {
  }

  /** A market request that leads nowhere ends the task while it downloads, with nothing changed but what it
      published. */
  lemma MarketTaskStops(env: Env, depth: nat, ctx: Ctx, w: World)
    requires Stage(env, 0, ctx, w) && ctx.via.Market? && FromMarket(env, 0, ctx, w).Failure?
    ensures var done := RunTask(env, depth, ctx, w);
            && done.report.begun == 2 && done.report.outcome == FromMarket(env, 0, ctx, w).error
            && done.world == w.(events := done.world.events)
  {
    hide RunStep, RunFrom, FromMarket;
    var w1 := Publish(w, Progress(ctx.uuid, Starting));
    var w2 := Publish(w1, Progress(ctx.uuid, Downloading));
    LoopOnce(env, depth, ctx, w, 0);
    EarlySteps(env, depth, ctx, w1);
    LoopOnce(env, depth, ctx, w1, 1);
    EarlySteps(env, depth, ctx, w2);
    MarketReadsInstalled(env, 0, ctx, w, w2);
    FailureIsNotOk(env, ctx, w);
  }

  lemma FailureIsNotOk(env: Env, ctx: Ctx, w: World)
    ensures FromMarket(env, 0, ctx, w).Failure? ==> FromMarket(env, 0, ctx, w).error in {Crashed, DependencyInstalled}
  {
  }

  /** The method is unknown, or the options are not of its kind. */
  predicate IsMisfit(ctx: Ctx) {
    match ctx.via
    case Git => !ctx.options.GitOptions?
    case Market => !ctx.options.MarketOptions? || ctx.options.extra
    case Unsupported(_) => true
  }

  /** Such a task ends in an unexpected error while it downloads, with nothing changed but what it published. */
  lemma MisfitTaskStops(env: Env, depth: nat, ctx: Ctx, w: World)
    requires Stage(env, 0, ctx, w) && IsMisfit(ctx)
    ensures var done := RunTask(env, depth, ctx, w);
            && done.report.begun == 2 && done.report.outcome == Crashed
            && done.world == w.(events := done.world.events)
  {
    hide RunStep, RunFrom;
    var w1 := Publish(w, Progress(ctx.uuid, Starting));
    var w2 := Publish(w1, Progress(ctx.uuid, Downloading));
    LoopOnce(env, depth, ctx, w, 0);
    EarlySteps(env, depth, ctx, w1);
    LoopOnce(env, depth, ctx, w1, 1);
    EarlySteps(env, depth, ctx, w2);
  }

  /* ---- Builds are for the Wazo version of the task ---- */

  /** From position n on, every package installed was built from a file that is valid on this Wazo version. */
  ghost predicate BuiltFor(wazo: string, calls: seq<RootCall>, n: nat) {
    forall k | n <= k < |calls| && calls[k].InstallCall? :: exists file :: PackageFrom(wazo, file) == Some(calls[k].deb)
  }

  lemma BuiltForJoins(wazo: string, a: seq<RootCall>, b: seq<RootCall>, n: nat)
    requires n <= |a| && a <= b && BuiltFor(wazo, a, n) && BuiltFor(wazo, b, |a|)
    ensures BuiltFor(wazo, b, n)
  {
    hide PackageFrom;
    forall k | n <= k < |b| && b[k].InstallCall? ensures exists file :: PackageFrom(wazo, file) == Some(b[k].deb) {
      if k < |a| { assert a[k] == b[k]; }
    }
  }

  lemma {:induction false} DependenciesBuild(env: Env, depth: nat, items: seq<Dependency>, ctx: Ctx, w: World)
    requires Numbered(w)
    ensures var w' := InstallDependencies(env, depth, items, ctx, w).world;
            w.calls <= w'.calls && BuiltFor(ctx.wazo, w'.calls, |w.calls|)
    decreases depth, 0, |items|
  {
    hide RunTask, BuiltFor;
    NothingBuilt(ctx.wazo, w.calls);
    if items != [] {
      if !DependencyLoads(items[0]) {
        DependenciesBuild(env, depth, items[1..], ctx, w);
      } else if depth > 0 {
        var child := NewCtx(w.next, Market, AsOptions(items[0]), false, ctx.wazo);
        var w1 := w.(next := w.next + 1);
        TaskWorkspace(env, depth - 1, child, w1);
        TaskBuildsForItsWazo(env, depth - 1, child, w1);
        var mid := RunTask(env, depth - 1, child, w1).world;
        DependenciesBuild(env, depth, items[1..], ctx, mid);
        BuiltForJoins(ctx.wazo, mid.calls, InstallDependencies(env, depth, items[1..], ctx, mid).world.calls,
                      |w.calls|);
      }
    }
  }

  lemma NothingBuilt(wazo: string, calls: seq<RootCall>)
    ensures BuiltFor(wazo, calls, |calls|)
  {
  }

  lemma {:induction false} StepBuilds(env: Env, depth: nat, i: nat, ctx: Ctx, w: World)
    requires i < STEP_COUNT && Stage(env, i, ctx, w)
    ensures var w' := RunStep(env, depth, StepAt(i), ctx, w).world;
            w.calls <= w'.calls && BuiltFor(ctx.wazo, w'.calls, |w.calls|)
    decreases depth, 1, 0
  {
    hide RunStep, Stage, BuiltFor, InstallDeb, UpdateApt, InstallDependencies, MetadataLoads;
    NothingBuilt(ctx.wazo, w.calls);
    if i == 4 {
      StageIsNumbered(env, i, ctx, w);
      StepIs(env, depth, i, ctx, w);
      DependenciesBuild(env, depth, DeclaredBy(ctx), ctx, w);
    } else if i == 7 {
      StepIs(env, depth, i, ctx, w);
      UpdatesExactlyWithDepends(env, ctx, w);
      UpdateBuildsNothing(ctx.wazo, w.calls, UpdateApt(env, ctx, w).world.calls);
    } else if i == 8 {
      StepIs(env, depth, i, ctx, w);
      OwnStepBuilds(env, ctx, w);
    } else {
      QuietStep(env, depth, i, ctx, w);
    }
  }

  lemma OwnStepBuilds(env: Env, ctx: Ctx, w: World)
    requires Stage(env, 8, ctx, w)
    ensures var w' := InstallDeb(env, ctx, w).world; w.calls <= w'.calls && BuiltFor(ctx.wazo, w'.calls, |w.calls|)
  {
    hide BuiltFor, InstallDeb, MetadataLoads, PackageFrom;
    InstallsOwnPackage(env, ctx, w);
    PackagedFromFile(env, 8, ctx, w);
    OwnIsBuilt(ctx.wazo, w.calls, InstallDeb(env, ctx, w).world.calls, ctx.deb.value, FileOf(ctx, w));
  }

  lemma UpdateBuildsNothing(wazo: string, before: seq<RootCall>, after: seq<RootCall>)
    requires |before| <= |after| && after[..|before|] == before && forall k | |before| <= k < |after| ::
        after[k].UpdateCall?
    ensures before <= after && BuiltFor(wazo, after, |before|)
  {
  }

  lemma OwnIsBuilt(wazo: string, before: seq<RootCall>, after: seq<RootCall>, deb: Deb, file: Metadata)
    requires |after| == |before| + 1 && after[..|before|] == before && after[|before|].InstallCall?
    requires after[|before|].deb == deb && PackageFrom(wazo, file) == Some(deb)
    ensures before <= after && BuiltFor(wazo, after, |before|)
  {
    hide PackageFrom;
  }

  lemma {:induction false} StepsBuild(env: Env, depth: nat, ctx: Ctx, w: World, i: nat)
    requires i <= STEP_COUNT && Stage(env, i, ctx, w)
    ensures var w' := RunFrom(env, depth, ctx, w, i).world;
            w.calls <= w'.calls && BuiltFor(ctx.wazo, w'.calls, |w.calls|)
    decreases depth, 2, STEP_COUNT - i
  {
    hide RunStep, StepAt, Stage, BuiltFor;
    NothingBuilt(ctx.wazo, w.calls);
    if i < STEP_COUNT {
      var event := Progress(ctx.uuid, StepAt(i));
      var w1 := Publish(w, event);
      NextStage(env, depth, i, ctx, w, event);
      StepBuilds(env, depth, i, ctx, w1);
      var r := RunStep(env, depth, StepAt(i), ctx, w1);
      if r.outcome == Ok {
        StepsBuild(env, depth, r.ctx, r.world, i + 1);
        BuiltForJoins(ctx.wazo, r.world.calls, RunFrom(env, depth, r.ctx, r.world, i + 1).world.calls, |w.calls|);
      }
    }
  }

  /** Whatever a task installs, tasks nested in it included, was built from metadata that is valid, bounds included, on
      the Wazo version that the task was created with. */
  lemma {:induction false} TaskBuildsForItsWazo(env: Env, depth: nat, ctx: Ctx, w: World)
    requires Stage(env, 0, ctx, w)
    ensures var w' := RunTask(env, depth, ctx, w).world;
            w.calls <= w'.calls && BuiltFor(ctx.wazo, w'.calls, |w.calls|)
    decreases depth, 3, 0
  {
    hide RunFrom, Stage, BuiltFor;
    StepsBuild(env, depth, ctx, w, 0);
  }

  /* ---- Pinned versions ---- */

  /** No market version redirects. */
  ghost predicate NoRedirects(env: Env) {
    forall u, hop :: env.market(u, hop).Some? ==>
      forall e <- env.market(u, hop).value :: forall v <- e.versions :: LoadInstall(v).Some? ==>
          LoadInstall(v).value.1.GitOptions?
  }

  lemma {:induction false} LaterStepsKeepOptions(env: Env, depth: nat, ctx: Ctx, w: World, i: nat)
    requires 2 <= i <= STEP_COUNT && Stage(env, i, ctx, w)
    ensures var run := RunFrom(env, depth, ctx, w, i); run.ctx.options == ctx.options && run.ctx.uuid == ctx.uuid
    decreases STEP_COUNT - i
  {
    hide RunStep, StepAt, Stage;
    if i < STEP_COUNT {
      var event := Progress(ctx.uuid, StepAt(i));
      NextStage(env, depth, i, ctx, w, event);
      var r := RunStep(env, depth, StepAt(i), ctx, Publish(w, event));
      if r.outcome == Ok { LaterStepsKeepOptions(env, depth, r.ctx, r.world, i + 1); }
    }
  }

  /** A task uses the options that its download ended with. */
  lemma TaskUsesDownload(env: Env, depth: nat, ctx: Ctx, w: World)
    requires Stage(env, 0, ctx, w) && RunTask(env, depth, ctx, w).report.begun > 2
    ensures var w2 := Publish(Publish(w, Progress(ctx.uuid, Starting)), Progress(ctx.uuid, Downloading));
            var r, done := Download(env, depth, 0, ctx, w2), RunTask(env, depth, ctx, w);
            && r.outcome == Ok && done.ctx.options == r.ctx.options && done.ctx.uuid == ctx.uuid
  {
    hide RunStep, RunFrom, Stage, Download;
    var w1 := Publish(w, Progress(ctx.uuid, Starting));
    var w2 := Publish(w1, Progress(ctx.uuid, Downloading));
    LoopOnce(env, depth, ctx, w, 0);
    EarlySteps(env, depth, ctx, w1);
    LoopOnce(env, depth, ctx, w1, 1);
    EarlySteps(env, depth, ctx, w2);
    NextStage(env, depth, 0, ctx, w, Progress(ctx.uuid, Starting));
    NextStage(env, depth, 1, ctx, w1, Progress(ctx.uuid, Downloading));
    var r := Download(env, depth, 0, ctx, w2);
    if r.outcome == Ok { LaterStepsKeepOptions(env, depth, r.ctx, r.world, 2); }
  }

  /** Without redirections what is cloned for a pinned request is the plugin, in that version. */
  lemma PinnedDownload(env: Env, depth: nat, ctx: Ctx, w: World, version: string, u: Uuid)
    requires Coherent(env) && NoRedirects(env) && ctx.via.Market? && ctx.options.MarketOptions?
    requires ctx.options.version == Some(version) && version != ""
    requires Download(env, depth, 0, ctx, w).outcome == Ok
    ensures Delivers(Source(env, u, Download(env, depth, 0, ctx, w).ctx.options), Wanted(ctx), Text(version))
  {
    hide Upgradable, Choose, AlreadySatisfied, Delivers;
    var found := FromMarket(env, 0, ctx, w);
    assert !ctx.options.extra && env.market(ctx.uuid, 0).Some?;
    var entries := env.market(ctx.uuid, 0).value;
    MarketHopExactly(env, 0, ctx, w);
    var i, k :| IsOffered(env, ctx, w, entries, i, k) && LoadInstall(entries[i].versions[k]) == Some(found.value);
    var e, v, o := entries[i], entries[i].versions[k], found.value.1;
    assert e in entries && v in e.versions;
    assert CoherentVersion(env, e.Id(), v) && o.GitOptions?;
    LoadedOptionsFitTheMethod(v);
    assert Delivers(Source(env, u, o), Wanted(ctx), v.version.value);
  }

  /** A task for a pinned plugin that got past 'installing' has installed that plugin in that very version. */
  lemma PinnedTaskInstallsThatVersion(env: Env, depth: nat, ctx: Ctx, w: World, version: string)
    requires Stage(env, 0, ctx, w) && Coherent(env) && NoRedirects(env)
    requires ctx.via.Market? && ctx.options.MarketOptions? && ctx.options.version == Some(version) && version != ""
    ensures var done := RunTask(env, depth, ctx, w);
            done.report.begun > 9 ==>
              && InstalledOwn(done.ctx, done.world) && done.ctx.uuid == ctx.uuid
              && done.ctx.deb.value.id == Wanted(ctx) && done.ctx.deb.value.record.version == Text(version)
              && IsInstalled(done.world, Wanted(ctx), Text(version))
  {
    hide RunTask, Stage, Coherent, NoRedirects, Download, MetadataLoads;
    var done := RunTask(env, depth, ctx, w);
    if done.report.begun > 9 {
      CompletedMeansInstalled(env, depth, ctx, w);
      TaskUsesDownload(env, depth, ctx, w);
      var w2 := Publish(Publish(w, Progress(ctx.uuid, Starting)), Progress(ctx.uuid, Downloading));
      PinnedDownload(env, depth, ctx, w2, version, ctx.uuid);
    }
  }

  /** The log has a successful install of this plugin, in this version, by this task. */
  ghost predicate HasInstalled(calls: seq<RootCall>, u: Uuid, id: PluginId, version: string) {
    exists c <- calls :: c.InstallCall? && c.ok && c.uuid == u && c.deb.id == id
        && c.deb.record.version == Text(version)
  }

  lemma HasInstalledLater(calls: seq<RootCall>, later: seq<RootCall>, u: Uuid, id: PluginId, version: string)
    requires calls <= later && HasInstalled(calls, u, id, version)
    ensures HasInstalled(later, u, id, version)
  {
    var c :| c in calls && c.InstallCall? && c.ok && c.uuid == u && c.deb.id == id
        && c.deb.record.version == Text(version);
    assert c in later;
  }

  /** The task of one dependency. */
  lemma DependencyTask(env: Env, depth: nat, d: Dependency, ctx: Ctx, w: World)
    requires Numbered(w) && Coherent(env) && NoRedirects(env)
    ensures var child, w1 := NewCtx(w.next, Market, AsOptions(d), false, ctx.wazo), w.(next := w.next + 1);
            var done := RunTask(env, depth, child, w1);
            && Numbered(done.world) && done.report.uuid == w.next
            && (done.report.begun > 9 && !Unversioned(d.version) ==>
                  HasInstalled(done.world.calls, w.next, d.Id(), d.version.value))
  {
    hide RunTask, Coherent, NoRedirects, HasInstalled, Leftovers, Clones, Legal, Flatten, InstalledOwn;
    var child, w1 := NewCtx(w.next, Market, AsOptions(d), false, ctx.wazo), w.(next := w.next + 1);
    var done := RunTask(env, depth, child, w1);
    TaskWorkspace(env, depth, child, w1);
    TaskTrace(env, depth, child, w1);
    if done.report.begun > 9 && !Unversioned(d.version) {
      PinnedTaskInstallsThatVersion(env, depth, child, w1, d.version.value);
      OwnIsLogged(done.ctx, done.world, child.uuid, d.Id(), d.version.value);
    }
  }

  /** Whatever else is installed meanwhile, each nested task of a pinned dependency that got past 'installing' installed
      that dependency in the version it is pinned to. */
  lemma {:induction false} PinnedDependenciesGetTheirVersions(env: Env, depth: nat, items: seq<Dependency>, ctx: Ctx,
      w: World)
    requires Numbered(w) && Coherent(env) && NoRedirects(env) && forall d <- items :: DependencyLoads(d)
    ensures var r := InstallDependencies(env, depth, items, ctx, w);
            && |r.children| <= |items|
            && forall i | 0 <= i < |r.children| && r.children[i].begun > 9 && !Unversioned(items[i].version) ::
                 HasInstalled(r.world.calls, r.children[i].uuid, items[i].Id(), items[i].version.value)
    decreases |items|
  {
    hide RunTask, Coherent, NoRedirects, HasInstalled, Numbered, BuiltFor, AsOptions, NewCtx;
    if items != [] && depth > 0 {
      var d := items[0];
      assert DependencyLoads(d);
      DependencyTask(env, depth - 1, d, ctx, w);
      var child := NewCtx(w.next, Market, AsOptions(d), false, ctx.wazo);
      var done := RunTask(env, depth - 1, child, w.(next := w.next + 1));
      PinnedDependenciesGetTheirVersions(env, depth, items[1..], ctx, done.world);
      DependenciesBuild(env, depth, items[1..], ctx, done.world);
      var rest := InstallDependencies(env, depth, items[1..], ctx, done.world);
      var all := [done.report] + rest.children;
      forall i | 0 <= i < |all| && all[i].begun > 9 && !Unversioned(items[i].version)
        ensures HasInstalled(rest.world.calls, all[i].uuid, items[i].Id(), items[i].version.value)
      {
        if i == 0 {
          HasInstalledLater(done.world.calls, rest.world.calls, w.next, d.Id(), d.version.value);
        } else {
          assert all[i] == rest.children[i - 1] && items[i] == items[1..][i - 1];
        }
      }
    }
  }

  lemma OwnIsLogged(ctx: Ctx, w: World, u: Uuid, id: PluginId, version: string)
    requires InstalledOwn(ctx, w) && ctx.uuid == u && ctx.deb.value.id == id
        && ctx.deb.value.record.version == Text(version)
    ensures HasInstalled(w.calls, u, id, version)
  {
    assert w.calls[|w.calls| - 1] in w.calls;
  }
}
