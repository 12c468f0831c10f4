/** Installs from the market, dependencies included: each plugin at most once, never downwards,
    dependencies before dependents. */
module InstallProgress {
  import opened Wrappers
  import opened Versions
  import opened PackageNames
  import opened Catalog
  import opened Schema
  import opened Install
  import opened InstallTrace
  import opened InstallWorkspace
  import opened InstallLog
  import opened InstallClosure

  /* ---- What the market and the repositories are assumed to be ---- */

  /** A repository holds the plugin and the version its market entry announces, when it holds metadata at all. */
  ghost predicate Delivers(content: Content, id: PluginId, version: Scalar) {
    content.Tree? && content.file.Mapping? ==>
      var m := content.file.metadata;
      m.name == Some(id.name) && m.namespace == Some(id.namespace) && m.version == Some(version)
  }

  ghost predicate CoherentVersion(env: Env, id: PluginId, v: VersionInfo) {
    && v.version.Some? && v.version.value.Truthy()
    && match LoadInstall(v)
       case None => true
       case Some((_, o)) =>
         if o.MarketOptions? then PluginId(o.namespace, o.name) == id
         else forall u :: Delivers(Source(env, u, o), id, v.version.value)
  }

  ghost predicate Coherent(env: Env) {
    forall u, hop :: env.market(u, hop).Some? ==>
      forall e <- env.market(u, hop).value :: forall v <- e.versions :: CoherentVersion(env, e.Id(), v)
  }

  /** In this content, every declared dependency ranks below the plugin, and none is pinned when `once`. */
  ghost predicate RankedContent(rank: PluginId -> nat, once: bool, content: Content) {
    content.Tree? && content.file.Mapping? && content.file.metadata.name.Some?
        && content.file.metadata.namespace.Some? ==>
      var m := content.file.metadata;
      forall d <- Declared(m) :: rank(d.Id()) < rank(IdOf(m)) && (once ==> Unversioned(d.version))
  }

  /** The dependencies among plugins are acyclic. */
  ghost predicate Ranked(env: Env, rank: PluginId -> nat, once: bool) {
    forall u, o :: RankedContent(rank, once, Source(env, u, o))
  }

  ghost predicate AllTruthy(plugins: Plugins) { forall id <- plugins :: plugins[id].version.Truthy() }

  ghost predicate Sound(env: Env, rank: PluginId -> nat, once: bool) { Coherent(env) && Ranked(env, rank, once) }

  /* ---- What a task has been promised ---- */

  function VersionAt(plugins: Plugins, id: PluginId): Option<Scalar> { Lookup(LocalVersions(plugins), id) }

  ghost predicate PromisedContent(env: Env, once: bool, content: Content, id: PluginId, installed: Option<Scalar>) {
    content.Tree? && content.file.Mapping? ==>
      var m := content.file.metadata;
      && m.name == Some(id.name) && m.namespace == Some(id.namespace)
      && m.version.Some? && m.version.value.Truthy()
      && (installed.Some? ==> !once && LessThan(env.loose, installed, m.version))
  }

  /** Whatever is cloned with these options is plugin `id`, in a version above the one installed. */
  ghost predicate Promise(env: Env, once: bool, o: Options, id: PluginId, installed: Option<Scalar>) {
    o.GitOptions? && forall u :: PromisedContent(env, once, Source(env, u, o), id, installed)
  }

  predicate Asks(ctx: Ctx, id: PluginId) {
    ctx.via.Market? && ctx.options.MarketOptions? && PluginId(ctx.options.namespace, ctx.options.name) == id
  }

  /** The version the market yields is newer than the installed one; a redirection stays with the same plugin. */
  lemma MarketPromises(env: Env, hop: nat, ctx: Ctx, w: World, id: PluginId)
    requires Coherent(env) && Asks(ctx, id)
    ensures var installed := VersionAt(w.installed, id);
            var found := FromMarket(env, hop, ctx, w);
            found.Success? ==>
              var (via, o) := found.value;
              if o.MarketOptions? then via.Market? && PluginId(o.namespace, o.name) == id
              else via.Git? && Promise(env, installed.None?, o, id, installed)
  {
    var installed := VersionAt(w.installed, id);
    var found := FromMarket(env, hop, ctx, w);
    if found.Success? {
      var entries := env.market(ctx.uuid, hop).value;
      ChosenIsInstallable(env.loose, ctx.wazo, LocalVersions(w.installed), entries, id, ctx.options.version,
                          ctx.reinstall);
      var c := Choose(env.loose, ctx.wazo, LocalVersions(w.installed), entries, id, ctx.options.version, ctx.reinstall);
      var e, v :| e in entries && e.Id() == id && v in e.versions
          && c.version == Marked(env.loose, ctx.wazo, installed, v)
                  && Upgradable(env.loose, ctx.wazo, installed, v);
      assert CoherentVersion(env, id, v);
      assert LoadInstall(c.version) == LoadInstall(v) == Some(found.value);
      var o := found.value.1;
      if o.GitOptions? {
        forall u ensures PromisedContent(env, installed.None?, Source(env, u, o), id, installed) {
          assert Delivers(Source(env, u, o), id, v.version.value);
        }
      }
    }
  }

  lemma {:induction false} DownloadPromises(env: Env, depth: nat, hop: nat, ctx: Ctx, w: World, id: PluginId)
    requires Coherent(env) && Asks(ctx, id)
    ensures var r := Download(env, depth, hop, ctx, w);
            var installed := VersionAt(w.installed, id);
            r.outcome == Ok ==> Promise(env, installed.None?, r.ctx.options, id, installed)
    decreases depth
  {
    hide Choose, Promise, Coherent, LocalVersions;
    MarketPromises(env, hop, ctx, w, id);
    var found := FromMarket(env, hop, ctx, w);
    if found.Success? && depth > 0 {
      var ctx' := ctx.(via := found.value.0, options := found.value.1);
      if found.value.1.MarketOptions? {
        DownloadPromises(env, depth - 1, hop + 1, ctx', w, id);
      }
    }
  }

  /** An unversioned request without `reinstall` only goes on when the plugin is not installed. */
  lemma UnversionedMeansAbsent(env: Env, depth: nat, ctx: Ctx, w: World, id: PluginId)
    requires Asks(ctx, id) && Unversioned(ctx.options.version) && !ctx.reinstall && AllTruthy(w.installed)
    requires Download(env, depth, 0, ctx, w).outcome == Ok
    ensures id !in w.installed
  {
    var entries := env.market(ctx.uuid, 0).value;
    var updated := UpdateAll(env.loose, ctx.wazo, LocalVersions(w.installed), entries);
    FirstNamedIsNamed(updated, id);
    var e := FirstNamed(updated, id).value;
    assert !AlreadySatisfied(false, e.installedVersion, ctx.options.version);
    var k :| 0 <= k < |entries| && e == Updated(env.loose, ctx.wazo, LocalVersions(w.installed), entries[k]);
  }

  /* ---- The log of a market task ---- */

  /** The plugins are what the log made of the base, by installs that respect `MayReplace`. */
  ghost predicate Rising(env: Env, once: bool, base: Plugins, w: World) {
    w.installed == Replay(base, w.calls) && Progressive(env, once, base, w.calls) && AllTruthy(w.installed)
  }

  ghost predicate SameAt(a: Plugins, b: Plugins, id: PluginId) {
    (id in a <==> id in b) && (id in a ==> a[id] == b[id])
  }

  ghost predicate RankedDeb(rank: PluginId -> nat, call: RootCall) {
    call.InstallCall? ==> forall d <- call.deb.record.depends :: rank(d.Id()) < rank(call.deb.id)
  }

  /** From w to w' only plugins ranked below the bound were installed, and none removed. */
  ghost predicate Below(rank: PluginId -> nat, bound: nat, w: World, w': World) {
    && w.calls <= w'.calls
    && (forall k | |w.calls| <= k < |w'.calls| ::
          !w'.calls[k].RemoveCall? && RankedDeb(rank, w'.calls[k])
              && (Records(w'.calls[k]) ==> rank(w'.calls[k].deb.id) < bound))
    && (forall id | rank(id) >= bound :: SameAt(w.installed, w'.installed, id))
  }

  lemma BelowJoins(rank: PluginId -> nat, low: nat, bound: nat, w: World, mid: World, w': World)
    requires low <= bound && Below(rank, low, w, mid) && Below(rank, bound, mid, w')
    ensures Below(rank, bound, w, w')
  {
    forall k | |w.calls| <= k < |mid.calls| ensures w'.calls[k] == mid.calls[k] { }
    forall id | rank(id) >= bound ensures SameAt(w.installed, w'.installed, id) {
      assert SameAt(w.installed, mid.installed, id) && SameAt(mid.installed, w'.installed, id);
    }
  }

  lemma RisingIsTruthy(env: Env, once: bool, base: Plugins, w: World)
    requires Rising(env, once, base, w)
    ensures AllTruthy(w.installed)
  {
  }

  lemma BelowItself(rank: PluginId -> nat, bound: nat, w: World, w': World)
    requires w'.calls == w.calls && w'.installed == w.installed
    ensures Below(rank, bound, w, w')
    ensures forall env, once, base :: Rising(env, once, base, w) == Rising(env, once, base, w')
  {
  }

  lemma RisingCall(env: Env, rank: PluginId -> nat, bound: nat, once: bool, base: Plugins, w: World, w': World,
                   call: RootCall)
    requires Rising(env, once, base, w) && !call.RemoveCall? && RankedDeb(rank, call)
    requires w'.calls == w.calls + [call] && w'.installed == Effect(w.installed, call)
    requires Records(call) ==>
               && rank(call.deb.id) < bound && MayReplace(env, once, w.installed, call.deb)
               && call.deb.record.version.Truthy()
    ensures Rising(env, once, base, w') && Below(rank, bound, w, w')
  {
    ReplaySnoc(base, w.calls, call);
    ProgressiveCall(env, once, base, w.calls, call);
    BelowCall(env, rank, bound, w, w', call);
  }

  lemma ProgressiveCall(env: Env, once: bool, base: Plugins, calls: seq<RootCall>, call: RootCall)
    requires Progressive(env, once, base, calls)
    requires Records(call) ==> MayReplace(env, once, Replay(base, calls), call.deb)
    ensures Progressive(env, once, base, calls + [call])
  {
    hide Replay, MayReplace;
    var all := calls + [call];
    forall k | 0 <= k < |all| ensures Records(all[k]) ==> MayReplace(env, once, Replay(base, all[..k]), all[k].deb) {
      assert all[..k] == calls[..k];
      if k == |calls| { assert calls[..k] == calls; }
    }
  }

  lemma BelowCall(env: Env, rank: PluginId -> nat, bound: nat, w: World, w': World, call: RootCall)
    requires !call.RemoveCall? && RankedDeb(rank, call) && (Records(call) ==> rank(call.deb.id) < bound)
    requires w'.calls == w.calls + [call] && w'.installed == Effect(w.installed, call)
    ensures Below(rank, bound, w, w')
  {
    hide RankedDeb;
  }

  /* ---- What the task carries from step to step ---- */

  /** Before the download: the request. Up to the install: the promise, against a version that does not move. */
  ghost predicate Bound(env: Env, once: bool, id: PluginId, installed: Option<Scalar>, i: nat, ctx: Ctx, w: World) {
    && (i <= 1 ==> Asks(ctx, id) && (once ==> Unversioned(ctx.options.version) && !ctx.reinstall))
    && (2 <= i <= 8 ==> Promise(env, once, ctx.options, id, installed) && VersionAt(w.installed, id) == installed)
  }

  ghost predicate StillBound(env: Env, once: bool, id: PluginId, i: nat, ctx: Ctx, w: World) {
    exists installed :: Bound(env, once, id, installed, i, ctx, w)
  }

  /** The plugin being built is the one asked for, and its dependencies rank below it. */
  lemma BuildsWhatWasAsked(env: Env, rank: PluginId -> nat, once: bool, id: PluginId, installed: Option<Scalar>,
                           i: nat, ctx: Ctx, w: World)
    requires 4 <= i <= 8 && Stage(env, i, ctx, w) && Ranked(env, rank, once)
    requires Promise(env, once, ctx.options, id, installed)
    ensures var file := FileOf(ctx, w);
            && IdOf(ctx.metadata.value.metadata) == id && DeclaredBy(ctx) == Declared(file)
            && file.version.Some? && file.version.value.Truthy()
            && (installed.Some? ==> !once && LessThan(env.loose, installed, file.version))
            && forall d <- Declared(file) :: rank(d.Id()) < rank(id) && (once ==> Unversioned(d.version))
  {
    hide MetadataLoads;
    var content := Source(env, ctx.uuid, ctx.options);
    assert PromisedContent(env, once, content, id, installed);
    assert RankedContent(rank, once, content);
  }

  lemma {:induction false} DependenciesRise(env: Env, rank: PluginId -> nat, once: bool, base: Plugins, bound: nat,
                                            depth: nat,
                                            items: seq<Dependency>, ctx: Ctx, w: World)
    requires Sound(env, rank, once) && Numbered(w) && Rising(env, once, base, w)
    requires forall d <- items :: rank(d.Id()) < bound && (once ==> Unversioned(d.version))
    ensures var w' := InstallDependencies(env, depth, items, ctx, w).world;
            Rising(env, once, base, w') && Below(rank, bound, w, w')
    decreases depth, 0, |items|
  {
    hide RunTask, Rising, Below, MetadataLoads, Sound;
    BelowItself(rank, bound, w, w);
    if items != [] {
      var d := items[0];
      if !DependencyLoads(d) {
        DependenciesRise(env, rank, once, base, bound, depth, items[1..], ctx, w);
      } else if depth > 0 {
        var child := NewCtx(w.next, Market, AsOptions(d), false, ctx.wazo);
        var w1 := w.(next := w.next + 1);
        BelowItself(rank, rank(d.Id()) + 1, w, w1);
        TaskWorkspace(env, depth - 1, child, w1);
        TaskRises(env, rank, once, base, depth - 1, d.Id(), child, w1);
        var done := RunTask(env, depth - 1, child, w1);
        BelowJoins(rank, rank(d.Id()) + 1, rank(d.Id()) + 1, w, w1, done.world);
        DependenciesRise(env, rank, once, base, bound, depth, items[1..], ctx, done.world);
        BelowJoins(rank, rank(d.Id()) + 1, bound, w, done.world,
                   InstallDependencies(env, depth, items[1..], ctx, done.world).world);
      }
    }
  }

  lemma AboveIsUntouched(rank: PluginId -> nat, bound: nat, w: World, w': World, id: PluginId)
    requires Below(rank, bound, w, w') && rank(id) >= bound
    ensures VersionAt(w'.installed, id) == VersionAt(w.installed, id)
  {
    assert SameAt(w.installed, w'.installed, id);
  }

  lemma BelowWeaker(rank: PluginId -> nat, low: nat, w: World, w': World)
    requires Below(rank, low, w, w')
    ensures Below(rank, low + 1, w, w')
  {
  }

  lemma UpdateKeepsCtx(env: Env, ctx: Ctx, w: World)
    ensures UpdateApt(env, ctx, w).ctx == ctx && UpdateApt(env, ctx, w).world.installed == w.installed
  {
  }

  lemma VersionAtIs(plugins: Plugins, id: PluginId)
    ensures VersionAt(plugins, id) == if id in plugins then Some(plugins[id].version) else None
  {
  }

  lemma PromiseWeaker(env: Env, once: bool, o: Options, id: PluginId, installed: Option<Scalar>)
    requires Promise(env, installed.None?, o, id, installed) && (once ==> installed.None?)
    ensures Promise(env, once, o, id, installed)
  {
    forall u ensures PromisedContent(env, once, Source(env, u, o), id, installed) {
      assert PromisedContent(env, installed.None?, Source(env, u, o), id, installed);
    }
  }

  /** A step that changes neither plugins nor log carries the request or the promise on. */
  lemma QuietStepIsBound(env: Env, once: bool, depth: nat, id: PluginId, installed: Option<Scalar>, i: nat, ctx: Ctx,
                         w: World)
    requires Coherent(env) && i < STEP_COUNT && i !in {4, 7, 8} && Stage(env, i, ctx, w) && AllTruthy(w.installed)
    requires Bound(env, once, id, installed, i, ctx, w)
    ensures var r := RunStep(env, depth, StepAt(i), ctx, w);
            r.outcome == Ok ==> StillBound(env, once, id, i + 1, r.ctx, r.world)
  {
    hide MetadataLoads, Stage, PackagePlugin, Extract, Validate, Download, Promise, LocalVersions, Coherent;
    var r := RunStep(env, depth, StepAt(i), ctx, w);
    QuietStep(env, depth, i, ctx, w);
    StepAdvances(env, depth, i, ctx, w);
    if i == 0 {
      assert Bound(env, once, id, installed, i + 1, r.ctx, r.world);
    } else if i == 1 {
      var now := VersionAt(w.installed, id);
      if r.outcome == Ok {
        DownloadPromises(env, depth, 0, ctx, w, id);
        if once {
          UnversionedMeansAbsent(env, depth, ctx, w, id);
          VersionAtIs(w.installed, id);
        }
        PromiseWeaker(env, once, r.ctx.options, id, now);
        assert Bound(env, once, id, now, i + 1, r.ctx, r.world);
      }
    } else {
      assert Bound(env, once, id, installed, i + 1, r.ctx, r.world);
    }
  }

  /** The two steps that send a command to the root worker. */
  lemma CommandRises(env: Env, rank: PluginId -> nat, once: bool, base: Plugins, depth: nat, id: PluginId,
                     installed: Option<Scalar>, i: nat, ctx: Ctx, w: World)
    requires Sound(env, rank, once) && 7 <= i <= 8 && Stage(env, i, ctx, w) && Rising(env, once, base, w)
    requires Bound(env, once, id, installed, i, ctx, w)
    ensures var r := RunStep(env, depth, StepAt(i), ctx, w);
            && Rising(env, once, base, r.world) && Below(rank, rank(id) + 1, w, r.world)
            && (r.outcome == Ok ==> StillBound(env, once, id, i + 1, r.ctx, r.world))
  {
    hide MetadataLoads, Stage, Rising, Below, RunTask, PackagePlugin, Extract, Validate, Download, InstallDeb,
        UpdateApt, Clean, Promise, LocalVersions, Replay;
    var r := RunStep(env, depth, StepAt(i), ctx, w);
    if i == 7 {
      UpdatesExactlyWithDepends(env, ctx, w);
      if r.world.calls == w.calls {
        BelowItself(rank, rank(id) + 1, w, r.world);
      } else {
        RisingCall(env, rank, rank(id) + 1, once, base, w, r.world, UpdateCall(ctx.uuid, env.ok(ctx.uuid, AptUpdate)));
      }
      UpdateKeepsCtx(env, ctx, w);
      assert Bound(env, once, id, installed, i + 1, r.ctx, r.world);
    } else {
      BuildsWhatWasAsked(env, rank, once, id, installed, i, ctx, w);
      InstallsOwnPackage(env, ctx, w);
      PackagedDepends(env, i, ctx, w);
      VersionAtIs(w.installed, id);
      RisingCall(env, rank, rank(id) + 1, once, base, w, r.world,
                 InstallCall(ctx.uuid, ctx.deb.value, GdebiUnpacks(env, ctx.uuid, ctx.deb.value, w), r.outcome == Ok));
      assert Bound(env, once, id, installed, i + 1, r.ctx, r.world);
    }
  }

  /** One step of a market task for plugin `id`. */
  lemma {:induction false} StepRises(env: Env, rank: PluginId -> nat, once: bool, base: Plugins, depth: nat,
                                     id: PluginId,
                                     installed: Option<Scalar>, i: nat, ctx: Ctx, w: World)
    requires Sound(env, rank, once) && i < STEP_COUNT && Stage(env, i, ctx, w) && Rising(env, once, base, w)
    requires Bound(env, once, id, installed, i, ctx, w)
    ensures var r := RunStep(env, depth, StepAt(i), ctx, w);
            && Rising(env, once, base, r.world) && Below(rank, rank(id) + 1, w, r.world)
            && (r.outcome == Ok ==> StillBound(env, once, id, i + 1, r.ctx, r.world))
    decreases depth, 1, 0
  {
    hide MetadataLoads, Stage, Rising, Below, RunTask, PackagePlugin, Extract, Validate, Download, InstallDeb,
        UpdateApt, Clean, Promise, LocalVersions, Replay;
    var r := RunStep(env, depth, StepAt(i), ctx, w);
    if i == 4 {
      BuildsWhatWasAsked(env, rank, once, id, installed, i, ctx, w);
      StageIsNumbered(env, i, ctx, w);
      DependenciesRise(env, rank, once, base, rank(id), depth, DeclaredBy(ctx), ctx, w);
      DependenciesKeep(env, depth, DeclaredBy(ctx), ctx, w);
      AboveIsUntouched(rank, rank(id), w, r.world, id);
      BelowWeaker(rank, rank(id), w, r.world);
      assert Bound(env, once, id, installed, i + 1, r.ctx, r.world);
    } else if i == 7 || i == 8 {
      CommandRises(env, rank, once, base, depth, id, installed, i, ctx, w);
    } else {
      QuietStep(env, depth, i, ctx, w);
      BelowItself(rank, rank(id) + 1, w, r.world);
      RisingIsTruthy(env, once, base, w);
      QuietStepIsBound(env, once, depth, id, installed, i, ctx, w);
    }
  }

  lemma {:induction false} StepsRise(env: Env, rank: PluginId -> nat, once: bool, base: Plugins, depth: nat,
                                     id: PluginId,
                                     installed: Option<Scalar>, i: nat, ctx: Ctx, w: World)
    requires Sound(env, rank, once) && i <= STEP_COUNT && Stage(env, i, ctx, w) && Rising(env, once, base, w)
    requires Bound(env, once, id, installed, i, ctx, w)
    ensures var w' := RunFrom(env, depth, ctx, w, i).world;
            Rising(env, once, base, w') && Below(rank, rank(id) + 1, w, w')
    decreases depth, 2, STEP_COUNT - i
  {
    hide RunStep, StepAt, Stage, Rising, Below, MetadataLoads, Sound, InstallDependencies, Promise, Asks, VersionAt;
    if i == STEP_COUNT {
      BelowItself(rank, rank(id) + 1, w, w);
    } else {
      var event := Progress(ctx.uuid, StepAt(i));
      var w1 := Publish(w, event);
      BelowItself(rank, rank(id) + 1, w, w1);
      NextStage(env, depth, i, ctx, w, event);
      StepRises(env, rank, once, base, depth, id, installed, i, ctx, w1);
      var r := RunStep(env, depth, StepAt(i), ctx, w1);
      BelowJoins(rank, rank(id) + 1, rank(id) + 1, w, w1, r.world);
      if r.outcome == Ok {
        var v :| Bound(env, once, id, v, i + 1, r.ctx, r.world);
        StepsRise(env, rank, once, base, depth, id, v, i + 1, r.ctx, r.world);
        BelowJoins(rank, rank(id) + 1, rank(id) + 1, w, r.world, RunFrom(env, depth, r.ctx, r.world, i + 1).world);
      }
    }
  }

  /** A task that asks the market for plugin `id` only installs plugins ranked up to `id`, each one either
      absent before (always so when `once`) or in a lower version. */
  lemma {:induction false} TaskRises(env: Env, rank: PluginId -> nat, once: bool, base: Plugins, depth: nat,
                                     id: PluginId, ctx: Ctx, w: World)
    requires Sound(env, rank, once) && Stage(env, 0, ctx, w) && Rising(env, once, base, w)
    requires Asks(ctx, id) && (once ==> Unversioned(ctx.options.version) && !ctx.reinstall)
    ensures var w' := RunTask(env, depth, ctx, w).world;
            Rising(env, once, base, w') && Below(rank, rank(id) + 1, w, w')
    decreases depth, 3, 0
  {
    hide RunFrom, Stage, Rising, Below, Sound;
    assert Bound(env, once, id, None, 0, ctx, w);
    StepsRise(env, rank, once, base, depth, id, None, 0, ctx, w);
    var run := RunFrom(env, depth, ctx, w, 0);
    var done := RunTask(env, depth, ctx, w);
    BelowItself(rank, rank(id) + 1, run.world, done.world);
    BelowJoins(rank, rank(id) + 1, rank(id) + 1, w, run.world, done.world);
  }

  /* ---- Any top-level task ---- */

  /** The log up to n consists of first installs; the rest is at most the top-level plugin's own install,
      ranked above all the others. */
  ghost predicate OnceThenOwn(env: Env, rank: PluginId -> nat, base: Plugins, calls: seq<RootCall>, n: nat) {
    && |calls| - 1 <= n <= |calls| && Progressive(env, true, base, calls[..n]) && NoRemoval(calls)
    && (forall c <- calls :: RankedDeb(rank, c))
    && (n < |calls| ==> forall k | 0 <= k < n :: Records(calls[k]) && Records(calls[n]) ==>
        rank(calls[k].deb.id) < rank(calls[n].deb.id))
  }

  lemma FirstInstallsOnly(env: Env, rank: PluginId -> nat, bound: nat, start: World, w: World)
    requires start.calls == [] && Rising(env, true, start.installed, w) && Below(rank, bound, start, w)
    ensures OnceThenOwn(env, rank, start.installed, w.calls, |w.calls|)
  {
    assert w.calls[..|w.calls|] == w.calls;
  }

  /** Appending the top-level plugin's own install, whatever was installed of it before. */
  lemma OwnInstallLast(env: Env, rank: PluginId -> nat, start: World, w: World, call: RootCall)
    requires start.calls == [] && Rising(env, true, start.installed, w) && call.InstallCall? && RankedDeb(rank, call)
    requires Below(rank, rank(call.deb.id), start, w)
    ensures OnceThenOwn(env, rank, start.installed, w.calls + [call], |w.calls|)
  {
    assert (w.calls + [call])[..|w.calls|] == w.calls;
  }

  predicate HasId(ctx: Ctx, id: PluginId) {
    HasMapping(ctx) && ctx.metadata.value.metadata.name == Some(id.name)
        && ctx.metadata.value.metadata.namespace == Some(id.namespace)
  }

  ghost predicate LogIsOnce(env: Env, rank: PluginId -> nat, start: World, w: World) {
    exists n :: OnceThenOwn(env, rank, start.installed, w.calls, n)
  }

  /** The dependencies of what is being built rank below it. */
  lemma DependsRankBelow(env: Env, rank: PluginId -> nat, i: nat, ctx: Ctx, w: World, id: PluginId)
    requires 4 <= i <= 8 && Stage(env, i, ctx, w) && Ranked(env, rank, true) && HasId(ctx, id)
    ensures DeclaredBy(ctx) == Declared(FileOf(ctx, w))
    ensures forall d <- DeclaredBy(ctx) :: rank(d.Id()) < rank(id) && Unversioned(d.version)
  {
    hide MetadataLoads;
    assert RankedContent(rank, true, Source(env, ctx.uuid, ctx.options));
  }

  lemma StepKeepsId(env: Env, depth: nat, i: nat, ctx: Ctx, w: World, id: PluginId)
    requires 4 <= i < STEP_COUNT && Validated(ctx) && HasId(ctx, id)
    ensures HasId(RunStep(env, depth, StepAt(i), ctx, w).ctx, id)
  {
    hide MetadataLoads, Exec, GdebiUnpacks, GdebiSucceeds, DebOf, Renders, Download, Extract, Validate;
    if i == 4 { DependenciesKeep(env, depth, DeclaredBy(ctx), ctx, w); }
  }

  /** From 'building' on, with the plugin's identity known. */
  lemma {:induction false} LateStepsOnce(env: Env, rank: PluginId -> nat, start: World, depth: nat, id: PluginId,
                                         i: nat, ctx: Ctx, w: World)
    requires Sound(env, rank, true) && 5 <= i <= STEP_COUNT && Stage(env, i, ctx, w) && HasId(ctx, id)
        && start.calls == []
    requires if i <= 8 then Rising(env, true, start.installed, w) && Below(rank, rank(id), start, w)
        else LogIsOnce(env, rank, start, w)
    ensures LogIsOnce(env, rank, start, RunFrom(env, depth, ctx, w, i).world)
    decreases STEP_COUNT - i
  {
    hide RunStep, Stage, Rising, Below, MetadataLoads, Validated, OnceThenOwn, InstallDeb, UpdateApt;
    var rk := rank(id);
    if i <= 8 { FirstInstallsOnly(env, rank, rk, start, w); }
    if i < STEP_COUNT {
      var event := Progress(ctx.uuid, StepAt(i));
      var w1 := Publish(w, event);
      BelowItself(rank, rk, w, w1);
      NextStage(env, depth, i, ctx, w, event);
      StageIsValidated(env, i, ctx, w1);
      StepKeepsId(env, depth, i, ctx, w1, id);
      var r := RunStep(env, depth, StepAt(i), ctx, w1);
      StepIs(env, depth, i, ctx, w1);
      if i == 8 {
        InstallsOwnPackage(env, ctx, w1);
        PackagedDepends(env, i, ctx, w1);
        DependsRankBelow(env, rank, i, ctx, w1, id);
        OwnInstallLast(env, rank, start, w, 
                       InstallCall(ctx.uuid, ctx.deb.value, GdebiUnpacks(env, ctx.uuid, ctx.deb.value, w),
                                   r.outcome == Ok));
      } else if i == 7 {
        UpdatesExactlyWithDepends(env, ctx, w1);
        if r.world.calls == w1.calls {
          BelowItself(rank, rk, w, r.world);
        } else {
          RisingCall(env, rank, rk, true, start.installed, w, r.world,
                     UpdateCall(ctx.uuid, env.ok(ctx.uuid, AptUpdate)));
        }
        BelowJoins(rank, rk, rk, start, w, r.world);
        FirstInstallsOnly(env, rank, rk, start, r.world);
      } else {
        QuietStep(env, depth, i, ctx, w1);
        BelowItself(rank, rk, w, r.world);
        if i < 8 { BelowJoins(rank, rk, rk, start, w, r.world); }
      }
      if r.outcome == Ok { LateStepsOnce(env, rank, start, depth, id, i + 1, r.ctx, r.world); }
    }
  }

  lemma StageIsValidated(env: Env, i: nat, ctx: Ctx, w: World)
    requires i >= 4 && Stage(env, i, ctx, w)
    ensures Validated(ctx)
  {
  }

  lemma StepIs(env: Env, depth: nat, i: nat, ctx: Ctx, w: World)
    ensures i == 7 ==> RunStep(env, depth, StepAt(i), ctx, w) == UpdateApt(env, ctx, w)
    ensures i == 8 ==> RunStep(env, depth, StepAt(i), ctx, w) == InstallDeb(env, ctx, w)
    ensures i == 4 ==>
              RunStep(env, depth, StepAt(i), ctx, w) == InstallDependencies(env, depth, DeclaredBy(ctx), ctx, w)
  {
  }

  /** Up to the dependencies nothing is sent. */
  lemma {:induction false} EarlyStepsOnce(env: Env, rank: PluginId -> nat, start: World, depth: nat, i: nat, ctx: Ctx,
                                          w: World)
    requires Sound(env, rank, true) && i <= 4 && Stage(env, i, ctx, w) && start.calls == []
        && AllTruthy(start.installed)
    requires w.calls == [] && w.installed == start.installed
    ensures LogIsOnce(env, rank, start, RunFrom(env, depth, ctx, w, i).world)
    decreases 4 - i
  {
    hide RunStep, Stage, Below, MetadataLoads, OnceThenOwn, InstallDependencies, Replay;
    var event := Progress(ctx.uuid, StepAt(i));
    var w1 := Publish(w, event);
    NextStage(env, depth, i, ctx, w, event);
    var r := RunStep(env, depth, StepAt(i), ctx, w1);
    EmptyLogRises(env, start.installed, w1);
    if i == 4 {
      StageIsValidated(env, i, ctx, w1);
      StageIsNumbered(env, i, ctx, w1);
      StepIs(env, depth, i, ctx, w1);
      LoadedHasNames(ctx.wazo, ctx.metadata.value.metadata);
      var id := IdOf(ctx.metadata.value.metadata);
      DependsRankBelow(env, rank, i, ctx, w1, id);
      DependenciesKeep(env, depth, DeclaredBy(ctx), ctx, w1);
      DependenciesRise(env, rank, true, start.installed, rank(id), depth, DeclaredBy(ctx), ctx, w1);
      BelowItself(rank, rank(id), start, w1);
      BelowJoins(rank, rank(id), rank(id), start, w1, r.world);
      FirstInstallsOnly(env, rank, rank(id), start, r.world);
      if r.outcome == Ok { LateStepsOnce(env, rank, start, depth, id, i + 1, r.ctx, r.world); }
    } else {
      QuietStep(env, depth, i, ctx, w1);
      BelowItself(rank, 0, start, r.world);
      EmptyLogRises(env, start.installed, r.world);
      FirstInstallsOnly(env, rank, 0, start, r.world);
      if r.outcome == Ok { EarlyStepsOnce(env, rank, start, depth, i + 1, r.ctx, r.world); }
    }
  }

  lemma EmptyLogRises(env: Env, base: Plugins, w: World)
    requires w.calls == [] && w.installed == base && AllTruthy(base)
    ensures Rising(env, true, base, w)
  {
  }

  /** A top-level task, by any method: with acyclic, unpinned dependencies every plugin is installed at
      most once, shared dependencies included, and each dependency before its dependents. */
  lemma TaskInstallsOnceInOrder(env: Env, rank: PluginId -> nat, depth: nat, ctx: Ctx, w: World, i: nat, j: nat)
    requires Sound(env, rank, true) && ArchiveIsForeign(env)
    requires Stage(env, 0, ctx, w) && w.calls == [] && AllTruthy(w.installed) && forall x <- w.installed :: Named(x)
    ensures var calls := RunTask(env, depth, ctx, w).world.calls;
            i < |calls| && j < |calls| && i != j && Records(calls[i]) && Records(calls[j]) ==>
              && calls[i].deb.id != calls[j].deb.id
              && (forall d <- calls[i].deb.record.depends | d.Id() == calls[j].deb.id && IsWellNamed(d.Id()) :: j < i)
  {
    hide RunFrom, Stage;
    EarlyStepsOnce(env, rank, w, depth, 0, ctx, w);
    EmptyLogIsLogged(env, w);
    TaskLogged(env, w.installed, depth, ctx, w);
    var calls := RunTask(env, depth, ctx, w).world.calls;
    assert calls == RunFrom(env, depth, ctx, w, 0).world.calls;
    var n :| OnceThenOwn(env, rank, w.installed, calls, n);
    if i < |calls| && j < |calls| && i != j && Records(calls[i]) && Records(calls[j]) {
      OnceInOrder(env, rank, w.installed, calls, n, i, j);
    }
  }

  lemma EmptyLogIsLogged(env: Env, w: World)
    requires w.calls == []
    ensures Logged(env, w.installed, w)
  {
  }

  lemma OnceInOrder(env: Env, rank: PluginId -> nat, base: Plugins, calls: seq<RootCall>, n: nat, i: nat, j: nat)
    requires OnceThenOwn(env, rank, base, calls, n) && Lawful(env, base, calls) && ArchiveIsForeign(env)
    requires forall x <- base :: Named(x)
    requires i < |calls| && j < |calls| && i != j && Records(calls[i]) && Records(calls[j])
    ensures calls[i].deb.id != calls[j].deb.id
    ensures forall d <- calls[i].deb.record.depends | d.Id() == calls[j].deb.id && IsWellNamed(d.Id()) :: j < i
  {
    hide Lawful, Progressive;
    var most := calls[..n];
    if i < n && j < n {
      PrefixIsLawful(env, base, calls, n);
      FirstInstallsDiffer(env, base, most, if i < j then i else j, if i < j then j else i);
      forall d <- calls[i].deb.record.depends | d.Id() == calls[j].deb.id && IsWellNamed(d.Id()) ensures j < i {
        DependencyComesFirst(env, base, most, i, j, d);
      }
    } else if i < n {
      assert RankedDeb(rank, calls[i]);
    }
  }

  lemma PrefixIsLawful(env: Env, base: Plugins, calls: seq<RootCall>, n: nat)
    requires Lawful(env, base, calls) && n <= |calls|
    ensures Lawful(env, base, calls[..n])
  {
    hide LawfulCall;
    var most := calls[..n];
    forall k | 0 <= k < n ensures LawfulCall(env, Replay(base, most[..k]), most[k]) { assert most[..k] == calls[..k]; }
  }
}
