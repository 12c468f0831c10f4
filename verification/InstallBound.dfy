/** Termination: on acyclic catalogs the bound on nested calls never shows. */
module InstallBound {
  import opened Wrappers
  import opened Versions
  import opened PackageNames
  import opened Catalog
  import opened Schema
  import opened Install
  import opened InstallTrace
  import opened InstallWorkspace

  /** Asking for `version` of an entry can select v. */
  predicate Selects(version: Option<string>, v: VersionInfo) {
    Unversioned(version) || v.version == Some(Text(version.value))
  }

  ghost predicate LowersEntry(rank: Options -> nat, e: Entry) {
    forall v <- e.versions, version, extra | Selects(version, v) && LoadInstall(v).Some? ::
      rank(LoadInstall(v).value.1) < rank(MarketOptions(e.namespace, e.name, version, extra))
  }

  ghost predicate LowersContent(rank: Options -> nat, o: Options, content: Content) {
    content.Tree? && content.file.Mapping? ==>
      forall d <- Declared(content.file.metadata) :: rank(AsOptions(d)) < rank(o)
  }

  /** Neither a market redirection nor a dependency leads back up: the catalog is acyclic. */
  ghost predicate Acyclic(env: Env, rank: Options -> nat) {
    && (forall u, hop :: env.market(u, hop).Some? ==> forall e <- env.market(u, hop).value :: LowersEntry(rank, e))
    && (forall u, o :: LowersContent(rank, o, Source(env, u, o)))
  }

  lemma MarketLowers(env: Env, rank: Options -> nat, hop: nat, ctx: Ctx, w: World)
    requires Acyclic(env, rank) && FromMarket(env, hop, ctx, w).Success?
    ensures rank(FromMarket(env, hop, ctx, w).value.1) < rank(ctx.options)
  {
    var id := PluginId(ctx.options.namespace, ctx.options.name);
    var entries := env.market(ctx.uuid, hop).value;
    var local := LocalVersions(w.installed);
    ChosenIsInstallable(env.loose, ctx.wazo, local, entries, id, ctx.options.version, ctx.reinstall);
    var c := Choose(env.loose, ctx.wazo, local, entries, id, ctx.options.version, ctx.reinstall);
    var e, v :| e in entries && e.Id() == id && v in e.versions
        && c.version == Marked(env.loose, ctx.wazo, Lookup(local, id), v)
                && (ctx.options.version.Some? && ctx.options.version.value != "" ==>
                    v.version == Some(Text(ctx.options.version.value)));
    assert LowersEntry(rank, e);
    assert Selects(ctx.options.version, v) && LoadInstall(v) == LoadInstall(c.version);
  }

  lemma {:induction false} DownloadSettles(env: Env, rank: Options -> nat, depth: nat, depth': nat, hop: nat,
                                           ctx: Ctx, w: World)
    requires Acyclic(env, rank) && rank(ctx.options) <= depth && rank(ctx.options) <= depth'
    ensures Download(env, depth, hop, ctx, w) == Download(env, depth', hop, ctx, w)
    ensures rank(Download(env, depth, hop, ctx, w).ctx.options) <= rank(ctx.options)
    decreases depth
  {
    hide FromMarket, Acyclic;
    if ctx.via.Market? {
      var found := FromMarket(env, hop, ctx, w);
      if found.Success? {
        MarketLowers(env, rank, hop, ctx, w);
        DownloadSettles(env, rank, depth - 1, depth' - 1, hop + 1,
                        ctx.(via := found.value.0, options := found.value.1), w);
      }
    }
  }

  lemma {:induction false} DependenciesSettle(env: Env, rank: Options -> nat, bound: nat, depth: nat, depth': nat,
                                              items: seq<Dependency>, ctx: Ctx, w: World)
    requires Acyclic(env, rank) && Numbered(w) && bound <= depth && bound <= depth'
    requires forall d <- items :: rank(AsOptions(d)) < bound
    ensures InstallDependencies(env, depth, items, ctx, w) == InstallDependencies(env, depth', items, ctx, w)
    decreases depth, 0, |items|
  {
    hide RunFrom, Handle, Acyclic;
    if items != [] {
      if !DependencyLoads(items[0]) {
        DependenciesSettle(env, rank, bound, depth, depth', items[1..], ctx, w);
      } else {
        assert rank(AsOptions(items[0])) < bound;
        var child := NewCtx(w.next, Market, AsOptions(items[0]), false, ctx.wazo);
        var w1 := w.(next := w.next + 1);
        TaskSettlesAt(env, rank, depth - 1, depth' - 1, child, w1);
        TaskWorkspace(env, depth - 1, child, w1);
        DependenciesSettle(env, rank, bound, depth, depth', items[1..], ctx, RunTask(env, depth - 1, child, w1).world);
      }
    }
  }

  lemma {:induction false} StepsSettle(env: Env, rank: Options -> nat, depth: nat, depth': nat, ctx: Ctx, w: World,
                                       i: nat)
    requires Acyclic(env, rank) && rank(ctx.options) <= depth && rank(ctx.options) <= depth'
    requires i <= STEP_COUNT && Stage(env, i, ctx, w)
    ensures RunFrom(env, depth, ctx, w, i) == RunFrom(env, depth', ctx, w, i)
    decreases depth, 2, STEP_COUNT - i
  {
    hide RunStep, Stage, Acyclic, StepAt;
    if i < STEP_COUNT {
      var event := Progress(ctx.uuid, StepAt(i));
      var w1 := Publish(w, event);
      NextStage(env, depth, i, ctx, w, event);
      StepSettles(env, rank, depth, depth', ctx, w1, i);
      var r := RunStep(env, depth, StepAt(i), ctx, w1);
      if r.outcome == Ok { StepsSettle(env, rank, depth, depth', r.ctx, r.world, i + 1); }
    }
  }

  lemma {:induction false} StepSettles(env: Env, rank: Options -> nat, depth: nat, depth': nat, ctx: Ctx, w: World,
                                       i: nat)
    requires Acyclic(env, rank) && rank(ctx.options) <= depth && rank(ctx.options) <= depth'
    requires i < STEP_COUNT && Stage(env, i, ctx, w)
    ensures var r := RunStep(env, depth, StepAt(i), ctx, w);
            r == RunStep(env, depth', StepAt(i), ctx, w) && rank(r.ctx.options) <= rank(ctx.options)
    decreases depth, 1, 0
  {
    hide MetadataLoads, Download, PackagePlugin, InstallDeb, UpdateApt, RunTask, Validate, Extract;
    if i == 1 {
      DownloadSettles(env, rank, depth, depth', 0, ctx, w);
    } else if i == 4 {
      assert LowersContent(rank, ctx.options, Source(env, ctx.uuid, ctx.options));
      DependenciesSettle(env, rank, rank(ctx.options), depth, depth', DeclaredBy(ctx), ctx, w);
      DependenciesKeep(env, depth, DeclaredBy(ctx), ctx, w);
    } else if i > 1 {
      StepAdvances(env, depth, i, ctx, w);
    }
  }

  /** From the rank of the request on, every bound gives the same events, final state and report:
      the mutually recursive install terminates on its own. */
  lemma {:induction false} TaskSettlesAt(env: Env, rank: Options -> nat, depth: nat, depth': nat, ctx: Ctx, w: World)
    requires Acyclic(env, rank) && rank(ctx.options) <= depth && rank(ctx.options) <= depth'
    requires Stage(env, 0, ctx, w)
    ensures RunTask(env, depth, ctx, w) == RunTask(env, depth', ctx, w)
    decreases depth, 3, 0
  {
    hide RunFrom, Stage, Acyclic;
    StepsSettle(env, rank, depth, depth', ctx, w, 0);
  }

  /** An entry all of whose loadable versions send the request back to itself. */
  predicate RedirectsToItself(e: Entry) {
    forall v <- e.versions ::
      LoadInstall(v).Some? ==> LoadInstall(v).value == (Market, MarketOptions(e.namespace, e.name, None, false))
  }

  /** What the market yields for such an entry, if anything, is the request itself. */
  lemma SelfRedirectYieldsItself(env: Env, hop: nat, ctx: Ctx, w: World)
    requires ctx.via == Market && ctx.options.MarketOptions? && ctx.options.version == None && !ctx.options.extra
    requires env.market(ctx.uuid, hop).Some?
    requires forall e <- env.market(ctx.uuid, hop).value ::
        e.Id() == PluginId(ctx.options.namespace, ctx.options.name) ==> RedirectsToItself(e)
    ensures var found := FromMarket(env, hop, ctx, w);
            && (found.Success? ==> found.value == (Market, ctx.options))
            && (found.Failure? ==> found.error != Ok)
  {
    hide Upgradable, AlreadySatisfied;
    if FromMarket(env, hop, ctx, w).Success? {
      var id := PluginId(ctx.options.namespace, ctx.options.name);
      var entries, local := env.market(ctx.uuid, hop).value, LocalVersions(w.installed);
      ChosenIsInstallable(env.loose, ctx.wazo, local, entries, id, ctx.options.version, ctx.reinstall);
      var c := Choose(env.loose, ctx.wazo, local, entries, id, ctx.options.version, ctx.reinstall);
      var e, v :| e in entries && e.Id() == id && v in e.versions
          && c.version == Marked(env.loose, ctx.wazo, Lookup(local, id), v);
      assert RedirectsToItself(e) && LoadInstall(v) == LoadInstall(c.version);
    }
  }

  /** A plugin that the market only redirects to itself is never downloaded, whatever the bound: the request either
      finds nothing to install at its first hop, or exhausts the bound and ends in an unexpected error. */
  lemma {:induction false} SelfRedirectNeverSettles(env: Env, depth: nat, hop: nat, ctx: Ctx, w: World,
                                                    entries: seq<Entry>)
    requires ctx.via == Market && ctx.options.MarketOptions? && ctx.options.version == None && !ctx.options.extra
    requires forall h: nat :: env.market(ctx.uuid, h) == Some(entries)
    requires forall e <- entries :: e.Id() == PluginId(ctx.options.namespace, ctx.options.name) ==> RedirectsToItself(e)
    ensures var c := Choose(env.loose, ctx.wazo, LocalVersions(w.installed), entries,
                            PluginId(ctx.options.namespace, ctx.options.name), None, ctx.reinstall);
            Download(env, depth, hop, ctx, w).outcome
            == if c.Satisfied? || c.NotUpgradable? then DependencyInstalled else Crashed
    decreases depth
  {
    hide Choose, LoadInstall;
    assert env.market(ctx.uuid, hop) == Some(entries);
    SelfRedirectYieldsItself(env, hop, ctx, w);
    var found := FromMarket(env, hop, ctx, w);
    if found.Success? && depth > 0 {
      assert ctx.(via := Market, options := ctx.options) == ctx;
      SelfRedirectNeverSettles(env, depth - 1, hop + 1, ctx, w, entries);
    }
  }
}
