/** How each task ends, exactly: the condition on its surroundings under which it completes, and under which each
    command makes it fail. */
module InstallOutcome {
  import opened Wrappers
  import opened Versions
  import opened PackageNames
  import opened Catalog
  import opened Schema
  import opened Install
  import opened InstallTrace
  import opened InstallWorkspace
  import opened InstallLog
  import opened InstallClosure

  /* ---- What a git task needs ---- */

  predicate Works(env: Env, u: Uuid, action: Action) { env.starts(u, action) && env.ok(u, action) }

  /** The command ran and returned something else than zero. */
  predicate ReturnsBadly(env: Env, u: Uuid, action: Action) { env.starts(u, action) && !env.ok(u, action) }

  /** What is in the place to extract from: the subdirectory if one is named, the whole clone otherwise. */
  function Cloned(env: Env, ctx: Ctx): Content
    requires ctx.options.GitOptions?
  {
    var o := ctx.options;
    env.repo(ctx.uuid, o.url, o.ref, if o.subdirectory == Some("") then None else o.subdirectory)
  }

  /** The version in the file, as text, is not the one installed. */
  predicate IsNews(w: World, file: Metadata)
    requires file.name.Some? && file.namespace.Some? && file.version.Some?
  {
    var id := PluginId(file.namespace.value, file.name.value);
    !(id in w.installed && w.installed[id].version == Text(file.version.value.Str()))
  }

  /** Names can be appended to `debian_depends`, and the template can go through it. */
  predicate DebianFieldServes(file: Metadata) {
    match file.debianDepends
    case NoDebian => true
    case Debian(_) => true
    case NumberDebian(zero) => zero && Declared(file) == []
    case _ => Declared(file) == []
  }

  predicate HasDependencies(file: Metadata) { DebianDepends(file) != [] || Declared(file) != [] }

  /** Every package that the plugin's own package depends on is there. */
  predicate Provided(env: Env, installed: Plugins, file: Metadata) {
    && (forall package <- DebianDepends(file) :: DependMet(env, installed, package))
    && (forall d <- Declared(file) :: DependMet(env, installed, PackageName(d.Id())))
  }

  /** The context and the world in which the dependencies of a file are installed. */
  function ValidatedCtx(ctx: Ctx, file: Metadata): Ctx {
    ctx.(metadata := Some(Mapping(Coerced(file))), extracted := true, reinstall := false)
  }

  function ExtractedWorld(ctx: Ctx, w: World, file: Metadata): World
    requires ctx.options.GitOptions?
  {
    var whole := ctx.options.subdirectory.None? || ctx.options.subdirectory.value == "";
    w.(events := w.events + Announced(ctx.uuid, 0, 5),
       extracted := w.extracted[ctx.uuid := Mapping(file)],
       downloads := if whole then w.downloads else w.downloads + {ctx.uuid})
  }

  /** The plugins installed once the tasks of the dependencies have run. */
  function AfterDependencies(env: Env, depth: nat, ctx: Ctx, w: World, file: Metadata): Plugins
    requires ctx.options.GitOptions?
  {
    InstallDependencies(env, depth, Declared(file), ValidatedCtx(ctx, file),
                        ExtractedWorld(ctx, w, file)).world.installed
  }

  /* ---- The ending, step by step ---- */

  type Halt = (nat, Outcome)

  /** From 'installing' back to 'downloading': the last step announced and the outcome. */
  function RootEnding(env: Env, u: Uuid, installed: Plugins, file: Metadata): Halt {
    if HasDependencies(file) && !env.ok(u, AptUpdate) then (8, Crashed)
    else if !env.ok(u, Gdebi) || !Provided(env, installed, file) then (9, Crashed)
    else (11, Ok)
  }

  function DebEnding(env: Env, u: Uuid, installed: Plugins, file: Metadata): Halt {
    if !DebianFieldServes(file) || !env.ok(u, WriteDebianFiles) then (7, Crashed)
    else if !env.starts(u, DpkgDeb) then (7, Crashed)
    else if !env.ok(u, DpkgDeb) then (7, CommandFailed)
    else RootEnding(env, u, installed, file)
  }

  function CopyEnding(env: Env, u: Uuid, installed: Plugins, file: Metadata): Halt {
    if !env.ok(u, MakeDataDir) || !env.starts(u, CopyData) then (7, Crashed)
    else if !env.ok(u, CopyData) then (7, CommandFailed)
    else DebEnding(env, u, installed, file)
  }

  function PackageEnding(env: Env, u: Uuid, installed: Plugins, file: Metadata): Halt {
    if !env.ok(u, MakePackageDir) || !env.starts(u, PackageRules) then (7, Crashed)
    else if !env.ok(u, PackageRules) then (7, CommandFailed)
    else CopyEnding(env, u, installed, file)
  }

  function BuildEnding(env: Env, u: Uuid, installed: Plugins, file: Metadata): Halt {
    if !env.starts(u, Build) then (6, Crashed)
    else if !env.ok(u, Build) then (6, CommandFailed)
    else PackageEnding(env, u, installed, file)
  }

  /** With the clone in place. */
  function ExtractEnding(env: Env, depth: nat, ctx: Ctx, w: World): Halt
    requires ctx.options.GitOptions?
  {
    if !env.ok(ctx.uuid, Move) then (3, Crashed)
    else
      match Cloned(env, ctx)
      case Missing => (3, Crashed)
      case Tree(Unreadable) => (3, Crashed)
      case Tree(NotAMapping) => (4, Crashed)
      case Tree(Mapping(file)) =>
        if !MetadataLoads(ctx.wazo, Coerced(file)) then (4, InvalidMetadata)
        else if !ctx.reinstall && !IsNews(w, file) then (4, AlreadyInstalled)
        else if depth == 0 && Declared(file) != [] then (5, Crashed)
        else BuildEnding(env, ctx.uuid, AfterDependencies(env, depth, ctx, w, file), file)
  }

  function GitEnding(env: Env, depth: nat, ctx: Ctx, w: World): Halt
    requires ctx.options.GitOptions?
  {
    if !env.starts(ctx.uuid, Clone) then (2, Crashed)
    else if !env.ok(ctx.uuid, Clone) then (2, CommandFailed)
    else ExtractEnding(env, depth, ctx, w)
  }

  /* ---- The steps reach those endings ---- */

  function EndingOf(run: Run): Halt { (run.begun, run.outcome) }

  /** One round of the loop. */
  lemma LoopOnce(env: Env, depth: nat, ctx: Ctx, w: World, i: nat)
    requires i < STEP_COUNT
    ensures var r := RunStep(env, depth, StepAt(i), ctx, Publish(w, Progress(ctx.uuid, StepAt(i))));
            var run := RunFrom(env, depth, ctx, w, i);
            if r.outcome != Ok then EndingOf(run) == (i + 1, r.outcome) && run.world == r.world && run.ctx == r.ctx
            else
              var rest := RunFrom(env, depth, r.ctx, r.world, i + 1);
              EndingOf(run) == EndingOf(rest) && run.world == rest.world && run.ctx == rest.ctx
  {
    hide RunStep;
  }

  /** The package of a valid file. */
  function PackageOf(file: Metadata): Deb
    requires file.name.Some? && file.namespace.Some? && file.version.Some?
  {
    Deb(PluginId(file.namespace.value, file.name.value), Record(file.version.value, Declared(file)),
        DebianDepends(file) + GeneratedNames(Declared(file)))
  }

  /** The task after packaging. */
  predicate IsPackaged(ctx: Ctx, file: Metadata) {
    && file.name.Some? && file.namespace.Some? && file.version.Some?
    && ctx.deb == Some(PackageOf(file)) && HasMapping(ctx)
    && DebianDepends(ctx.metadata.value.metadata) == PackageOf(file).depends
  }

  lemma PackageIsProvided(env: Env, w: World, file: Metadata)
    requires file.name.Some? && file.namespace.Some? && file.version.Some?
    ensures DependsMet(env, PackageOf(file), w) <==> Provided(env, w.installed, file)
    ensures PackageOf(file).depends != [] <==> HasDependencies(file)
  {
    hide DependMet;
    var names, generated := DebianDepends(file), GeneratedNames(Declared(file));
    if Provided(env, w.installed, file) {
      forall package <- names + generated ensures DependMet(env, w.installed, package) {
        if package !in names {
          var k :| 0 <= k < |generated| && package == generated[k];
          assert Declared(file)[k] in Declared(file);
        }
      }
    }
    if DependsMet(env, PackageOf(file), w) {
      forall package <- names ensures DependMet(env, w.installed, package) { assert package in names + generated; }
      forall d <- Declared(file) ensures DependMet(env, w.installed, PackageName(d.Id())) {
        var k :| 0 <= k < |Declared(file)| && d == Declared(file)[k];
        assert (names + generated)[|names| + k] == generated[k] == PackageName(d.Id());
      }
    }
  }

  lemma FromInstalling(env: Env, depth: nat, ctx: Ctx, w: World, file: Metadata)
    requires IsPackaged(ctx, file)
    ensures var run := RunFrom(env, depth, ctx, w, 8);
            && EndingOf(run) == (if !env.ok(ctx.uuid, Gdebi) || !Provided(env, w.installed, file) then (9, Crashed)
                else (11, Ok))
            && (run.outcome == Ok ==>
                  run.world.installed == w.installed[PackageOf(file).id := PackageOf(file).record])
  {
    hide RunStep, RunFrom, Provided, DependsMet, StepAt;
    PackageIsProvided(env, w, file);
    LoopOnce(env, depth, ctx, w, 8);
    var w1 := Publish(w, Progress(ctx.uuid, StepAt(8)));
    LateStep(env, depth, 8, ctx, w1);
    var r := InstallDeb(env, ctx, w1);
    assert DependsMet(env, PackageOf(file), w1)
        == DependsMet(env, PackageOf(file), w) by { InstalledDecides(env, PackageOf(file), w, w1); }
    if r.outcome == Ok { FromCleaning(env, depth, ctx, r.world); }
  }

  lemma InstalledDecides(env: Env, deb: Deb, w: World, w': World)
    requires w'.installed == w.installed
    ensures DependsMet(env, deb, w') == DependsMet(env, deb, w)
  {
  }

  /** Which function runs each late step. */
  lemma LateStep(env: Env, depth: nat, i: nat, ctx: Ctx, w: World)
    requires 5 <= i < STEP_COUNT
    ensures RunStep(env, depth, StepAt(i), ctx, w) ==
            match i
            case 5 => BuildPlugin(env, ctx, w)
            case 6 => PackagePlugin(env, ctx, w)
            case 7 => UpdateApt(env, ctx, w)
            case 8 => InstallDeb(env, ctx, w)
            case 9 => StepResult(Ok, ctx, Clean(ctx, w), [])
            case _ => StepResult(Ok, ctx, w, [])
  {
  }

  lemma FromCleaning(env: Env, depth: nat, ctx: Ctx, w: World)
    ensures var run := RunFrom(env, depth, ctx, w, 9);
            EndingOf(run) == (11, Ok) && run.world.installed == w.installed
  {
    hide RunStep, StepAt;
    LoopOnce(env, depth, ctx, w, 9);
    var w1 := Publish(w, Progress(ctx.uuid, StepAt(9)));
    LateStep(env, depth, 9, ctx, w1);
    var w2 := Clean(ctx, w1);
    LoopOnce(env, depth, ctx, w2, 10);
    LateStep(env, depth, 10, ctx, Publish(w2, Progress(ctx.uuid, StepAt(10))));
  }

  lemma FromUpdating(env: Env, depth: nat, ctx: Ctx, w: World, file: Metadata)
    requires IsPackaged(ctx, file)
    ensures var run := RunFrom(env, depth, ctx, w, 7);
            && EndingOf(run) == RootEnding(env, ctx.uuid, w.installed, file)
            && (run.outcome == Ok ==> run.world.installed == w.installed[PackageOf(file).id := PackageOf(file).record])
  {
    hide RunStep, RunFrom, Provided, StepAt;
    PackageIsProvided(env, w, file);
    LoopOnce(env, depth, ctx, w, 7);
    var w1 := Publish(w, Progress(ctx.uuid, StepAt(7)));
    LateStep(env, depth, 7, ctx, w1);
    var r := UpdateApt(env, ctx, w1);
    if r.outcome == Ok { FromInstalling(env, depth, ctx, r.world, file); }
  }

  /** Before 'building': the file on disk and its coerced form in memory. */
  predicate IsValidated(ctx: Ctx, w: World, file: Metadata) {
    && ctx.metadata == Some(Mapping(Coerced(file))) && MetadataLoads(ctx.wazo, Coerced(file))
    && ctx.uuid in w.extracted && w.extracted[ctx.uuid] == Mapping(file)
  }

  lemma ValidHasIdentity(wazo: string, file: Metadata)
    requires MetadataLoads(wazo, Coerced(file))
    ensures file.name.Some? && file.namespace.Some? && file.version.Some?
  {
  }

  /** What packaging makes of the Debian field. */
  lemma FieldServesExactly(file: Metadata)
    ensures var m := AddDebianDepends(Coerced(file));
            && (DebianFieldServes(file) <==> m.Some? && Renders(m.value))
            && (DebianFieldServes(file) ==>
                  && DebianDepends(m.value) == DebianDepends(file) + GeneratedNames(Declared(file))
                  && m.value == Coerced(file).(debianDepends := m.value.debianDepends))
  {
    var names, generated := DebianDepends(file), GeneratedNames(Declared(file));
    assert Declared(file) == [] ==> names + generated == names;
    assert names == [] ==> names + generated == generated;
  }

  /** Packaging: where it stops, or the package it leaves. */
  lemma PackagingEnds(env: Env, ctx: Ctx, w: World, file: Metadata)
    requires IsValidated(ctx, w, file)
    ensures var r := PackagePlugin(env, ctx, w);
            var u, installed := ctx.uuid, w.installed;
            && r.world == w && r.ctx.uuid == ctx.uuid
            && (r.outcome == Ok ==>
                  IsPackaged(r.ctx, file) && PackageEnding(env, u, installed, file)
                      == RootEnding(env, u, installed, file))
            && (r.outcome != Ok ==> PackageEnding(env, u, installed, file) == (7, r.outcome))
  {
    hide MetadataLoads, RootEnding, AddDebianDepends, DebianFieldServes, Renders, DebianDepends;
    ValidHasIdentity(ctx.wazo, file);
    FieldServesExactly(file);
    assert Buildable(ctx, w);
  }

  lemma FromPackaging(env: Env, depth: nat, ctx: Ctx, w: World, file: Metadata)
    requires IsValidated(ctx, w, file)
    ensures file.name.Some? && file.namespace.Some? && file.version.Some?
    ensures var run := RunFrom(env, depth, ctx, w, 6);
            && EndingOf(run) == PackageEnding(env, ctx.uuid, w.installed, file)
            && (run.outcome == Ok ==> run.world.installed == w.installed[PackageOf(file).id := PackageOf(file).record])
  {
    hide RunStep, RunFrom, StepAt, MetadataLoads, PackageEnding, RootEnding, PackagePlugin, IsPackaged;
    ValidHasIdentity(ctx.wazo, file);
    LoopOnce(env, depth, ctx, w, 6);
    var w1 := Publish(w, Progress(ctx.uuid, StepAt(6)));
    LateStep(env, depth, 6, ctx, w1);
    PackagingEnds(env, ctx, w1, file);
    var r := PackagePlugin(env, ctx, w1);
    if r.outcome == Ok { FromUpdating(env, depth, r.ctx, r.world, file); }
  }

  lemma FromBuilding(env: Env, depth: nat, ctx: Ctx, w: World, file: Metadata)
    requires IsValidated(ctx, w, file)
    ensures file.name.Some? && file.namespace.Some? && file.version.Some?
    ensures var run := RunFrom(env, depth, ctx, w, 5);
            && EndingOf(run) == BuildEnding(env, ctx.uuid, w.installed, file)
            && (run.outcome == Ok ==> run.world.installed == w.installed[PackageOf(file).id := PackageOf(file).record])
  {
    hide RunStep, RunFrom, StepAt, MetadataLoads, PackageEnding;
    ValidHasIdentity(ctx.wazo, file);
    LoopOnce(env, depth, ctx, w, 5);
    var w1 := Publish(w, Progress(ctx.uuid, StepAt(5)));
    LateStep(env, depth, 5, ctx, w1);
    if BuildPlugin(env, ctx, w1).outcome == Ok { FromPackaging(env, depth, ctx, w1, file); }
  }

  /** The dependency step only fails for want of depth, and leaves the parent's file where it was. */
  lemma DependenciesEnd(env: Env, depth: nat, ctx: Ctx, w: World, items: seq<Dependency>)
    requires Numbered(w) && forall d <- items :: DependencyLoads(d)
    ensures var r := InstallDependencies(env, depth, items, ctx, w);
            && r.ctx == ctx && r.outcome == (if depth == 0 && items != [] then Crashed else Ok)
            && forall v <- w.extracted :: v in r.world.extracted && r.world.extracted[v] == w.extracted[v]
  {
    hide InstallDependencies;
    DependenciesKeep(env, depth, items, ctx, w);
    DependenciesWorkspace(env, depth, items, ctx, w);
    OnlyDepthCrashes(env, depth, items, ctx, w);
  }

  lemma {:induction false} OnlyDepthCrashes(env: Env, depth: nat, items: seq<Dependency>, ctx: Ctx, w: World)
    requires forall d <- items :: DependencyLoads(d)
    ensures InstallDependencies(env, depth, items, ctx, w).outcome == if depth == 0 && items != [] then Crashed else Ok
    decreases |items|
  {
    hide RunTask;
    if items != [] && depth > 0 {
      assert DependencyLoads(items[0]);
      var child := NewCtx(w.next, Market, AsOptions(items[0]), false, ctx.wazo);
      OnlyDepthCrashes(env, depth, items[1..], ctx, RunTask(env, depth - 1, child, w.(next := w.next + 1)).world);
    }
  }

  lemma FromDependencies(env: Env, depth: nat, ctx: Ctx, w: World, file: Metadata)
    requires IsValidated(ctx, w, file) && Numbered(w)
    ensures file.name.Some? && file.namespace.Some? && file.version.Some?
    ensures var run := RunFrom(env, depth, ctx, w, 4);
            var w1 := Publish(w, Progress(ctx.uuid, InstallingDependencies));
            var after := InstallDependencies(env, depth, Declared(file), ctx, w1).world.installed;
            && EndingOf(run) == (if depth == 0 && Declared(file) != [] then (5, Crashed)
                                 else BuildEnding(env, ctx.uuid, after, file))
            && (run.outcome == Ok ==> run.world.installed == after[PackageOf(file).id := PackageOf(file).record])
  {
    hide RunFrom, MetadataLoads, BuildEnding, InstallDependencies;
    ValidHasIdentity(ctx.wazo, file);
    LoopOnce(env, depth, ctx, w, 4);
    var w1 := Publish(w, Progress(ctx.uuid, InstallingDependencies));
    assert DeclaredBy(ctx) == Declared(file);
    ValidatedDependenciesLoad(ctx.wazo, Coerced(file));
    DependenciesEnd(env, depth, ctx, w1, Declared(file));
    var r := InstallDependencies(env, depth, Declared(file), ctx, w1);
    if r.outcome == Ok { FromBuilding(env, depth, ctx, r.world, file); }
  }

  /** What each of the steps up to validation does. */
  lemma EarlySteps(env: Env, depth: nat, ctx: Ctx, w: World)
    ensures RunStep(env, depth, StepAt(0), ctx, w) == StepResult(Ok, ctx, w, [])
    ensures RunStep(env, depth, StepAt(1), ctx, w) == Download(env, depth, 0, ctx, w)
    ensures RunStep(env, depth, StepAt(2), ctx, w) == Extract(env, ctx, w)
    ensures RunStep(env, depth, StepAt(3), ctx, w) == Validate(ctx, w)
  {
  }

  lemma FromValidating(env: Env, depth: nat, ctx: Ctx, w: World, file: Metadata)
    requires ctx.metadata == Some(Mapping(file)) && ctx.uuid in w.extracted && w.extracted[ctx.uuid] == Mapping(file)
    requires Numbered(w)
    ensures var run := RunFrom(env, depth, ctx, w, 3);
            if !MetadataLoads(ctx.wazo, Coerced(file)) then EndingOf(run) == (4, InvalidMetadata)
            else
              && file.name.Some? && file.namespace.Some? && file.version.Some?
              && if !ctx.reinstall && !IsNews(w, file) then EndingOf(run) == (4, AlreadyInstalled)
                 else
                   var ctx' := ctx.(metadata := Some(Mapping(Coerced(file))), reinstall := false);
                   var rest := RunFrom(env, depth, ctx', Publish(w, Progress(ctx.uuid, Validating)), 4);
                   EndingOf(run) == EndingOf(rest) && run.world == rest.world
  {
    hide RunStep, RunFrom, MetadataLoads;
    LoopOnce(env, depth, ctx, w, 3);
    var w1 := Publish(w, Progress(ctx.uuid, Validating));
    EarlySteps(env, depth, ctx, w1);
    if MetadataLoads(ctx.wazo, Coerced(file)) { ValidHasIdentity(ctx.wazo, file); }
  }

  /** Where a task stands when its clone is there. */
  predicate IsCloned(ctx: Ctx, w: World) {
    && ctx.options.GitOptions? && Numbered(w) && ctx.uuid < w.next
    && ctx.uuid in w.downloads && ctx.uuid !in w.extracted
  }

  lemma FromExtracting(env: Env, depth: nat, ctx: Ctx, w: World)
    requires IsCloned(ctx, w)
    ensures var run := RunFrom(env, depth, ctx, w, 2);
            var w1 := Publish(w, Progress(ctx.uuid, Extracting));
            if !env.ok(ctx.uuid, Move) || Cloned(env, ctx).Missing? || Cloned(env, ctx).file.Unreadable?
            then EndingOf(run) == (3, Crashed)
            else if Cloned(env, ctx).file.NotAMapping? then EndingOf(run) == (4, Crashed)
            else
              var whole := ctx.options.subdirectory.None? || ctx.options.subdirectory.value == "";
              var file := Cloned(env, ctx).file;
              var rest := RunFrom(env, depth, ctx.(metadata := Some(file), extracted := true), w1.(
                                    extracted := w.extracted[ctx.uuid := file],
                                    downloads := if whole then w.downloads - {ctx.uuid} else w.downloads), 3);
              EndingOf(run) == EndingOf(rest) && run.world == rest.world
  {
    hide RunStep, RunFrom;
    LoopOnce(env, depth, ctx, w, 2);
    var w1 := Publish(w, Progress(ctx.uuid, Extracting));
    EarlySteps(env, depth, ctx, w1);
    assert Source(env, ctx.uuid, ctx.options) == Cloned(env, ctx);
    var r := Extract(env, ctx, w1);
    assert w1.extracted - {ctx.uuid} == w.extracted;
    if r.outcome == Ok && Cloned(env, ctx).file.NotAMapping? {
      LoopOnce(env, depth, r.ctx, r.world, 3);
      EarlySteps(env, depth, r.ctx, Publish(r.world, Progress(ctx.uuid, Validating)));
    }
  }

  lemma ExtractionEnds(env: Env, depth: nat, ctx: Ctx, start: World, w: World)
    requires IsCloned(ctx, w) && ctx.uuid !in start.downloads && ctx.uuid !in start.extracted
    requires w == start.(events := start.events + Announced(ctx.uuid, 0, 2), downloads := start.downloads + {ctx.uuid})
    ensures var run := RunFrom(env, depth, ctx, w, 2);
            && EndingOf(run) == ExtractEnding(env, depth, ctx, start)
            && (run.outcome == Ok ==>
                  && Cloned(env, ctx).Tree? && Cloned(env, ctx).file.Mapping?
                  && var file := Cloned(env, ctx).file.metadata;
                     && file.name.Some? && file.namespace.Some? && file.version.Some?
                     && run.world.installed
                        == AfterDependencies(env, depth, ctx, start,
                                             file)[PackageOf(file).id := PackageOf(file).record])
  {
    hide RunFrom, MetadataLoads, BuildEnding, InstallDependencies;
    FromExtracting(env, depth, ctx, w);
    if env.ok(ctx.uuid, Move) && Cloned(env, ctx).Tree? && Cloned(env, ctx).file.Mapping? {
      var file, u := Cloned(env, ctx).file.metadata, ctx.uuid;
      var whole := ctx.options.subdirectory.None? || ctx.options.subdirectory.value == "";
      var w1 := Publish(w, Progress(u, Extracting)).(
        extracted := w.extracted[u := Mapping(file)], downloads := if whole then w.downloads - {u} else w.downloads);
      var ctx1 := ctx.(metadata := Some(Mapping(file)), extracted := true);
      FromValidating(env, depth, ctx1, w1, file);
      if MetadataLoads(ctx.wazo, Coerced(file)) && (ctx.reinstall || IsNews(start, file)) {
        var ctx2, w2 := ValidatedCtx(ctx, file), Publish(w1, Progress(u, Validating));
        FromDependencies(env, depth, ctx2, w2, file);
        FiveAnnounced(u, start.events);
        assert start.downloads + {u} - {u} == start.downloads;
        assert Publish(w2, Progress(u, InstallingDependencies)) == ExtractedWorld(ctx, start, file);
      }
    }
  }

  lemma FiveAnnounced(u: Uuid, events: seq<Event>)
    ensures events + Announced(u, 0, 5)
            == events + Announced(u, 0, 2) + [Progress(u, Extracting)] + [Progress(u, Validating)]
                + [Progress(u, InstallingDependencies)]
    ensures Announced(u, 0, 2) == [Progress(u, Starting), Progress(u, Downloading)]
  {
    assert Announced(u, 5, 5) == [] && Announced(u, 2, 2) == [];
    assert Announced(u, 3, 5) == [Progress(u, Validating)] + [Progress(u, InstallingDependencies)];
    assert Announced(u, 2, 5) == [Progress(u, Extracting)] + Announced(u, 3, 5);
    assert Announced(u, 0, 5) == [Progress(u, Starting)] + ([Progress(u, Downloading)] + Announced(u, 2, 5));
  }

  /** How every git task ends: at which step and with which outcome, as its surroundings decide; and what a
      completed one has put in place. */
  lemma GitTaskEndsExactly(env: Env, depth: nat, ctx: Ctx, w: World)
    requires Stage(env, 0, ctx, w) && ctx.via.Git? && ctx.options.GitOptions?
    ensures var done := RunTask(env, depth, ctx, w);
            && (done.report.begun as nat, done.report.outcome) == GitEnding(env, depth, ctx, w)
            && (done.report.outcome == Ok ==>
                  && Cloned(env, ctx).Tree? && Cloned(env, ctx).file.Mapping?
                  && var file := Cloned(env, ctx).file.metadata;
                     && file.name.Some? && file.namespace.Some? && file.version.Some?
                     && done.world.installed
                        == AfterDependencies(env, depth, ctx, w, file)[PackageOf(file).id := PackageOf(file).record])
  {
    hide RunStep, RunFrom, ExtractEnding, AfterDependencies;
    LoopOnce(env, depth, ctx, w, 0);
    var w1 := Publish(w, Progress(ctx.uuid, Starting));
    EarlySteps(env, depth, ctx, w1);
    LoopOnce(env, depth, ctx, w1, 1);
    var w2 := Publish(w1, Progress(ctx.uuid, Downloading));
    EarlySteps(env, depth, ctx, w2);
    var r := Download(env, depth, 0, ctx, w2);
    if r.outcome == Ok {
      FiveAnnounced(ctx.uuid, w.events);
      assert w2.events == w.events + Announced(ctx.uuid, 0, 2);
      ExtractionEnds(env, depth, ctx, w, r.world);
    }
  }

  /* ---- The conditions ---- */

  /** The repository was cloned and moved, and its metadata file read. */
  predicate FindsFile(env: Env, ctx: Ctx, file: Metadata)
    requires ctx.options.GitOptions?
  {
    Works(env, ctx.uuid, Clone) && env.ok(ctx.uuid, Move) && Cloned(env, ctx) == Tree(Mapping(file))
  }

  /** 'building' is reached: the metadata loads, the plugin is news or to be reinstalled, and its dependencies were
      gone through. */
  predicate ReachesBuilding(env: Env, depth: nat, ctx: Ctx, w: World, file: Metadata)
    requires ctx.options.GitOptions?
  {
    && FindsFile(env, ctx, file) && MetadataLoads(ctx.wazo, Coerced(file))
    && (ctx.reinstall || IsNews(w, file))
    && (depth > 0 || Declared(file) == [])
  }

  predicate RulesAreRun(env: Env, u: Uuid) { env.ok(u, MakePackageDir) && Works(env, u, PackageRules) }

  predicate DataIsCopied(env: Env, u: Uuid) { RulesAreRun(env, u) && env.ok(u, MakeDataDir) && Works(env, u, CopyData) }

  predicate FilesAreWritten(env: Env, u: Uuid, file: Metadata) {
    DataIsCopied(env, u) && DebianFieldServes(file) && env.ok(u, WriteDebianFiles)
  }

  predicate InstallIsDone(env: Env, u: Uuid, installed: Plugins, file: Metadata) {
    && (HasDependencies(file) ==> env.ok(u, AptUpdate))
    && env.ok(u, Gdebi) && Provided(env, installed, file)
  }

  /** What a git task takes to complete. */
  predicate Completes(env: Env, depth: nat, ctx: Ctx, w: World, file: Metadata)
    requires ctx.options.GitOptions?
  {
    && ReachesBuilding(env, depth, ctx, w, file)
    && Works(env, ctx.uuid, Build) && FilesAreWritten(env, ctx.uuid, file) && Works(env, ctx.uuid, DpkgDeb)
    && InstallIsDone(env, ctx.uuid, AfterDependencies(env, depth, ctx, w, file), file)
  }

  /** A git task completes exactly when everything it needs is there and works; it then has installed the identity,
      the version and the dependencies that its file declares, and nothing else of its own. */
  lemma GitTaskCompletesExactly(env: Env, depth: nat, ctx: Ctx, w: World)
    requires Stage(env, 0, ctx, w) && ctx.via.Git? && ctx.options.GitOptions?
    ensures var done := RunTask(env, depth, ctx, w);
            && (done.report.outcome == Ok <==> exists file :: Completes(env, depth, ctx, w, file))
            && (forall file | Completes(env, depth, ctx, w, file) ::
                  done.world.installed == AfterDependencies(env, depth, ctx, w, file)[
                    PluginId(file.namespace.value, file.name.value) := Record(file.version.value, Declared(file))])
  {
    hide RunTask, AfterDependencies, Stage, MetadataLoads;
    GitTaskEndsExactly(env, depth, ctx, w);
    EndingCompletes(env, depth, ctx, w);
  }

  lemma EndingCompletes(env: Env, depth: nat, ctx: Ctx, w: World)
    requires ctx.options.GitOptions?
    ensures GitEnding(env, depth, ctx, w).1 == Ok <==>
            Cloned(env, ctx).Tree? && Cloned(env, ctx).file.Mapping?
            && Completes(env, depth, ctx, w, Cloned(env, ctx).file.metadata)
    ensures forall file :: Completes(env, depth, ctx, w, file) ==> Cloned(env, ctx) == Tree(Mapping(file))
  {
    hide AfterDependencies, MetadataLoads, Provided, DebianFieldServes, HasDependencies;
  }

  /** Each of the five commands that a task runs itself makes it end in 'install-error' at the command's step exactly
      when it was reached, started, and did not return zero. */
  lemma CommandsFailExactly(env: Env, depth: nat, ctx: Ctx, w: World)
    requires Stage(env, 0, ctx, w) && ctx.via.Git? && ctx.options.GitOptions?
    ensures var report, u := RunTask(env, depth, ctx, w).report, ctx.uuid;
            && (report.outcome == CommandFailed && report.begun == 2 <==> ReturnsBadly(env, u, Clone))
            && (report.outcome == CommandFailed && report.begun == 6 <==>
                  ReturnsBadly(env, u, Build) && exists file :: ReachesBuilding(env, depth, ctx, w, file))
            && (report.outcome == CommandFailed && report.begun == 7 <==>
                  exists file :: ReachesBuilding(env, depth, ctx, w, file) && Works(env, u, Build)
                    && PackagingReturnsBadly(env, u, file))
            && (report.outcome == CommandFailed ==> report.begun in {2, 6, 7})
  {
    hide RunTask, AfterDependencies, Stage, MetadataLoads;
    GitTaskEndsExactly(env, depth, ctx, w);
    EndingFails(env, depth, ctx, w);
  }

  /** One of packaging's three commands was reached and did not return zero. */
  predicate PackagingReturnsBadly(env: Env, u: Uuid, file: Metadata) {
    || (env.ok(u, MakePackageDir) && ReturnsBadly(env, u, PackageRules))
    || (RulesAreRun(env, u) && env.ok(u, MakeDataDir) && ReturnsBadly(env, u, CopyData))
    || (FilesAreWritten(env, u, file) && ReturnsBadly(env, u, DpkgDeb))
  }

  lemma EndingFails(env: Env, depth: nat, ctx: Ctx, w: World)
    requires ctx.options.GitOptions?
    ensures var (begun, outcome), u := GitEnding(env, depth, ctx, w), ctx.uuid;
            && (outcome == CommandFailed && begun == 2 <==> ReturnsBadly(env, u, Clone))
            && (outcome == CommandFailed && begun == 6 <==>
                  ReturnsBadly(env, u, Build) && exists file :: ReachesBuilding(env, depth, ctx, w, file))
            && (outcome == CommandFailed && begun == 7 <==>
                  exists file :: ReachesBuilding(env, depth, ctx, w, file) && Works(env, u, Build)
                    && PackagingReturnsBadly(env, u, file))
            && (outcome == CommandFailed ==> begun in {2, 6, 7})
  {
    hide AfterDependencies, MetadataLoads, Provided, DebianFieldServes, HasDependencies;
    var content := Cloned(env, ctx);
    if content.Tree? && content.file.Mapping? {
      var file := content.file.metadata;
      assert content == Tree(Mapping(file));
      assert ReachesBuilding(env, depth, ctx, w, file) <==> GitEnding(env, depth, ctx, w).0 >= 6;
      assert forall other :: ReachesBuilding(env, depth, ctx, w, other) ==> other == file;
    }
  }

  /** The metadata is refused, or recognised as installed, exactly for what the file says. */
  lemma ValidationEndsExactly(env: Env, depth: nat, ctx: Ctx, w: World)
    requires Stage(env, 0, ctx, w) && ctx.via.Git? && ctx.options.GitOptions?
    ensures var report := RunTask(env, depth, ctx, w).report;
            && (report.outcome == InvalidMetadata <==>
                  exists file :: FindsFile(env, ctx, file) && !MetadataLoads(ctx.wazo, Coerced(file)))
            && (report.outcome == AlreadyInstalled <==>
                  exists file :: FindsFile(env, ctx, file) && MetadataLoads(ctx.wazo, Coerced(file))
                    && !ctx.reinstall && !IsNews(w, file))
  {
    hide RunTask, AfterDependencies, Stage, MetadataLoads;
    GitTaskEndsExactly(env, depth, ctx, w);
    EndingValidates(env, depth, ctx, w);
  }

  lemma EndingValidates(env: Env, depth: nat, ctx: Ctx, w: World)
    requires ctx.options.GitOptions?
    ensures var outcome := GitEnding(env, depth, ctx, w).1;
            && (outcome == InvalidMetadata <==>
                  exists file :: FindsFile(env, ctx, file) && !MetadataLoads(ctx.wazo, Coerced(file)))
            && (outcome == AlreadyInstalled <==>
                  exists file :: FindsFile(env, ctx, file) && MetadataLoads(ctx.wazo, Coerced(file))
                    && !ctx.reinstall && !IsNews(w, file))
  {
    hide AfterDependencies, MetadataLoads, Provided, DebianFieldServes, HasDependencies;
    var content := Cloned(env, ctx);
    if content.Tree? && content.file.Mapping? {
      assert content == Tree(Mapping(content.file.metadata));
      assert FindsFile(env, ctx, content.file.metadata) <==> Works(env, ctx.uuid, Clone) && env.ok(ctx.uuid, Move);
    }
  }
}
