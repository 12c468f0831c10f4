/** Root commands sent by a task: which, when, and why the installed plugins stay closed under `depends`. */
module InstallClosure {
  import opened Wrappers
  import opened PackageNames
  import opened Schema
  import opened Install
  import opened InstallTrace
  import opened InstallWorkspace
  import opened InstallLog

  /* ---- The commands of each step ---- */

  lemma QuietStep(env: Env, depth: nat, i: nat, ctx: Ctx, w: World)
    requires i < STEP_COUNT && i !in {4, 7, 8} && Stage(env, i, ctx, w)
    ensures var r := RunStep(env, depth, StepAt(i), ctx, w);
            r.world.calls == w.calls && r.world.installed == w.installed
  {
    hide PackagePlugin, Download, Validate, MetadataLoads, Stage;
    match i
    case 1 => DownloadKeeps(env, depth, 0, ctx, w);
    case 3 => ValidateKeepsWorld(ctx, w);
    case 6 => PackageKeepsWorld(env, ctx, w);
    case _ =>
  }

  /** After packaging, the metadata lists the original Debian dependencies followed by one generated
      name per dependency, in order. */
  lemma PackagedDepends(env: Env, i: nat, ctx: Ctx, w: World)
    requires 7 <= i <= 9 && Stage(env, i, ctx, w)
    ensures var m, file := ctx.metadata.value.metadata, FileOf(ctx, w);
            && DebianDepends(m) == DebianDepends(file) + GeneratedNames(Declared(file))
            && ctx.deb.value.depends == DebianDepends(m)
            && ctx.deb.value.record.depends == Declared(file)
            && ctx.deb.value.id == IdOf(m)
            && file.version == Some(ctx.deb.value.record.version)
  {
    hide MetadataLoads;
    assert DebianDepends(FileOf(ctx, w)) + [] == DebianDepends(FileOf(ctx, w));
    assert [] + GeneratedNames(Declared(FileOf(ctx, w))) == GeneratedNames(Declared(FileOf(ctx, w)));
  }

  /** 'updating' sends `apt-get update` exactly when the plugin came with Debian or plugin dependencies. */
  lemma UpdatesExactlyWithDepends(env: Env, ctx: Ctx, w: World)
    requires Stage(env, 7, ctx, w)
    ensures var r := UpdateApt(env, ctx, w);
            var file := FileOf(ctx, w);
            && r.world.installed == w.installed
            && r.world.calls == w.calls + (if DebianDepends(file) != [] || Declared(file) != []
                                           then [UpdateCall(ctx.uuid, env.ok(ctx.uuid, AptUpdate))] else [])
  {
    hide MetadataLoads;
    PackagedDepends(env, 7, ctx, w);
    assert w.calls + [] == w.calls;
    assert DebianDepends(FileOf(ctx, w)) == [] && Declared(FileOf(ctx, w)) == [] ==>
        DebianDepends(ctx.metadata.value.metadata) == [];
  }

  /** 'installing' sends one command, for this task's own package, and succeeds only if the worker returned True. */
  lemma InstallsOwnPackage(env: Env, ctx: Ctx, w: World)
    requires Stage(env, 8, ctx, w)
    ensures var r := InstallDeb(env, ctx, w);
            && ctx.deb.Some?
            && var call := InstallCall(ctx.uuid, ctx.deb.value, GdebiUnpacks(env, ctx.uuid, ctx.deb.value, w),
                                       r.outcome == Ok);
            && r.world.calls == w.calls + [call]
            && r.world.installed == Effect(w.installed, call)
            && LawfulCall(env, w.installed, call)
  {
    hide MetadataLoads;
    PackagedFromFile(env, 8, ctx, w);
    PackagesListDependencies(ctx.wazo, FileOf(ctx, w));
  }

  /** The package that packaging builds from a plugin's file, if the file is valid and the program does not raise. */
  function PackageFrom(wazo: string, file: Metadata): Option<Deb> {
    var read := Coerced(file);
    if !MetadataLoads(wazo, read) then None
    else
      match AddDebianDepends(read)
      case None => None
      case Some(m) => Some(DebOf(m, file))
  }

  /** A package lists every dependency that its plugin declares. */
  lemma PackagesListDependencies(wazo: string, file: Metadata)
    ensures PackageFrom(wazo, file).Some? ==> WellPackaged(PackageFrom(wazo, file).value)
  {
    var read, names := Coerced(file), GeneratedNames(Declared(file));
    if PackageFrom(wazo, file).Some? {
      var deb := PackageFrom(wazo, file).value;
      LoadedIsNamed(wazo, read);
      forall d <- deb.record.depends ensures PackageName(d.Id()) in deb.depends {
        var k :| 0 <= k < |Declared(file)| && d == Declared(file)[k];
        assert names[k] in deb.depends;
      }
    }
  }

  /** The task's package is the one built from its file. */
  lemma PackagedFromFile(env: Env, i: nat, ctx: Ctx, w: World)
    requires 7 <= i <= 9 && Stage(env, i, ctx, w)
    ensures ctx.deb == PackageFrom(ctx.wazo, FileOf(ctx, w))
  {
    hide MetadataLoads;
    LoadsBeforePackaging(ctx.wazo, Coerced(FileOf(ctx, w)), ctx.metadata.value.metadata);
  }

  lemma LoadsBeforePackaging(wazo: string, read: Metadata, m: Metadata)
    requires MetadataLoads(wazo, m) && AddDebianDepends(read) == Some(m)
    ensures MetadataLoads(wazo, read)
  {
  }

  lemma LoadedIsNamed(wazo: string, m: Metadata)
    requires MetadataLoads(wazo, m)
    ensures m.name.Some? && m.namespace.Some? && Named(IdOf(m))
  {
  }

  /* ---- The log of a task ---- */

  /** The world's plugins are what its log of commands made of the base, each command obeying its contract. */
  ghost predicate Logged(env: Env, base: Plugins, w: World) {
    w.installed == Replay(base, w.calls) && Lawful(env, base, w.calls)
  }

  lemma LoggedCall(env: Env, base: Plugins, w: World, w': World, call: RootCall)
    requires Logged(env, base, w) && LawfulCall(env, w.installed, call)
    requires w'.calls == w.calls + [call] && w'.installed == Effect(w.installed, call)
    ensures Logged(env, base, w')
  {
    ReplaySnoc(base, w.calls, call);
  }

  lemma {:induction false} DependenciesLogged(env: Env, base: Plugins, depth: nat, items: seq<Dependency>, ctx: Ctx,
                                              w: World)
    requires Numbered(w) && Logged(env, base, w)
    ensures Logged(env, base, InstallDependencies(env, depth, items, ctx, w).world)
    decreases depth, 0, |items|
  {
    hide RunTask, Logged, MetadataLoads;
    if items != [] {
      if !DependencyLoads(items[0]) {
        DependenciesLogged(env, base, depth, items[1..], ctx, w);
      } else if depth > 0 {
        var child := NewCtx(w.next, Market, AsOptions(items[0]), false, ctx.wazo);
        var w1 := w.(next := w.next + 1);
        LoggedElsewhere(env, base, w, w1);
        TaskWorkspace(env, depth - 1, child, w1);
        TaskLogged(env, base, depth - 1, child, w1);
        DependenciesLogged(env, base, depth, items[1..], ctx, RunTask(env, depth - 1, child, w1).world);
      }
    }
  }

  lemma LoggedElsewhere(env: Env, base: Plugins, w: World, w': World)
    requires w'.calls == w.calls && w'.installed == w.installed
    ensures Logged(env, base, w) == Logged(env, base, w')
  {
  }

  lemma {:induction false} StepsLogged(env: Env, base: Plugins, depth: nat, ctx: Ctx, w: World, i: nat)
    requires i <= STEP_COUNT && Stage(env, i, ctx, w) && Logged(env, base, w)
    ensures Logged(env, base, RunFrom(env, depth, ctx, w, i).world)
    decreases depth, 2, STEP_COUNT - i
  {
    hide RunStep, StepAt, Stage, MetadataLoads, Logged, InstallDependencies;
    if i < STEP_COUNT {
      var event := Progress(ctx.uuid, StepAt(i));
      var w1 := Publish(w, event);
      LoggedElsewhere(env, base, w, w1);
      NextStage(env, depth, i, ctx, w, event);
      StepLogged(env, base, depth, i, ctx, w1);
      var r := RunStep(env, depth, StepAt(i), ctx, w1);
      if r.outcome == Ok { StepsLogged(env, base, depth, r.ctx, r.world, i + 1); }
    }
  }

  lemma {:induction false} StepLogged(env: Env, base: Plugins, depth: nat, i: nat, ctx: Ctx, w: World)
    requires i < STEP_COUNT && Stage(env, i, ctx, w) && Logged(env, base, w)
    ensures Logged(env, base, RunStep(env, depth, StepAt(i), ctx, w).world)
    decreases depth, 1, 0
  {
    hide MetadataLoads, Stage, Logged, RunTask, PackagePlugin, Extract, Validate, Download, InstallDeb, UpdateApt,
        Clean, Lawful;
    var r := RunStep(env, depth, StepAt(i), ctx, w);
    if i == 4 {
      StageIsNumbered(env, i, ctx, w);
      DependenciesLogged(env, base, depth, DeclaredBy(ctx), ctx, w);
    } else if i == 7 {
      UpdatesExactlyWithDepends(env, ctx, w);
      if r.world.calls == w.calls {
        LoggedElsewhere(env, base, w, r.world);
      } else {
        LoggedCall(env, base, w, r.world, UpdateCall(ctx.uuid, env.ok(ctx.uuid, AptUpdate)));
      }
    } else if i == 8 {
      InstallsOwnPackage(env, ctx, w);
      LoggedCall(env, base, w, r.world, 
                 InstallCall(ctx.uuid, ctx.deb.value, GdebiUnpacks(env, ctx.uuid, ctx.deb.value, w), r.outcome == Ok));
    } else {
      QuietStep(env, depth, i, ctx, w);
      LoggedElsewhere(env, base, w, r.world);
    }
  }

  lemma StageIsNumbered(env: Env, i: nat, ctx: Ctx, w: World)
    requires Stage(env, i, ctx, w)
    ensures Numbered(w)
  {
  }

  /** Every command of a task, nested ones included, obeys its contract in the state it finds. */
  lemma {:induction false} TaskLogged(env: Env, base: Plugins, depth: nat, ctx: Ctx, w: World)
    requires Stage(env, 0, ctx, w) && Logged(env, base, w)
    ensures Logged(env, base, RunTask(env, depth, ctx, w).world)
    decreases depth, 3, 0
  {
    hide RunFrom, Stage, Logged;
    StepsLogged(env, base, depth, ctx, w, 0);
    var run := RunFrom(env, depth, ctx, w, 0);
    LoggedElsewhere(env, base, run.world, RunTask(env, depth, ctx, w).world);
  }
}
