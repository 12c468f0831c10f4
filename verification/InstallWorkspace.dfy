/** The directories of a task: which exist at each step, which are left when it ends, and why
    packaging always finds what it reads. */
module InstallWorkspace {
  import opened Wrappers
  import opened Schema
  import opened Install
  import opened InstallTrace

  /** Every uuid in use is below the counter, so a new task's uuid is nobody else's. */
  predicate Numbered(w: World) {
    (forall v <- w.extracted :: v < w.next) && (forall v <- w.downloads :: v < w.next)
  }

  /** The file on disk under this task's uuid. */
  function FileOf(ctx: Ctx, w: World): Metadata
    requires ctx.uuid in w.extracted && w.extracted[ctx.uuid].Mapping?
  {
    w.extracted[ctx.uuid].metadata
  }

  /** The metadata in memory is the file's, coerced; after packaging, with the generated Debian depends. */
  predicate InStep(i: nat, ctx: Ctx, w: World)
    requires HasMapping(ctx) && ctx.uuid in w.extracted && w.extracted[ctx.uuid].Mapping?
  {
    var read := Coerced(FileOf(ctx, w));
    if i <= 6 then ctx.metadata.value.metadata == read
    else Some(ctx.metadata.value.metadata) == AddDebianDepends(read)
  }

  /** The package built holds the identity in memory, the version on disk and every Debian dependency. */
  predicate Packaged(ctx: Ctx, w: World)
    requires HasMapping(ctx) && ctx.uuid in w.extracted && w.extracted[ctx.uuid].Mapping?
  {
    var m := ctx.metadata.value.metadata;
    && ctx.deb.Some? && m.name.Some? && m.namespace.Some? && FileOf(ctx, w).version.Some?
    && ctx.deb.value == DebOf(m, FileOf(ctx, w))
  }

  /** What holds when step i is about to run. */
  predicate Stage(env: Env, i: nat, ctx: Ctx, w: World) {
    && Numbered(w) && ctx.uuid < w.next
    && (i < 3 ==> !ctx.extracted && ctx.uuid !in w.extracted)
    && (i >= 3 ==> ctx.extracted)
    && (i < 2 ==> ctx.uuid !in w.downloads)
    && (i >= 2 ==> ctx.options.GitOptions?)
    && (i == 2 ==> ctx.uuid in w.downloads)
    && (i >= 3 ==> env.ok(ctx.uuid, Move) && Source(env, ctx.uuid, ctx.options).Tree?)
    && (i >= 3 ==> (ctx.uuid in w.downloads <==> Subdirectory(ctx.options).Some?))
    && (i == 3 ==>
          && ctx.uuid in w.extracted && ctx.metadata == Some(w.extracted[ctx.uuid])
          && !w.extracted[ctx.uuid].Unreadable?)
    && (i >= 4 ==> Validated(ctx))
    && (3 <= i <= 9 ==> ctx.uuid in w.extracted && Source(env, ctx.uuid, ctx.options) == Tree(w.extracted[ctx.uuid]))
    && (4 <= i <= 9 ==> w.extracted[ctx.uuid].Mapping? && InStep(i, ctx, w))
    && (7 <= i <= 9 ==> Packaged(ctx, w))
    && (i >= 10 ==> ctx.uuid !in w.extracted)
  }

  /* ---- Directories left behind ---- */

  /** The extract directory outlives the task exactly after a validation error, and when the move
      succeeded but the metadata could not be read. */
  predicate LeavesDirectory(env: Env, r: Report) {
    || r.outcome == InvalidMetadata
    || (r.outcome == Crashed && r.begun == 3 && env.ok(r.uuid, Move) && Source(env, r.uuid, r.used) == Tree(Unreadable))
  }

  /** The clone outlives the task unless it was moved whole. */
  predicate LeavesDownload(env: Env, r: Report) {
    r.begun >= 3 && (Subdirectory(r.used).Some? || !env.ok(r.uuid, Move) || Source(env, r.uuid, r.used) == Missing)
  }

  ghost function Leftovers(env: Env, r: Report): set<Uuid>
    decreases r, 1
  {
    (if LeavesDirectory(env, r) then {r.uuid} else {}) + LeftoversAll(env, r.children)
  }

  ghost function LeftoversAll(env: Env, rs: seq<Report>): set<Uuid>
    decreases rs, 0
  {
    if rs == [] then {} else Leftovers(env, rs[0]) + LeftoversAll(env, rs[1..])
  }

  ghost function Clones(env: Env, r: Report): set<Uuid>
    decreases r, 1
  {
    (if LeavesDownload(env, r) then {r.uuid} else {}) + ClonesAll(env, r.children)
  }

  ghost function ClonesAll(env: Env, rs: seq<Report>): set<Uuid>
    decreases rs, 0
  {
    if rs == [] then {} else Clones(env, rs[0]) + ClonesAll(env, rs[1..])
  }

  /** From w to w', directories only appear as `dirs` and `clones` say, and what the others hold is kept. */
  ghost predicate Frame(u: Uuid, w: World, w': World, dirs: set<Uuid>, clones: set<Uuid>) {
    && w.next <= w'.next && Numbered(w')
    && (forall v <- dirs + clones :: w.next <= v)
    && w'.extracted.Keys - {u} == w.extracted.Keys - {u} + dirs
    && w'.downloads - {u} == w.downloads - {u} + clones
    && (forall v <- w.extracted | v != u :: v in w'.extracted && w'.extracted[v] == w.extracted[v])
  }

  /* ---- One step ---- */

  /** Steps that nest nothing touch only the task's own directories. */
  lemma StepFrames(env: Env, depth: nat, i: nat, ctx: Ctx, w: World)
    requires i < STEP_COUNT && i != 4 && Numbered(w) && ctx.uuid < w.next
    ensures Frame(ctx.uuid, w, RunStep(env, depth, StepAt(i), ctx, w).world, {}, {})
  {
    hide Extract, Download, PackagePlugin, Validate, InstallDeb;
    match i
    case 1 => DownloadKeeps(env, depth, 0, ctx, w);
    case 2 => ExtractFrames(env, ctx, w);
    case 3 => ValidateKeepsWorld(ctx, w);
    case 6 => PackageKeepsWorld(env, ctx, w);
    case 8 => InstallKeepsDirectories(env, ctx, w);
    case _ =>
  }

  lemma ExtractFrames(env: Env, ctx: Ctx, w: World)
    requires Numbered(w) && ctx.uuid < w.next
    ensures Frame(ctx.uuid, w, Extract(env, ctx, w).world, {}, {})
  {
  }

  lemma ValidateKeepsWorld(ctx: Ctx, w: World)
    ensures Validate(ctx, w).world == w
  {
  }

  lemma PackageKeepsWorld(env: Env, ctx: Ctx, w: World)
    ensures PackagePlugin(env, ctx, w).world == w
  {
  }

  lemma InstallKeepsDirectories(env: Env, ctx: Ctx, w: World)
    ensures var w' := InstallDeb(env, ctx, w).world;
            w'.extracted == w.extracted && w'.downloads == w.downloads && w'.next == w.next
  {
  }

  lemma DownloadAdvances(env: Env, depth: nat, ctx: Ctx, w: World)
    requires Stage(env, 1, ctx, w)
    ensures var r := Download(env, depth, 0, ctx, w);
            && r.ctx.uuid == ctx.uuid
            && if r.outcome == Ok then Stage(env, 2, r.ctx, r.world)
               else !r.ctx.extracted && ctx.uuid !in r.world.extracted && ctx.uuid !in r.world.downloads
  {
    DownloadKeeps(env, depth, 0, ctx, w);
  }

  lemma ExtractAdvances(env: Env, ctx: Ctx, w: World)
    requires Stage(env, 2, ctx, w)
    ensures var r := Extract(env, ctx, w);
            && r.ctx.options == ctx.options
            && if r.outcome == Ok then Stage(env, 3, r.ctx, r.world)
               else !r.ctx.extracted
                    && (ctx.uuid in r.world.extracted <==>
                        env.ok(ctx.uuid, Move) && Source(env, ctx.uuid, ctx.options) == Tree(Unreadable))
                    && (ctx.uuid in r.world.downloads <==> Subdirectory(ctx.options).Some? || !env.ok(ctx.uuid, Move)
                                                           || Source(env, ctx.uuid, ctx.options) == Missing)
  {
  }

  lemma ValidateAdvances(env: Env, ctx: Ctx, w: World)
    requires Stage(env, 3, ctx, w)
    ensures var r := Validate(ctx, w);
            && r.ctx.options == ctx.options && r.ctx.extracted && r.world == w
            && (r.outcome == Ok ==> Stage(env, 4, r.ctx, r.world))
  {
  }

  /** Packaging finds the metadata, its file and the version on disk: its key lookups cannot fail. */
  lemma PackagingIsReady(env: Env, i: nat, ctx: Ctx, w: World)
    requires i == 6 && Stage(env, i, ctx, w)
    ensures Buildable(ctx, w)
  {
  }

  lemma PackageAdvances(env: Env, ctx: Ctx, w: World)
    requires Stage(env, 6, ctx, w)
    ensures var r := PackagePlugin(env, ctx, w);
            && r.ctx.options == ctx.options && r.ctx.extracted && r.world == w
            && (r.outcome == Ok ==> Stage(env, 7, r.ctx, r.world))
  {
    hide MetadataLoads;
    PackageReady(env, ctx, w);
    assert FileOf(ctx, w).version.Some? && ctx.metadata.value.metadata.name.Some?
        && ctx.metadata.value.metadata.namespace.Some? by {
      LoadedHasNames(ctx.wazo, ctx.metadata.value.metadata);
    }
  }

  lemma LoadedHasNames(wazo: string, m: Metadata)
    requires MetadataLoads(wazo, m)
    ensures m.name.Some? && m.namespace.Some? && m.version.Some? && !m.depends.MalformedDepends?
  {
  }

  /** The own directories when the loop stopped on an exception, before the handlers. */
  predicate Stopped(env: Env, begun: nat, ctx: Ctx, w: World) {
    && (begun <= 2 ==> !ctx.extracted && ctx.uuid !in w.extracted && ctx.uuid !in w.downloads)
    && (begun == 3 ==> !ctx.extracted
                       && (ctx.uuid in w.extracted <==>
                           env.ok(ctx.uuid, Move) && Source(env, ctx.uuid, ctx.options) == Tree(Unreadable))
                       && (ctx.uuid in w.downloads <==> Subdirectory(ctx.options).Some? || !env.ok(ctx.uuid, Move)
                                                        || Source(env, ctx.uuid, ctx.options) == Missing))
    && (begun > 3 ==> env.ok(ctx.uuid, Move) && Source(env, ctx.uuid, ctx.options).Tree?
                      && ctx.extracted && ctx.uuid in w.extracted
                          && (ctx.uuid in w.downloads <==> Subdirectory(ctx.options).Some?))
  }

  /** The own directories after a step that nests nothing. */
  lemma StepAdvances(env: Env, depth: nat, i: nat, ctx: Ctx, w: World)
    requires i < STEP_COUNT && i != 4 && Stage(env, i, ctx, w)
    ensures var r := RunStep(env, depth, StepAt(i), ctx, w);
            && (i >= 2 ==> r.ctx.options == ctx.options)
            && (r.outcome == Ok ==> Stage(env, i + 1, r.ctx, r.world))
            && (r.outcome != Ok ==> Stopped(env, i + 1, r.ctx, r.world))
  {
    hide MetadataLoads;
    match i {
      case 1 => DownloadAdvances(env, depth, ctx, w);
      case 2 => ExtractAdvances(env, ctx, w);
      case 3 => ValidateAdvances(env, ctx, w);
      case 6 => PackageAdvances(env, ctx, w);
      case _ =>
    }
  }

  /* ---- The whole task ---- */

  /** A finished task: its own directories are exactly those its report says it leaves. */
  ghost predicate Settled(env: Env, u: Uuid, w: World, w': World, r: Report) {
    && Numbered(w') && w.next <= w'.next && r.uuid == u
    && w'.extracted.Keys == w.extracted.Keys + Leftovers(env, r)
    && w'.downloads == w.downloads + Clones(env, r)
    && (forall v <- Leftovers(env, r) + Clones(env, r) :: v == u || w.next <= v)
    && (forall v <- w.extracted :: v in w'.extracted && w'.extracted[v] == w.extracted[v])
  }

  lemma {:induction false} DependenciesWorkspace(env: Env, depth: nat, items: seq<Dependency>, ctx: Ctx, w: World)
    requires Numbered(w)
    ensures var r := InstallDependencies(env, depth, items, ctx, w);
            && Numbered(r.world) && w.next <= r.world.next
            && r.world.extracted.Keys == w.extracted.Keys + LeftoversAll(env, r.children)
            && r.world.downloads == w.downloads + ClonesAll(env, r.children)
            && (forall v <- LeftoversAll(env, r.children) + ClonesAll(env, r.children) :: w.next <= v)
            && (forall v <- w.extracted :: v in r.world.extracted && r.world.extracted[v] == w.extracted[v])
    decreases depth, 0, |items|
  {
    hide RunTask, Leftovers, Clones;
    if items != [] {
      if !DependencyLoads(items[0]) {
        DependenciesWorkspace(env, depth, items[1..], ctx, w);
      } else if depth > 0 {
        var child := NewCtx(w.next, Market, AsOptions(items[0]), false, ctx.wazo);
        var w1 := w.(next := w.next + 1);
        var done := RunTask(env, depth - 1, child, w1);
        TaskWorkspace(env, depth - 1, child, w1);
        DependenciesWorkspace(env, depth, items[1..], ctx, done.world);
        var rest := InstallDependencies(env, depth, items[1..], ctx, done.world);
        var all := [done.report] + rest.children;
        assert all[1..] == rest.children;
        var mine := Leftovers(env, done.report) + Clones(env, done.report);
        var others := LeftoversAll(env, rest.children) + ClonesAll(env, rest.children);
        forall v <- LeftoversAll(env, all) + ClonesAll(env, all)
          ensures w.next <= v
        {
          assert v in mine || v in others;
        }
      }
    }
  }

  /** The steps from i on: other directories change as the nested tasks' reports say, the own ones by stage. */
  lemma {:induction false} StepsWorkspace(env: Env, depth: nat, ctx: Ctx, w: World, i: nat)
    requires i <= STEP_COUNT && Stage(env, i, ctx, w)
    ensures var run := RunFrom(env, depth, ctx, w, i);
            && run.ctx.uuid == ctx.uuid
            && Frame(ctx.uuid, w, run.world, LeftoversAll(env, run.children), ClonesAll(env, run.children))
            && (if run.outcome == Ok then Stage(env, STEP_COUNT, run.ctx, run.world)
                else Stopped(env, run.begun, run.ctx, run.world))
    decreases depth, 2, STEP_COUNT - i
  {
    hide RunStep, StepAt, Validated, LeftoversAll, ClonesAll, InstallDependencies, Stopped, Stage, Frame, Publish;
    NothingLeft(env);
    if i == STEP_COUNT {
      PublishingIsElsewhere(env, i, ctx, w, Progress(ctx.uuid, Completed));
    } else {
      var w1 := Publish(w, Progress(ctx.uuid, StepAt(i)));
      PublishingIsElsewhere(env, i, ctx, w, Progress(ctx.uuid, StepAt(i)));
      var r := RunStep(env, depth, StepAt(i), ctx, w1);
      StepKeeps(env, depth, i, ctx, w1);
      if i == 4 {
        DependenciesKeep(env, depth, DeclaredBy(ctx), ctx, w1);
        DependenciesWorkspace(env, depth, DeclaredBy(ctx), ctx, w1);
        DependenciesStage(env, ctx, w1, r);
      } else {
        StepFrames(env, depth, i, ctx, w1);
        StepAdvances(env, depth, i, ctx, w1);
      }
      if r.outcome == Ok {
        StepsWorkspace(env, depth, r.ctx, r.world, i + 1);
        var rest := RunFrom(env, depth, r.ctx, r.world, i + 1);
        StepsTraceShape(env, depth, r.ctx, r.world, i + 1);
        ChildrenJoin(env, ctx.uuid, w, r.world, rest.world, r.children, rest.children);
      }
    }
  }

  lemma PublishingIsElsewhere(env: Env, i: nat, ctx: Ctx, w: World, event: Event)
    requires Stage(env, i, ctx, w)
    ensures Stage(env, i, ctx, Publish(w, event)) && Numbered(Publish(w, event)) && ctx.uuid < Publish(w, event).next
        && (i >= 4 ==> Validated(ctx))
    ensures Frame(ctx.uuid, w, w, {}, {})
    ensures forall w', dirs, clones :: Frame(ctx.uuid, Publish(w, event), w', dirs, clones) ==>
        Frame(ctx.uuid, w, w', dirs, clones)
  {
    hide MetadataLoads;
  }

  lemma FrameJoins(u: Uuid, w: World, mid: World, w': World, dirs: set<Uuid>, clones: set<Uuid>, dirs': set<Uuid>,
                   clones': set<Uuid>)
    requires Frame(u, w, mid, dirs, clones) && Frame(u, mid, w', dirs', clones')
    ensures Frame(u, w, w', dirs + dirs', clones + clones')
  {
    forall v <- (dirs + dirs') + (clones + clones') ensures w.next <= v {
      assert v in dirs + clones || v in dirs' + clones';
    }
    forall v <- w.extracted | v != u ensures v in w'.extracted && w'.extracted[v] == w.extracted[v] {
      assert v in mid.extracted;
    }
  }

  /** Nested tasks run in one step only, so what they leave adds up. */
  lemma ChildrenJoin(env: Env, u: Uuid, w: World, mid: World, w': World, here: seq<Report>, later: seq<Report>)
    requires here == [] || later == []
    requires Frame(u, w, mid, LeftoversAll(env, here), ClonesAll(env, here))
    requires Frame(u, mid, w', LeftoversAll(env, later), ClonesAll(env, later))
    ensures Frame(u, w, w', LeftoversAll(env, here + later), ClonesAll(env, here + later))
  {
    hide Frame;
    FrameJoins(u, w, mid, w', LeftoversAll(env, here), ClonesAll(env, here), LeftoversAll(env, later),
               ClonesAll(env, later));
    assert here + later == if later == [] then here else later;
    assert LeftoversAll(env, here + later) == LeftoversAll(env, here) + LeftoversAll(env, later);
    assert ClonesAll(env, here + later) == ClonesAll(env, here) + ClonesAll(env, later);
  }

  /** From step 5 on nothing is nested. */
  lemma {:induction false} StepsTraceShape(env: Env, depth: nat, ctx: Ctx, w: World, i: nat)
    requires i <= STEP_COUNT && (i >= 4 ==> Validated(ctx))
    ensures i >= 5 ==> RunFrom(env, depth, ctx, w, i).children == []
  {
    StepsTrace(env, depth, ctx, w, i);
  }

  lemma NothingLeft(env: Env)
    ensures LeftoversAll(env, []) == {} && ClonesAll(env, []) == {}
  {
  }

  /** Nested tasks leave the parent at the next stage. */
  lemma DependenciesStage(env: Env, ctx: Ctx, w: World, r: StepResult)
    requires Stage(env, 4, ctx, w) && r.ctx == ctx && Numbered(r.world) && w.next <= r.world.next
    requires r.world.extracted.Keys == w.extracted.Keys + LeftoversAll(env, r.children)
    requires r.world.downloads == w.downloads + ClonesAll(env, r.children)
    requires forall v <- LeftoversAll(env, r.children) + ClonesAll(env, r.children) :: w.next <= v
    requires forall v <- w.extracted :: v in r.world.extracted && r.world.extracted[v] == w.extracted[v]
    ensures Frame(ctx.uuid, w, r.world, LeftoversAll(env, r.children), ClonesAll(env, r.children))
    ensures Stage(env, 5, r.ctx, r.world) && Stopped(env, 5, r.ctx, r.world)
  {
    hide MetadataLoads, LeftoversAll, ClonesAll;
    var dirs, clones := LeftoversAll(env, r.children), ClonesAll(env, r.children);
    assert ctx.uuid !in dirs && ctx.uuid !in clones by {
      forall v <- dirs ensures w.next <= v { assert v in dirs + clones; }
      forall v <- clones ensures w.next <= v { assert v in dirs + clones; }
    }
    assert ctx.uuid in r.world.extracted;
    assert ctx.uuid in r.world.downloads <==> ctx.uuid in w.downloads;
  }

  /** When a task ends, at every nesting depth, the directories that remain are exactly those left by
      a validation error or by unreadable metadata; and no task touches another's directory. */
  lemma {:induction false} TaskWorkspace(env: Env, depth: nat, ctx: Ctx, w: World)
    requires Stage(env, 0, ctx, w)
    ensures var done := RunTask(env, depth, ctx, w);
            Settled(env, ctx.uuid, w, done.world, done.report)
    decreases depth, 3, 0
  {
    hide RunFrom, MetadataLoads, Stage, Legal, Flatten, Frame, Stopped, Handle, Leftovers, Clones;
    StepsWorkspace(env, depth, ctx, w, 0);
    StepsTrace(env, depth, ctx, w, 0);
    TaskSettles(env, ctx, w, RunFrom(env, depth, ctx, w, 0), RunTask(env, depth, ctx, w).report);
  }

  lemma TaskSettles(env: Env, ctx: Ctx, w: World, run: Run, r: Report)
    requires Stage(env, 0, ctx, w) && 1 <= run.begun <= STEP_COUNT && run.ctx.uuid == ctx.uuid
    requires Frame(ctx.uuid, w, run.world, LeftoversAll(env, run.children), ClonesAll(env, run.children))
    requires if run.outcome == Ok then Stage(env, STEP_COUNT, run.ctx, run.world)
        else Stopped(env, run.begun, run.ctx, run.world)
    requires EndsAt(run.begun, run.outcome)
    requires r.uuid == ctx.uuid && r.used == run.ctx.options && r.begun == run.begun && r.children == run.children
        && r.outcome == run.outcome
    ensures Settled(env, ctx.uuid, w, Handle(run), r)
  {
    hide MetadataLoads, LeftoversAll, ClonesAll, Source, StepAt;
    var u, w' := ctx.uuid, Handle(run);
    var dirs, clones := LeftoversAll(env, run.children), ClonesAll(env, run.children);
    forall v <- dirs ensures w.next <= v { assert v in dirs + clones; }
    forall v <- clones ensures w.next <= v { assert v in dirs + clones; }
    assert w'.extracted.Keys - {u} == run.world.extracted.Keys - {u} && w'.downloads == run.world.downloads;
    assert u in w'.extracted <==> LeavesDirectory(env, r);
    assert u in w'.downloads <==> LeavesDownload(env, r);
  }

  /** A step that ends normally leads to the next stage. */
  lemma NextStage(env: Env, depth: nat, i: nat, ctx: Ctx, w: World, event: Event)
    requires i < STEP_COUNT && Stage(env, i, ctx, w)
    ensures var w1 := Publish(w, event);
            var r := RunStep(env, depth, StepAt(i), ctx, w1);
            && Stage(env, i, ctx, w1) && r.ctx.uuid == ctx.uuid && r.ctx.wazo == ctx.wazo
            && (r.outcome == Ok ==> Stage(env, i + 1, r.ctx, r.world))
            && (i >= 2 ==> r.ctx.options == ctx.options)
  {
    hide RunStep, StepAt, Stage, MetadataLoads, Frame, Publish, InstallDependencies, LeftoversAll, ClonesAll, Stopped;
    PublishingIsElsewhere(env, i, ctx, w, event);
    var w1 := Publish(w, event);
    StepKeeps(env, depth, i, ctx, w1);
    if i == 4 {
      DependenciesKeep(env, depth, DeclaredBy(ctx), ctx, w1);
      DependenciesWorkspace(env, depth, DeclaredBy(ctx), ctx, w1);
      DependenciesStage(env, ctx, w1, RunStep(env, depth, StepAt(i), ctx, w1));
    } else {
      StepAdvances(env, depth, i, ctx, w1);
    }
  }
}
