/** The events of a task: the steps in order, whole dependency traces in the middle, one ending. */
module InstallTrace {
  import opened Catalog
  import opened Schema
  import opened Install

  /* ---- The grammar of traces ---- */

  /** The announcements of steps i up to j. */
  function Announced(uuid: Uuid, i: nat, j: nat): (events: seq<Event>)
    requires j <= STEP_COUNT
    decreases j - i
  {
    if i >= j then [] else [Progress(uuid, StepAt(i))] + Announced(uuid, i + 1, j)
  }

  function Ending(uuid: Uuid, begun: StepCount, outcome: Outcome): seq<Event> {
    match outcome
    case Ok => []
    case CommandFailed => [Failed(uuid, InstallError(StepAt(begun - 1)))]
    case AlreadyInstalled => [Progress(uuid, Completed)]
    case InvalidMetadata => [Failed(uuid, ValidationError)]
    case DependencyInstalled => [Progress(uuid, Completed)]
    case Crashed => [Failed(uuid, Unexpected(StepAt(begun - 1)))]
  }

  /** At which step each ending can happen, counted in steps announced. */
  predicate EndsAt(begun: nat, outcome: Outcome) {
    match outcome
    case Ok => begun == STEP_COUNT
    case DependencyInstalled => begun == 2
    case AlreadyInstalled => begun == 4
    case InvalidMetadata => begun == 4
    case CommandFailed => begun in {2, 6, 7}
    case Crashed => 2 <= begun <= 9
  }

  /** Nested tasks are those of the declared dependencies, in listed order: all of them once 'building'
      is announced, a prefix when the task crashed among them, none before. */
  ghost predicate ChildrenMatch(begun: nat, declared: seq<Dependency>, children: seq<Report>) {
    && (begun < 5 ==> children == [])
    && |children| <= |declared|
    && (begun > 5 ==> |children| == |declared|)
    && forall i | 0 <= i < |children| ::
         var d := declared[i];
         children[i].options == MarketOptions(d.namespace, d.name, d.version, d.extra)
  }

  ghost predicate Legal(r: Report)
    decreases r
  {
    && EndsAt(r.begun, r.outcome)
    && (r.begun < 5 ==> r.declared == [])
    && ChildrenMatch(r.begun, r.declared, r.children)
    && forall c <- r.children :: Legal(c)
  }

  function Min(a: nat, b: nat): nat { if a < b then a else b }

  /** The events a report stands for. */
  ghost function Flatten(r: Report): seq<Event>
    decreases r, 1
  {
    Announced(r.uuid, 0, Min(r.begun, 5)) + FlattenAll(r.children) + Announced(r.uuid, 5, r.begun)
    + Ending(r.uuid, r.begun, r.outcome)
  }

  ghost function FlattenAll(rs: seq<Report>): seq<Event>
    decreases rs, 0
  {
    if rs == [] then [] else Flatten(rs[0]) + FlattenAll(rs[1..])
  }

  /* ---- What every step keeps ---- */

  /** The metadata went through validation. */
  predicate Validated(ctx: Ctx) {
    HasMapping(ctx) && MetadataLoads(ctx.wazo, ctx.metadata.value.metadata)
  }

  lemma {:induction false} DownloadKeeps(env: Env, depth: nat, hop: nat, ctx: Ctx, w: World)
    ensures var r := Download(env, depth, hop, ctx, w);
            && r.ctx == ctx.(via := r.ctx.via, options := r.ctx.options)
            && r.world == w.(downloads := r.world.downloads)
            && r.world.downloads == (if r.outcome == Ok then w.downloads + {ctx.uuid} else w.downloads)
            && (r.outcome == Ok ==> r.ctx.options.GitOptions?)
            && r.outcome in {Ok, CommandFailed, DependencyInstalled, Crashed}
            && r.children == []
    decreases depth
  {
    hide Choose, LoadInstall, LocalVersions;
    if ctx.via.Market? && depth > 0 {
      var found := FromMarket(env, hop, ctx, w);
      if found.Success? {
        DownloadKeeps(env, depth - 1, hop + 1, ctx.(via := found.value.0, options := found.value.1), w);
      }
    }
  }

  lemma {:induction false} DependenciesKeep(env: Env, depth: nat, items: seq<Dependency>, ctx: Ctx, w: World)
    ensures var r := InstallDependencies(env, depth, items, ctx, w);
            r.ctx == ctx && r.outcome in {Ok, Crashed}
    decreases |items|
  {
    if items != [] {
      if !DependencyLoads(items[0]) {
        DependenciesKeep(env, depth, items[1..], ctx, w);
      } else if depth > 0 {
        var child := NewCtx(w.next, Market, AsOptions(items[0]), false, ctx.wazo);
        DependenciesKeep(env, depth, items[1..], ctx, RunTask(env, depth - 1, child, w.(next := w.next + 1)).world);
      }
    }
  }

  /** The step at position i, seen from outside: it can only end as the grammar allows, keeps the task's
      identity and, once validated, its declared dependencies; only step 4 publishes or nests anything. */
  lemma StepKeeps(env: Env, depth: nat, i: nat, ctx: Ctx, w: World)
    requires i < STEP_COUNT && (i >= 4 ==> Validated(ctx))
    ensures var r := RunStep(env, depth, StepAt(i), ctx, w);
            && r.ctx.uuid == ctx.uuid && r.ctx.wazo == ctx.wazo
            && (r.outcome != Ok ==> EndsAt(i + 1, r.outcome))
            && (i >= 3 && r.outcome == Ok ==> Validated(r.ctx))
            && (i >= 4 ==> HasMapping(r.ctx) && DeclaredBy(r.ctx) == DeclaredBy(ctx))
            && (i != 4 ==> r.children == [] && r.world.events == w.events && r.world.next == w.next)
            && (i == 4 ==> r == InstallDependencies(env, depth, DeclaredBy(ctx), ctx, w))
  {
    hide MetadataLoads, PackagePlugin, Download, InstallDependencies, Source, GdebiSucceeds;
    if i == 1 {
      DownloadKeeps(env, depth, 0, ctx, w);
    } else if i == 4 {
      DependenciesKeep(env, depth, DeclaredBy(ctx), ctx, w);
    } else if i == 6 {
      PackageReady(env, ctx, w);
    }
  }

  lemma PackageReady(env: Env, ctx: Ctx, w: World)
    requires Validated(ctx)
    ensures var r := PackagePlugin(env, ctx, w);
            && r.ctx.uuid == ctx.uuid && r.ctx.wazo == ctx.wazo && r.world == w && r.children == []
            && Validated(r.ctx) && DeclaredBy(r.ctx) == DeclaredBy(ctx)
            && r.outcome in {Ok, CommandFailed, Crashed}
  {
    hide MetadataLoads, Declared, Buildable, DebOf;
    var m := ctx.metadata.value.metadata;
    var r := PackagePlugin(env, ctx, w);
    LoadsWhateverDebian(ctx.wazo, m, r.ctx.metadata.value.metadata.debianDepends);
  }

  lemma LoadsWhateverDebian(wazo: string, m: Metadata, field: DebianField)
    requires MetadataLoads(wazo, m)
    ensures MetadataLoads(wazo, m.(debianDepends := field)) && Declared(m.(debianDepends := field)) == Declared(m)
  {
  }

  /* ---- The trace theorem ---- */

  /** What the steps from i on publish before the handlers run, when nested tasks publish `nested`. */
  ghost function Middle(uuid: Uuid, i: nat, begun: nat, nested: seq<Event>): seq<Event>
    requires begun <= STEP_COUNT
  {
    if i >= 5 then Announced(uuid, i, begun)
    else Announced(uuid, i, Min(begun, 5)) + nested + Announced(uuid, 5, begun)
  }

  /** Announcing step i in front of what the later steps publish. */
  lemma ExtendMiddle(uuid: Uuid, i: nat, begun: nat, here: seq<Event>, later: seq<Event>)
    requires i < begun <= STEP_COUNT
    requires (i != 4 ==> here == []) && (i >= 4 ==> later == [])
    ensures Middle(uuid, i, begun, here + later)
            == [Progress(uuid, StepAt(i))] + here + Middle(uuid, i + 1, begun, later)
  {
    var p := [Progress(uuid, StepAt(i))];
    if i < 4 {
      Regroup(p, Announced(uuid, i + 1, Min(begun, 5)), here, later, Announced(uuid, 5, begun));
    } else if i == 4 {
      assert Announced(uuid, 4, 5) == p;
      assert here + later == here;
    } else {
      assert p + here == p;
    }
  }

  lemma Regroup(p: seq<Event>, head: seq<Event>, here: seq<Event>, later: seq<Event>, tail: seq<Event>)
    requires here == []
    ensures p + head + (here + later) + tail == p + here + (head + later + tail)
  {
  }

  lemma {:induction false} DependenciesTrace(env: Env, depth: nat, items: seq<Dependency>, ctx: Ctx, w: World)
    requires forall d <- items :: DependencyLoads(d)
    ensures var r := InstallDependencies(env, depth, items, ctx, w);
            && r.world.events == w.events + FlattenAll(r.children)
            && (forall c <- r.children :: Legal(c))
            && |r.children| <= |items| && (r.outcome == Ok ==> |r.children| == |items|)
            && forall i | 0 <= i < |r.children| ::
                 var d := items[i];
                 r.children[i].options == MarketOptions(d.namespace, d.name, d.version, d.extra)
    decreases depth, 0, |items|
  {
    hide MetadataLoads, EndsAt, Announced, Ending, RunFrom, Handle, Legal, Flatten;
    if items != [] && depth > 0 {
      assert DependencyLoads(items[0]);
      var child := NewCtx(w.next, Market, AsOptions(items[0]), false, ctx.wazo);
      var done := RunTask(env, depth - 1, child, w.(next := w.next + 1));
      TaskTrace(env, depth - 1, child, w.(next := w.next + 1));
      DependenciesTrace(env, depth, items[1..], ctx, done.world);
      var rest := InstallDependencies(env, depth, items[1..], ctx, done.world);
      var all := [done.report] + rest.children;
      assert all[1..] == rest.children;
    }
  }

  /** How the loop ends, and what it nests. */
  lemma {:induction false} StepsShape(env: Env, depth: nat, ctx: Ctx, w: World, i: nat)
    requires i <= STEP_COUNT && (i >= 4 ==> Validated(ctx))
    ensures var run := RunFrom(env, depth, ctx, w, i);
            && run.ctx.uuid == ctx.uuid
            && (i < STEP_COUNT ==> EndsAt(run.begun, run.outcome))
            && (forall c <- run.children :: Legal(c))
            && (i >= 5 ==> run.children == [])
            && (i >= 4 ==> DeclaredBy(run.ctx) == DeclaredBy(ctx))
            && (i < 5 ==> ChildrenMatch(run.begun, if run.begun >= 5 then DeclaredBy(run.ctx) else [], run.children))
    decreases depth, 2, STEP_COUNT - i
  {
    hide RunStep, FlattenAll, MetadataLoads, RunTask, StepAt, InstallDependencies, Legal, DeclaredBy;
    if i < STEP_COUNT {
      var w1 := Publish(w, Progress(ctx.uuid, StepAt(i)));
      var r := RunStep(env, depth, StepAt(i), ctx, w1);
      StepKeeps(env, depth, i, ctx, w1);
      if i == 4 {
        ValidatedDependenciesLoad(ctx.wazo, ctx.metadata.value.metadata);
        DeclaredWhenValid(ctx);
        DependenciesTrace(env, depth, DeclaredBy(ctx), ctx, w1);
      }
      if r.outcome == Ok { StepsShape(env, depth, r.ctx, r.world, i + 1); }
    }
  }

  lemma DeclaredWhenValid(ctx: Ctx)
    requires HasMapping(ctx)
    ensures DeclaredBy(ctx) == Declared(ctx.metadata.value.metadata)
  {
  }

  /** What the loop publishes. */
  lemma {:induction false} StepsEvents(env: Env, depth: nat, ctx: Ctx, w: World, i: nat)
    requires i <= STEP_COUNT && (i >= 4 ==> Validated(ctx))
    ensures var run := RunFrom(env, depth, ctx, w, i);
            run.world.events == w.events + Middle(ctx.uuid, i, run.begun, FlattenAll(run.children))
    decreases depth, 2, STEP_COUNT - i
  {
    hide RunStep, FlattenAll, Middle, MetadataLoads, RunTask, StepAt, InstallDependencies, Legal, DeclaredBy, EndsAt,
        ChildrenMatch, Announced;
    MiddleEnds(ctx.uuid);
    if i < STEP_COUNT {
      var event := Progress(ctx.uuid, StepAt(i));
      var w1 := Publish(w, event);
      var r := RunStep(env, depth, StepAt(i), ctx, w1);
      StepKeeps(env, depth, i, ctx, w1);
      if i == 4 {
        ValidatedDependenciesLoad(ctx.wazo, ctx.metadata.value.metadata);
        DeclaredWhenValid(ctx);
        DependenciesTrace(env, depth, DeclaredBy(ctx), ctx, w1);
      }
      var run := RunFrom(env, depth, ctx, w, i);
      if r.outcome == Ok {
        StepsEvents(env, depth, r.ctx, r.world, i + 1);
        StepsShape(env, depth, r.ctx, r.world, i + 1);
        var rest := RunFrom(env, depth, r.ctx, r.world, i + 1);
        MiddleJoins(ctx.uuid, i, w.events, r.children, rest.children, run.begun);
        EventsJoin(w.events, event, FlattenAll(r.children),
                   Middle(ctx.uuid, i + 1, run.begun, FlattenAll(rest.children)));
      } else {
        MiddleJoins(ctx.uuid, i, w.events, r.children, [], i + 1);
        EventsJoin(w.events, event, FlattenAll(r.children), []);
        assert r.children + [] == r.children;
      }
    }
  }

  lemma EventsJoin(events: seq<Event>, event: Event, here: seq<Event>, later: seq<Event>)
    ensures events + [event] + here + later == events + ([event] + here + later)
    ensures later == [] ==> events + [event] + here == events + ([event] + here + later)
  {
  }

  lemma StepsTrace(env: Env, depth: nat, ctx: Ctx, w: World, i: nat)
    requires i <= STEP_COUNT && (i >= 4 ==> Validated(ctx))
    ensures var run := RunFrom(env, depth, ctx, w, i);
            && run.world.events == w.events + Middle(ctx.uuid, i, run.begun, FlattenAll(run.children))
            && run.ctx.uuid == ctx.uuid
            && (i < STEP_COUNT ==> EndsAt(run.begun, run.outcome))
            && (forall c <- run.children :: Legal(c))
            && (i >= 5 ==> run.children == [])
            && (i >= 4 ==> DeclaredBy(run.ctx) == DeclaredBy(ctx))
            && (i < 5 ==> ChildrenMatch(run.begun, if run.begun >= 5 then DeclaredBy(run.ctx) else [], run.children))
    decreases depth, 2, STEP_COUNT - i + 1
  {
    hide RunFrom, FlattenAll, Middle, MetadataLoads, Legal, DeclaredBy, EndsAt, ChildrenMatch;
    StepsShape(env, depth, ctx, w, i);
    StepsEvents(env, depth, ctx, w, i);
  }

  /** One step in front of the rest of the loop. */
  lemma MiddleJoins(uuid: Uuid, i: nat, before: seq<Event>, here: seq<Report>, later: seq<Report>, begun: nat)
    requires i < begun <= STEP_COUNT
    requires (i != 4 ==> here == []) && (i >= 4 ==> later == [])
    ensures Middle(uuid, i, begun, FlattenAll(here + later))
            == [Progress(uuid, StepAt(i))] + FlattenAll(here) + Middle(uuid, i + 1, begun, FlattenAll(later))
  {
    hide Middle, StepAt;
    assert FlattenAll(here + later) == FlattenAll(here) + FlattenAll(later) by {
      assert here + later == if i == 4 then here else later;
    }
    ExtendMiddle(uuid, i, begun, FlattenAll(here), FlattenAll(later));
  }

  lemma MiddleEnds(uuid: Uuid)
    ensures FlattenAll([]) == []
    ensures forall j: nat | j <= STEP_COUNT :: Middle(uuid, j, j, []) == []
  {
  }

  lemma HandlerPublishes(run: Run)
    requires 1 <= run.begun <= STEP_COUNT
    ensures Handle(run).events == run.world.events + Ending(run.ctx.uuid, run.begun, run.outcome)
  {
  }

  lemma MiddleIsWhole(r: Report, events: seq<Event>)
    ensures events + Middle(r.uuid, 0, r.begun, FlattenAll(r.children)) + Ending(r.uuid, r.begun, r.outcome)
            == events + Flatten(r)
  {
    hide Announced, Ending, FlattenAll;
  }

  /** Every task's trace is well nested: what it publishes is exactly the flattening of a legal report. */
  lemma {:induction false} TaskTrace(env: Env, depth: nat, ctx: Ctx, w: World)
    ensures var done := RunTask(env, depth, ctx, w);
            && Legal(done.report)
            && done.report.uuid == ctx.uuid && done.report.options == ctx.options
            && done.world.events == w.events + Flatten(done.report)
    decreases depth, 3, 0
  {
    hide RunFrom, DeclaredBy, EndsAt, ChildrenMatch;
    StepsTrace(env, depth, ctx, w, 0);
    var run := RunFrom(env, depth, ctx, w, 0);
    var done := RunTask(env, depth, ctx, w);
    HandlerPublishes(run);
    assert EndsAt(run.begun, run.outcome);
    MiddleIsWhole(done.report, w.events);
  }
}
