/** When a sequence of events nests: a reading of it with a stack of open tasks, which the traces of sequential runs
    pass. */
module NestedTraces {
  import opened Wrappers
  import Schema
  import opened Install
  import opened InstallTrace
  import opened InstallWorkspace
  import opened ConcurrentTasks

  /* ---- Reading a trace with a stack ---- */

  /** A task seen in a trace that has not published its last event. */
  datatype Frame = Frame(uuid: Uuid, removal: bool, begun: nat) {
    function Kind(): Kind { if removal then Uninstallation("") else Installation }
  }

  ghost predicate Closes(f: Frame, e: Event) {
    && 1 <= f.begun <= Length(f.Kind())
    && exists outcome :: outcome != Ok && EndsHere(f.Kind(), f.begun, outcome)
        && Closing(f.Kind(), f.uuid, f.begun, outcome) == [e]
  }

  function First(e: Event): Option<Frame> {
    match e
    case Progress(u, Starting) => Some(Frame(u, false, 1))
    case Removal(u, RemovalStarting) => Some(Frame(u, true, 1))
    case _ => None
  }

  /** One event more: the innermost open task goes on or ends, or a new one starts, which must be the first of its
      thread or stand within the dependency step of an install. `None` is a trace that does not nest. */
  ghost function Read(open: seq<Frame>, e: Event): Option<seq<Frame>> {
    if open != [] && open[0].uuid == e.uuid then
      var f := open[0];
      if f.begun < Length(f.Kind()) && e == Announcement(f.Kind(), f.uuid, f.begun) then
        Some((if f.begun + 1 < Length(f.Kind()) then [f.(begun := f.begun + 1)] else []) + open[1..])
      else if Closes(f, e) then Some(open[1..])
      else None
    else if First(e).Some? && (open == [] || (!open[0].removal && open[0].begun == 5 && !First(e).value.removal)) then
      Some([First(e).value] + open)
    else None
  }

  ghost function ReadAll(open: seq<Frame>, events: seq<Event>): Option<seq<Frame>> {
    if events == [] then Some(open)
    else
      var before := ReadAll(open, events[..|events| - 1]);
      if before.Some? then Read(before.value, events[|events| - 1]) else None
  }

  lemma ReadSnoc(open: seq<Frame>, events: seq<Event>, e: Event)
    ensures ReadAll(open, events + [e]) ==
            var before := ReadAll(open, events); if before.Some? then Read(before.value, e) else None
  {
    assert (events + [e])[..|events|] == events;
  }

  lemma {:induction false} ReadJoins(open: seq<Frame>, a: seq<Event>, b: seq<Event>)
    ensures ReadAll(open, a + b) == var mid := ReadAll(open, a); if mid.Some? then ReadAll(mid.value, b) else None
    decreases |b|
  {
    if b == [] {
      assert a + b == a;
    } else {
      var most, e := b[..|b| - 1], b[|b| - 1];
      ReadJoins(open, a, most);
      assert a + b == (a + most) + [e];
      ReadSnoc(open, a + most, e);
    }
  }

  /* ---- Sequential traces nest ---- */

  /** A nested task's uuid is not its parent's. */
  ghost predicate OwnUuids(r: Report)
    decreases r
  {
    forall c <- r.children :: c.uuid != r.uuid && OwnUuids(c)
  }

  /** A place in a trace where a task with this uuid may start. */
  predicate MayStart(open: seq<Frame>, u: Uuid) {
    open == [] || (!open[0].removal && open[0].begun == 5 && open[0].uuid != u)
  }

  function Top(u: Uuid, begun: nat, open: seq<Frame>): seq<Frame> {
    (if 1 <= begun < STEP_COUNT then [Frame(u, false, begun)] else []) + open
  }

  lemma ReadStep(open: seq<Frame>, u: Uuid, i: nat)
    requires MayStart(open, u) && i < STEP_COUNT
    ensures Read(Top(u, i, open), Progress(u, StepAt(i))) == Some(Top(u, i + 1, open))
  {
    hide Closes;
    var e := Progress(u, StepAt(i));
    if i == 0 {
      assert [] + open == open && First(e) == Some(Frame(u, false, 1));
    } else {
      var f := Frame(u, false, i);
      assert Top(u, i, open)[0] == f && Top(u, i, open)[1..] == open;
      assert e == Announcement(f.Kind(), u, i);
    }
  }

  lemma {:induction false} ReadAnnounced(open: seq<Frame>, u: Uuid, i: nat, j: nat)
    requires MayStart(open, u) && i <= j <= STEP_COUNT
    ensures ReadAll(Top(u, i, open), Announced(u, i, j)) == Some(Top(u, j, open))
    decreases j - i
  {
    hide Read, Top, StepAt, MayStart;
    if i < j {
      var e := Progress(u, StepAt(i));
      ReadAnnounced(open, u, i + 1, j);
      ReadJoins(Top(u, i, open), [e], Announced(u, i + 1, j));
      ReadSnoc(Top(u, i, open), [], e);
      assert [] + [e] == [e];
      ReadStep(open, u, i);
    }
  }

  lemma ReadClosing(open: seq<Frame>, f: Frame, outcome: Outcome, e: Event)
    requires outcome != Ok && EndsHere(f.Kind(), f.begun, outcome) && 1 <= f.begun <= Length(f.Kind())
    requires Closing(f.Kind(), f.uuid, f.begun, outcome) == [e]
    ensures f.begun < Length(f.Kind()) && Read([f] + open, e) == Some(open)
  {
    assert ([f] + open)[0] == f && ([f] + open)[1..] == open;
    assert Closes(f, e) && e.uuid == f.uuid;
    assert f.begun < Length(f.Kind());
    assert e != Announcement(f.Kind(), f.uuid, f.begun);
  }

  lemma EndingIsOne(f: Frame, outcome: Outcome)
    requires !f.removal && EndsAt(f.begun, outcome)
    ensures 1 <= f.begun <= STEP_COUNT
    ensures outcome == Ok ==> f.begun == STEP_COUNT && Ending(f.uuid, f.begun, outcome) == []
    ensures outcome != Ok ==> f.begun < STEP_COUNT && EndsHere(f.Kind(), f.begun, outcome)
    ensures outcome != Ok ==>
              var events := Ending(f.uuid, f.begun, outcome);
              |events| == 1 && Closing(f.Kind(), f.uuid, f.begun, outcome) == events == [events[0]]
  {
  }

  lemma ReadEnding(open: seq<Frame>, u: Uuid, begun: nat, outcome: Outcome)
    requires EndsAt(begun, outcome)
    ensures 1 <= begun <= STEP_COUNT && ReadAll(Top(u, begun, open), Ending(u, begun, outcome)) == Some(open)
  {
    hide Read, EndsAt, EndsHere, Ending, Closing;
    var f := Frame(u, false, begun);
    EndingIsOne(f, outcome);
    var events := Ending(u, begun, outcome);
    if outcome == Ok {
      assert [] + open == open;
    } else {
      var e := events[0];
      assert [] + [e] == [e] && Top(u, begun, open) == [f] + open;
      ReadSnoc([f] + open, [], e);
      ReadClosing(open, f, outcome, e);
    }
  }

  lemma {:induction false} ReadReports(open: seq<Frame>, u: Uuid, rs: seq<Report>)
    requires open != [] && MayStart(open[1..], u) && open[0] == Frame(u, false, 5)
    requires forall r <- rs :: Legal(r) && OwnUuids(r) && r.uuid != u
    ensures ReadAll(open, FlattenAll(rs)) == Some(open)
    decreases rs, 0
  {
    if rs != [] {
      ReadReport(open, rs[0]);
      ReadReports(open, u, rs[1..]);
      ReadJoins(open, Flatten(rs[0]), FlattenAll(rs[1..]));
    }
  }

  /** A whole sequential trace is read through: it leaves the tasks open around it as they were. */
  lemma {:induction false} ReadReport(open: seq<Frame>, r: Report)
    requires Legal(r) && OwnUuids(r) && MayStart(open, r.uuid)
    ensures ReadAll(open, Flatten(r)) == Some(open)
    decreases r, 1
  {
    var u, k := r.uuid, Min(r.begun, 5);
    var head, nested, rest, last := Announced(u, 0, k), FlattenAll(r.children), Announced(u, 5, r.begun),
        Ending(u, r.begun, r.outcome);
    assert Top(u, 0, open) == open;
    ReadAnnounced(open, u, 0, k);
    if r.begun >= 5 {
      assert Top(u, 5, open)[1..] == open;
      ReadReports(Top(u, 5, open), u, r.children);
      ReadAnnounced(open, u, 5, r.begun);
    }
    ReadEnding(open, u, r.begun, r.outcome);
    ReadJoins(open, head, nested);
    ReadJoins(open, head + nested, rest);
    ReadJoins(open, head + nested + rest, last);
  }

  /* ---- The traces of sequential runs ---- */

  lemma {:induction false} DependenciesUuids(env: Env, depth: nat, items: seq<Schema.Dependency>, ctx: Ctx, w: World)
    requires Numbered(w)
    ensures forall c <- InstallDependencies(env, depth, items, ctx, w).children :: w.next <= c.uuid && OwnUuids(c)
    decreases depth, 0, |items|
  {
    hide RunTask, Leftovers, Clones, OwnUuids;
    if items != [] {
      if !Schema.DependencyLoads(items[0]) {
        DependenciesUuids(env, depth, items[1..], ctx, w);
      } else if depth > 0 {
        var child := NewCtx(w.next, Schema.Market, Schema.AsOptions(items[0]), false, ctx.wazo);
        var w1 := w.(next := w.next + 1);
        TaskWorkspace(env, depth - 1, child, w1);
        TaskUuids(env, depth - 1, child, w1);
        DependenciesUuids(env, depth, items[1..], ctx, RunTask(env, depth - 1, child, w1).world);
      }
    }
  }

  lemma {:induction false} StepsUuids(env: Env, depth: nat, ctx: Ctx, w: World, i: nat)
    requires i <= STEP_COUNT && Stage(env, i, ctx, w)
    ensures forall c <- RunFrom(env, depth, ctx, w, i).children :: w.next <= c.uuid && OwnUuids(c)
    decreases depth, 2, STEP_COUNT - i
  {
    hide RunStep, StepAt, Stage, Validated, InstallDependencies, OwnUuids;
    if i < STEP_COUNT {
      var event := Progress(ctx.uuid, StepAt(i));
      var w1 := Publish(w, event);
      PublishingIsElsewhere(env, i, ctx, w, event);
      NextStage(env, depth, i, ctx, w, event);
      StepKeeps(env, depth, i, ctx, w1);
      var r := RunStep(env, depth, StepAt(i), ctx, w1);
      if i == 4 { DependenciesUuids(env, depth, DeclaredBy(ctx), ctx, w1); }
      if r.outcome == Ok {
        StepsUuids(env, depth, r.ctx, r.world, i + 1);
        PublishingIsElsewhere(env, i + 1, r.ctx, r.world, event);
        StepsTraceShape(env, depth, r.ctx, r.world, i + 1);
      }
    }
  }

  /** Every nested task of a run has a uuid that was unused when its parent began. */
  lemma {:induction false} TaskUuids(env: Env, depth: nat, ctx: Ctx, w: World)
    requires Stage(env, 0, ctx, w)
    ensures OwnUuids(RunTask(env, depth, ctx, w).report)
    decreases depth, 3, 0
  {
    hide RunFrom, Stage;
    StepsUuids(env, depth, ctx, w, 0);
    PublishingIsElsewhere(env, 0, ctx, w, Progress(ctx.uuid, Starting));
  }

  /** What a sequential task publishes is read through: it starts, nests and ends as the reading asks. */
  lemma SequentialTracesRead(env: Env, depth: nat, ctx: Ctx, w: World)
    requires Stage(env, 0, ctx, w)
    ensures var done := RunTask(env, depth, ctx, w);
            && |w.events| <= |done.world.events| && done.world.events[..|w.events|] == w.events
            && ReadAll([], done.world.events[|w.events|..]) == Some([])
  {
    hide RunTask, Stage, Legal, Flatten, OwnUuids;
    var done := RunTask(env, depth, ctx, w);
    TaskTrace(env, depth, ctx, w);
    TaskUuids(env, depth, ctx, w);
    ReadReport([], done.report);
    assert done.world.events[|w.events|..] == Flatten(done.report);
  }
}
