/** Many executor threads, each running one task and its nested tasks, sharing the bus and the root worker.

    A move of the system is an atomic section of one task, or a step of the root worker's machine. */
module ConcurrentTasks {
  import opened Wrappers
  import Schema
  import opened Install
  import opened InstallTrace
  import InstallClosure
  import R = RootWorker

  datatype Kind = Installation | Uninstallation(package: string)

  datatype Phase =
    | Between  // about to announce the next step
    | Inside  // in the step announced last
    | Asking  // in `send_cmd_and_wait`
    | Nested(child: Uuid)  // in a dependency's task
    | Ended(outcome: Outcome)
    | Abandoned  // left by `sys.exit`, which no handler of a task catches

  /** `deb` and `package` are the path and the content of what the packaging step produced; `life` is how many tasks
      the thread had abandoned when this one began. */
  datatype Task = Task(
    thread: R.Thread, life: nat, parent: Option<Uuid>, kind: Kind,
    deb: string, package: Option<Deb>, begun: nat, phase: Phase)

  /** Tasks are numbered by their uuids; `current` is what each thread is running, `abandoned` what it was running
      each time it quit. */
  datatype System = System(
    root: R.State, tasks: seq<Task>, current: map<R.Thread, Uuid>, abandoned: map<R.Thread, seq<Uuid>>,
    events: seq<Event>)

  datatype Move =
    | Submit(t: R.Thread, kind: Kind)
    | Announce(t: R.Thread)
    | Finish(t: R.Thread, deb: string, wazo: string, file: Schema.Metadata)
    | Fail(t: R.Thread, outcome: Outcome)
    | Depend(t: R.Thread)
    | Ask(t: R.Thread)
    | Quit(t: R.Thread)
    | Root(action: R.Action)

  function Length(kind: Kind): nat { if kind.Installation? then STEP_COUNT else 3 }

  function RemovalAt(k: nat): RemovalStep {
    if k == 0 then RemovalStarting else if k == 1 then Removing else RemovalCompleted
  }

  function Announcement(kind: Kind, u: Uuid, k: nat): Event
    requires k < Length(kind)
  {
    if kind.Installation? then Progress(u, StepAt(k)) else Removal(u, RemovalAt(k))
  }

  function Closing(kind: Kind, u: Uuid, begun: nat, outcome: Outcome): seq<Event>
    requires 1 <= begun <= Length(kind)
  {
    if kind.Installation? then Ending(u, begun, outcome)
    else if outcome == Ok then [] else [RemovalFailed(u, RemovalAt(begun - 1))]
  }

  predicate EndsHere(kind: Kind, begun: nat, outcome: Outcome) {
    if kind.Installation? then EndsAt(begun, outcome)
    else (begun == 3 && outcome == Ok) || (begun == 2 && outcome == Crashed)
  }

  /** What the step announced last may send to the root worker. */
  function CommandOf(u: Uuid, k: Task): Option<R.Command> {
    match k.kind
    case Installation =>
      if k.begun == 8 then Some(R.AptGetUpdate(u)) else if k.begun == 9 then Some(R.Install(u, k.deb)) else None
    case Uninstallation(package) => if k.begun == 2 then Some(R.UninstallPackage(u, package)) else None
  }

  /** 'updating' is skipped without Debian dependencies; 'installing' and 'removing' always ask. */
  predicate MustAsk(k: Task) { if k.kind.Installation? then k.begun == 9 else k.begun == 2 }

  function Init(): System { System(R.Init(), [], map[], map[], []) }

  /** What a thread was running each time it quit. */
  function Gone(s: System, t: R.Thread): seq<Uuid> { if t in s.abandoned then s.abandoned[t] else [] }

  function NewTask(t: R.Thread, life: nat, parent: Option<Uuid>, kind: Kind): Task {
    Task(t, life, parent, kind, "", None, 0, Between)
  }

  predicate IsPackaging(k: Task) { k.kind.Installation? && k.begun == 7 }

  predicate Runs(s: System, t: R.Thread) { t in s.current && s.current[t] < |s.tasks| }

  function Running(s: System, t: R.Thread): Task
    requires Runs(s, t)
  {
    s.tasks[s.current[t]]
  }

  predicate IsIn(s: System, t: R.Thread, phase: Phase) { Runs(s, t) && Running(s, t).phase == phase }

  /** The sections that leave `send_cmd_and_wait`, with an answer or an exception. */
  predicate Leaves(root: R.State, a: R.Action) { a.Release? || a.FetchRaises? || (a.Put? && root.closed) }

  predicate Answers(root: R.State, a: R.Action) {
    a.Release? && R.CallerOf(root, a.t).Fetched? && R.CallerOf(root, a.t).answer == Some(true)
  }

  predicate Enabled(s: System, m: Move) {
    match m
    case Submit(t, _) => t !in s.current
    case Announce(t) => IsIn(s, t, Between) && Running(s, t).begun < Length(Running(s, t).kind)
    case Finish(t, _, wazo, file) =>
      && IsIn(s, t, Inside) && CanEnd(s, t) && !MustAsk(Running(s, t))
      && (IsPackaging(Running(s, t)) ==> InstallClosure.PackageFrom(wazo, file).Some?)
    case Fail(t, outcome) =>
      && IsIn(s, t, Inside) && CanEnd(s, t) && outcome != Ok && CommandOf(s.current[t], Running(s, t)).None?
      && EndsHere(Running(s, t).kind, Running(s, t).begun, outcome)
    case Depend(t) => IsIn(s, t, Inside) && Running(s, t).kind.Installation? && Running(s, t).begun == 5
    case Ask(t) =>
      IsIn(s, t, Inside) && CommandOf(s.current[t], Running(s, t)).Some? && R.CallerOf(s.root, t).Idle?
    case Quit(t) => IsIn(s, t, Asking) && R.CallerOf(s.root, t).Quit?
    case Root(a) =>
      && !a.Invoke? && !a.Retire? && R.Enabled(s.root, a)
      && (R.ByCaller(a) ==> IsIn(s, a.t, Asking) && CanEnd(s, a.t))
  }

  predicate CanEnd(s: System, t: R.Thread)
    requires Runs(s, t)
  {
    var k := Running(s, t);
    1 <= k.begun <= Length(k.kind) && (k.parent.Some? ==> k.parent.value < |s.tasks|)
  }

  function WithPhase(s: System, u: Uuid, phase: Phase): System
    requires u < |s.tasks|
  {
    s.(tasks := s.tasks[u := s.tasks[u].(phase := phase)])
  }

  /** The task returns: to its parent's loop over the dependencies, or to the executor. */
  function End(s: System, t: R.Thread, outcome: Outcome): System
    requires Runs(s, t) && CanEnd(s, t)
  {
    var u, k := s.current[t], Running(s, t);
    var ended := WithPhase(s, u, Ended(outcome)).(events := s.events + Closing(k.kind, u, k.begun, outcome));
    match k.parent
    case None => ended.(current := s.current - {t})
    case Some(p) => WithPhase(ended, p, Inside).(current := s.current[t := p])
  }

  function Apply(s: System, m: Move): System
    requires Enabled(s, m)
  {
    match m
    case Submit(t, kind) =>
      s.(tasks := s.tasks + [NewTask(t, |Gone(s, t)|, None, kind)], current := s.current[t := |s.tasks|])
    case Announce(t) =>
      var u, k := s.current[t], Running(s, t);
      s.(tasks := s.tasks[u := k.(begun := k.begun + 1, phase := Inside)],
         events := s.events + [Announcement(k.kind, u, k.begun)])
    case Finish(t, deb, wazo, file) =>
      var u, k := s.current[t], Running(s, t);
      if k.begun == Length(k.kind) then End(s, t, Ok)
      else
        var packaged := if IsPackaging(k) then k.(deb := deb, package := InstallClosure.PackageFrom(wazo, file)) else k;
        s.(tasks := s.tasks[u := packaged.(phase := Between)])
    case Fail(t, outcome) => End(s, t, outcome)
    case Depend(t) =>
      var nested := WithPhase(s, s.current[t], Nested(|s.tasks|));
      nested.(tasks := nested.tasks + [NewTask(t, Running(s, t).life, Some(s.current[t]), Installation)],
              current := s.current[t := |s.tasks|])
    case Ask(t) =>
      var u := s.current[t];
      WithPhase(s, u, Asking).(root := R.Apply(s.root, R.Invoke(t, CommandOf(u, s.tasks[u]).value)))
    case Quit(t) =>
      WithPhase(s, s.current[t], Abandoned).(
        root := R.Apply(s.root, R.Retire(t)), current := s.current - {t},
        abandoned := s.abandoned[t := Gone(s, t) + [s.current[t]]])
    case Root(a) =>
      var s' := s.(root := R.Apply(s.root, a));
      if !Leaves(s.root, a) then s'
      else if Answers(s.root, a) then WithPhase(s', s.current[a.t], Between)
      else End(s', a.t, Crashed)
  }

  function After(schedule: seq<Move>): Option<System> {
    if schedule == [] then Some(Init())
    else
      var before := After(schedule[..|schedule| - 1]);
      var m := schedule[|schedule| - 1];
      if before.Some? && Enabled(before.value, m) then Some(Apply(before.value, m)) else None
  }

  /* ---- Traces ---- */

  function UuidOf(e: Event): Uuid { e.uuid }

  /** The events published under one uuid. */
  function On(u: Uuid, events: seq<Event>): seq<Event> {
    if events == [] then []
    else On(u, events[..|events| - 1]) + if UuidOf(events[|events| - 1]) == u then [events[|events| - 1]] else []
  }

  function Announcements(kind: Kind, u: Uuid, n: nat): seq<Event>
    requires n <= Length(kind)
  {
    if n == 0 then [] else Announcements(kind, u, n - 1) + [Announcement(kind, u, n - 1)]
  }

  /** What a task has published, given how far it came. */
  function TraceOf(u: Uuid, k: Task): seq<Event>
    requires k.begun <= Length(k.kind)
  {
    Announcements(k.kind, u, k.begun)
    + if k.phase.Ended? && k.begun >= 1 then Closing(k.kind, u, k.begun, k.phase.outcome) else []
  }

  /* ---- The invariant ---- */

  predicate Active(k: Task) { k.phase.Between? || k.phase.Inside? || k.phase.Asking? }

  /** How far a task can be in each phase. */
  predicate Placed(u: Uuid, k: Task) {
    && k.begun <= Length(k.kind)
    && (k.phase.Between? ==> k.begun < Length(k.kind))
    && (!k.phase.Between? ==> k.begun >= 1)
    && (k.phase.Nested? ==> k.kind.Installation? && k.begun == 5)
    && (k.phase.Asking? || k.phase.Abandoned? ==> CommandOf(u, k).Some?)
    && (k.phase.Ended? ==> EndsHere(k.kind, k.begun, k.phase.outcome))
  }

  /** The tasks a thread abandoned, in order. */
  ghost predicate Remembered(s: System) {
    forall t: R.Thread, i: nat | i < |Gone(s, t)| :: IsAbandoned(s, t, i, Gone(s, t)[i])
  }

  predicate IsAbandoned(s: System, t: R.Thread, i: nat, u: Uuid) {
    && u < |s.tasks|
    && s.tasks[u].phase.Abandoned? && s.tasks[u].thread == t && s.tasks[u].life == i
  }

  ghost predicate AllPlaced(s: System) { forall u: nat | u < |s.tasks| :: Placed(u, s.tasks[u]) }

  /** What a thread runs is its own, active, and of its present life. */
  ghost predicate ThreadsRun(s: System) {
    forall t: R.Thread | t in s.current ::
      Runs(s, t) && Running(s, t).thread == t && Running(s, t).life == |Gone(s, t)| && Active(Running(s, t))
  }

  ghost predicate ActiveRun(s: System) {
    forall u: nat | u < |s.tasks| && Active(s.tasks[u]) ::
      s.tasks[u].thread in s.current && s.current[s.tasks[u].thread] == u
  }

  /** A task that has not ended is waited for by its parent, on the same thread. */
  ghost predicate ParentsWait(s: System) {
    forall u: nat | u < |s.tasks| && s.tasks[u].parent.Some? && !s.tasks[u].phase.Ended? ::
      var p := s.tasks[u].parent.value;
      && p < u && s.tasks[p].phase == Nested(u) && s.tasks[p].thread == s.tasks[u].thread
      && s.tasks[p].life == s.tasks[u].life && s.tasks[u].kind.Installation?
  }

  /** A thread's running task is its only active one; the others wait for the one they nest. */
  ghost predicate Linked(s: System) { AllPlaced(s) && ThreadsRun(s) && ActiveRun(s) && ParentsWait(s) }

  ghost predicate Traced(s: System) {
    && (forall u: nat | u < |s.tasks| ::
          s.tasks[u].begun <= Length(s.tasks[u].kind) && On(u, s.events) == TraceOf(u, s.tasks[u]))
    && (forall u: nat | u >= |s.tasks| :: On(u, s.events) == [])
  }

  /** A thread is in `send_cmd_and_wait` only for its running task's own command. */
  ghost predicate CallsOwn(s: System, t: R.Thread) {
    var c := R.CallerOf(s.root, t);
    if IsIn(s, t, Asking)
    then c.Quit? || (!c.Idle? && CommandOf(s.current[t], Running(s, t)) == Some(c.command))
    else c.Idle?
  }

  ghost predicate Asked(s: System) { forall t: R.Thread :: CallsOwn(s, t) }

  predicate Passed(k: Task) {
    if k.kind.Installation? then k.begun > 9 || (k.begun == 9 && k.phase.Between?)
    else k.begun > 2 || (k.begun == 2 && k.phase.Between?)
  }

  function OwnCommand(u: Uuid, k: Task): R.Command {
    if k.kind.Installation? then R.Install(u, k.deb) else R.UninstallPackage(u, k.kind.package)
  }

  ghost predicate Succeeded(root: R.State, command: R.Command) {
    exists r <- root.executed :: r.command == command && r.answer == Some(true)
  }

  ghost predicate Vouched(s: System) {
    forall u: nat | u < |s.tasks| && Passed(s.tasks[u]) :: Succeeded(s.root, OwnCommand(u, s.tasks[u]))
  }

  ghost predicate Inv(s: System) {
    R.Inv(s.root) && Linked(s) && Remembered(s) && Traced(s) && Asked(s) && Vouched(s)
  }

  lemma InitInv()
    ensures Inv(Init())
  {
    R.InitInv();
  }

  /* ---- Every move keeps it ---- */

  lemma StepKeepsRoot(s: System, m: Move)
    requires Enabled(s, m) && R.Inv(s.root)
    ensures R.Inv(Apply(s, m).root)
  {
    hide R.Inv, R.Apply;
    match m
    case Ask(t) => R.StepKeepsInv(s.root, R.Invoke(t, CommandOf(s.current[t], Running(s, t)).value));
    case Quit(t) => R.StepKeepsInv(s.root, R.Retire(t));
    case Root(a) => R.StepKeepsInv(s.root, a);
    case _ =>
  }

  lemma EndKeepsLinks(s: System, t: R.Thread, outcome: Outcome)
    requires Linked(s) && Runs(s, t) && CanEnd(s, t) && Active(Running(s, t))
    requires EndsHere(Running(s, t).kind, Running(s, t).begun, outcome)
    ensures Linked(End(s, t, outcome))
  {
    hide EndsHere, Closing, Placed, AllPlaced, ThreadsRun, ActiveRun, ParentsWait, End;
    EndKeepsPlaces(s, t, outcome);
    EndKeepsThreads(s, t, outcome);
    EndKeepsActive(s, t, outcome);
    EndKeepsParents(s, t, outcome);
  }

  lemma EndKeepsPlaces(s: System, t: R.Thread, outcome: Outcome)
    requires Linked(s) && Runs(s, t) && CanEnd(s, t) && Active(Running(s, t))
    requires EndsHere(Running(s, t).kind, Running(s, t).begun, outcome)
    ensures AllPlaced(End(s, t, outcome))
  {
    hide EndsHere, Closing, Placed, ThreadsRun, ActiveRun;
    var u, k := s.current[t], Running(s, t);
    PlacedWhenDone(u, k, outcome);
    if k.parent.Some? { PlacedWhenResumed(k.parent.value, s.tasks[k.parent.value], u); }
  }

  lemma EndKeepsThreads(s: System, t: R.Thread, outcome: Outcome)
    requires Linked(s) && Runs(s, t) && CanEnd(s, t) && Active(Running(s, t))
    ensures ThreadsRun(End(s, t, outcome))
  {
    hide Closing, AllPlaced;
    assert Running(s, t).thread == t;
  }

  lemma EndKeepsActive(s: System, t: R.Thread, outcome: Outcome)
    requires Linked(s) && Runs(s, t) && CanEnd(s, t) && Active(Running(s, t))
    ensures ActiveRun(End(s, t, outcome))
  {
    hide Closing, AllPlaced;
    assert Running(s, t).thread == t && Running(s, t).thread in s.current
        && s.current[Running(s, t).thread] == s.current[t];
  }

  lemma EndKeepsParents(s: System, t: R.Thread, outcome: Outcome)
    requires Linked(s) && Runs(s, t) && CanEnd(s, t) && Active(Running(s, t))
    ensures ParentsWait(End(s, t, outcome))
  {
    hide Closing, AllPlaced, ThreadsRun, ActiveRun;
  }

  lemma PlacedWhenDone(u: Uuid, k: Task, outcome: Outcome)
    requires Placed(u, k) && k.begun >= 1 && EndsHere(k.kind, k.begun, outcome)
    ensures Placed(u, k.(phase := Ended(outcome)))
  {
  }

  lemma PlacedWhenResumed(u: Uuid, k: Task, child: Uuid)
    requires Placed(u, k) && k.phase == Nested(child)
    ensures Placed(u, k.(phase := Inside))
  {
  }

  /** Whatever the running task does but end or nest. */
  lemma RunningKeepsLinks(s: System, t: R.Thread, k': Task)
    requires Linked(s) && Runs(s, t) && Active(k') && Placed(s.current[t], k')
    requires var k := Running(s, t);
             k'.thread == k.thread && k'.life == k.life && k'.parent == k.parent && k'.kind == k.kind
    ensures Linked(s.(tasks := s.tasks[s.current[t] := k']))
  {
    hide Placed;
  }

  lemma NewTaskKeepsLinks(s: System, t: R.Thread, kind: Kind)
    requires Linked(s) && t !in s.current
    ensures Linked(Apply(s, Submit(t, kind)))
  {
  }

  lemma NestingKeepsLinks(s: System, t: R.Thread)
    requires Linked(s) && Enabled(s, Depend(t))
    ensures Linked(Apply(s, Depend(t)))
  {
    hide Placed, ActiveRun, ParentsWait;
    var s' := Apply(s, Depend(t));
    PlacedWhenNested(s.current[t], Running(s, t), |s.tasks|, t);
    assert AllPlaced(s') && ThreadsRun(s');
    NestingKeepsOrder(s, t);
  }

  lemma NestingKeepsOrder(s: System, t: R.Thread)
    requires ThreadsRun(s) && ActiveRun(s) && ParentsWait(s) && Enabled(s, Depend(t))
    ensures ActiveRun(Apply(s, Depend(t))) && ParentsWait(Apply(s, Depend(t)))
  {
  }

  lemma PlacedWhenNested(u: Uuid, k: Task, child: Uuid, t: R.Thread)
    requires k.kind.Installation? && k.begun == 5
    ensures Placed(u, k.(phase := Nested(child)))
    ensures Placed(child, NewTask(t, k.life, Some(u), Installation))
  {
  }

  lemma QuittingKeepsLinks(s: System, t: R.Thread)
    requires Linked(s) && Enabled(s, Quit(t))
    ensures Linked(Apply(s, Quit(t)))
  {
    hide Placed, R.Apply, R.Enabled;
    PlacedWhenAbandoned(s.current[t], Running(s, t));
  }

  lemma PlacedWhenAbandoned(u: Uuid, k: Task)
    requires Placed(u, k) && k.phase.Asking?
    ensures Placed(u, k.(phase := Abandoned))
  {
  }

  lemma LinksIgnoreRoot(s: System, s': System)
    requires Linked(s) && s'.tasks == s.tasks && s'.current == s.current && s'.abandoned == s.abandoned
    ensures Linked(s')
  {
    hide Placed;
  }

  lemma StepKeepsLinks(s: System, m: Move)
    requires Enabled(s, m) && Linked(s)
    ensures Linked(Apply(s, m))
  {
    hide Linked, End, EndsHere, R.Apply, R.Enabled, Closing, Announcement;
    RunningIsPlaced(s);
    var s' := Apply(s, m);
    match m
    case Submit(t, kind) => NewTaskKeepsLinks(s, t, kind);
    case Announce(t) =>
      RunningKeepsLinks(s, t, Running(s', t));
      LinksIgnoreRoot(s.(tasks := s'.tasks), s');
    case Finish(t, _, _, _) =>
      if Running(s, t).begun == Length(Running(s, t).kind) {
        LastStepEnds(Running(s, t));
        EndKeepsLinks(s, t, Ok);
      } else {
        RunningKeepsLinks(s, t, Running(s', t));
      }
    case Fail(t, outcome) => EndKeepsLinks(s, t, outcome);
    case Depend(t) => NestingKeepsLinks(s, t);
    case Ask(t) =>
      RunningKeepsLinks(s, t, Running(s', t));
      LinksIgnoreRoot(s.(tasks := s'.tasks), s');
    case Quit(t) => QuittingKeepsLinks(s, t);
    case Root(a) =>
      var s1 := s.(root := R.Apply(s.root, a));
      LinksIgnoreRoot(s, s1);
      if Leaves(s.root, a) {
        AskingMayCrash(s.current[a.t], Running(s, a.t));
        if Answers(s.root, a) {
          RunningKeepsLinks(s1, a.t, Running(s', a.t));
        } else {
          EndKeepsLinks(s1, a.t, Crashed);
        }
      }
  }

  lemma RunningIsPlaced(s: System)
    requires Linked(s)
    ensures forall t: R.Thread | t in s.current :: Runs(s, t) && Placed(s.current[t], Running(s, t))
  {
    hide Placed;
  }

  lemma LastStepEnds(k: Task)
    requires k.begun == Length(k.kind)
    ensures EndsHere(k.kind, k.begun, Ok)
  {
  }

  lemma AskingMayCrash(u: Uuid, k: Task)
    requires CommandOf(u, k).Some?
    ensures EndsHere(k.kind, k.begun, Crashed) && 1 <= k.begun < Length(k.kind)
  {
  }

  lemma OnSnoc(u: Uuid, events: seq<Event>, e: Event)
    ensures On(u, events + [e]) == On(u, events) + if UuidOf(e) == u then [e] else []
  {
    assert (events + [e])[..|events|] == events;
  }

  /** What a task publishes is its own. */
  lemma ClosingIsOwn(v: Uuid, events: seq<Event>, u: Uuid, kind: Kind, begun: nat, outcome: Outcome)
    requires 1 <= begun <= Length(kind)
    ensures var closing := Closing(kind, u, begun, outcome);
            On(v, events + closing) == On(v, events) + if v == u then closing else []
  {
    var closing := Closing(kind, u, begun, outcome);
    assert |closing| <= 1 && forall e <- closing :: UuidOf(e) == u;
    if closing == [] { assert events + closing == events; } else { OnSnoc(v, events, closing[0]); }
  }

  /** The running task is u, and nobody else's trace changes. */
  ghost predicate Extends(s: System, s': System, u: Uuid, own: seq<Event>) {
    && |s.tasks| <= |s'.tasks|
    && (forall v: nat :: On(v, s'.events) == On(v, s.events) + if v == u then own else [])
    && (forall v: nat | v < |s'.tasks| :: s'.tasks[v].begun <= Length(s'.tasks[v].kind)
          && TraceOf(v, s'.tasks[v]) == (if v < |s.tasks| then On(v, s.events) else []) + if v == u then own else [])
  }

  lemma ExtendsKeepsTraces(s: System, s': System, u: Uuid, own: seq<Event>)
    requires Traced(s) && Extends(s, s', u, own) && u < |s.tasks|
    ensures Traced(s')
  {
    hide On, TraceOf;
  }

  lemma EndKeepsTraces(s: System, t: R.Thread, outcome: Outcome)
    requires Linked(s) && Traced(s) && Runs(s, t) && CanEnd(s, t) && Active(Running(s, t))
    ensures Traced(End(s, t, outcome))
  {
    hide On, Announcements, Closing, AllPlaced, ThreadsRun, ActiveRun;
    var u, k := s.current[t], Running(s, t);
    var s' := End(s, t, outcome);
    var closing := Closing(k.kind, u, k.begun, outcome);
    forall v: nat ensures On(v, s'.events) == On(v, s.events) + if v == u then closing else [] {
      ClosingIsOwn(v, s.events, u, k.kind, k.begun, outcome);
    }
    forall v: nat | v < |s'.tasks|
      ensures s'.tasks[v].begun == s.tasks[v].begun && s'.tasks[v].kind == s.tasks[v].kind
      ensures TraceOf(v, s'.tasks[v]) == On(v, s.events) + if v == u then closing else []
    {
      assert On(v, s.events) == TraceOf(v, s.tasks[v]);
    }
    ExtendsKeepsTraces(s, s', u, closing);
  }

  /** A move that publishes nothing and ends nothing. */
  lemma QuietMoveKeepsTraces(s: System, s': System)
    requires Traced(s) && s'.events == s.events && |s.tasks| <= |s'.tasks|
    requires forall v: nat | v < |s.tasks| ::
               s'.tasks[v].kind == s.tasks[v].kind && s'.tasks[v].begun == s.tasks[v].begun
               && (s'.tasks[v].phase == s.tasks[v].phase || (!s.tasks[v].phase.Ended? && !s'.tasks[v].phase.Ended?))
    requires forall v: nat | |s.tasks| <= v < |s'.tasks| :: s'.tasks[v].begun == 0
    ensures Traced(s')
  {
    hide On, Closing;
    forall v: nat | v < |s'.tasks|
      ensures s'.tasks[v].begun <= Length(s'.tasks[v].kind) && On(v, s'.events) == TraceOf(v, s'.tasks[v])
    {
      if v < |s.tasks| { assert On(v, s.events) == TraceOf(v, s.tasks[v]); }
    }
  }

  lemma AnnounceKeepsTraces(s: System, t: R.Thread)
    requires Traced(s) && Enabled(s, Announce(t))
    ensures Traced(Apply(s, Announce(t)))
  {
    hide On, Closing, Announcement;
    var u, k := s.current[t], Running(s, t);
    var s' := Apply(s, Announce(t));
    var own := [Announcement(k.kind, u, k.begun)];
    AnnouncementIsOwn(k.kind, u, k.begun);
    forall v: nat ensures On(v, s'.events) == On(v, s.events) + if v == u then own else [] {
      OnSnoc(v, s.events, own[0]);
    }
    forall v: nat | v < |s'.tasks|
      ensures s'.tasks[v].begun <= Length(s'.tasks[v].kind)
      ensures TraceOf(v, s'.tasks[v]) == On(v, s.events) + if v == u then own else []
    {
      assert On(v, s.events) == TraceOf(v, s.tasks[v]);
    }
    ExtendsKeepsTraces(s, s', u, own);
  }

  lemma AnnouncementIsOwn(kind: Kind, u: Uuid, n: nat)
    requires n < Length(kind)
    ensures UuidOf(Announcement(kind, u, n)) == u
  {
  }

  lemma StepKeepsTraces(s: System, m: Move)
    requires Enabled(s, m) && Linked(s) && Traced(s)
    ensures Traced(Apply(s, m))
  {
    hide Traced, Linked, End, Placed, R.Apply, R.Enabled, EndsHere, CommandOf;
    var s' := Apply(s, m);
    match m
    case Announce(t) => AnnounceKeepsTraces(s, t);
    case Finish(t, _, _, _) =>
      if Running(s, t).begun == Length(Running(s, t).kind) {
        EndKeepsTraces(s, t, Ok);
      } else {
        QuietMoveKeepsTraces(s, s');
      }
    case Fail(t, outcome) => EndKeepsTraces(s, t, outcome);
    case Root(a) =>
      var s1 := s.(root := R.Apply(s.root, a));
      QuietMoveKeepsTraces(s, s1);
      LinksIgnoreRoot(s, s1);
      if Leaves(s.root, a) {
        if Answers(s.root, a) { QuietMoveKeepsTraces(s1, s'); } else { EndKeepsTraces(s1, a.t, Crashed); }
      }
    case _ => QuietMoveKeepsTraces(s, s');
  }

  /** The outcome of the task that a move ends. */
  function EndOf(s: System, m: Move): Option<Outcome>
    requires Enabled(s, m)
  {
    match m
    case Finish(t, _, _, _) => if Running(s, t).begun == Length(Running(s, t).kind) then Some(Ok) else None
    case Fail(_, outcome) => Some(outcome)
    case Root(a) => if Leaves(s.root, a) && !Answers(s.root, a) then Some(Crashed) else None
    case _ => None
  }

  /** A move that ends a task is nothing else. */
  lemma EndingMove(s: System, m: Move)
    requires Enabled(s, m) && Linked(s) && EndOf(s, m).Some?
    ensures 0 <= MoverOf(m) && Runs(s, MoverOf(m)) && CanEnd(s, MoverOf(m)) && !Running(s, MoverOf(m)).phase.Ended?
    ensures Apply(s, m) == End(s.(root := Apply(s, m).root), MoverOf(m), EndOf(s, m).value)
    ensures EndsHere(Running(s, MoverOf(m)).kind, Running(s, MoverOf(m)).begun, EndOf(s, m).value)
    ensures EndOf(s, m).value == Ok ==> Running(s, MoverOf(m)).begun == Length(Running(s, MoverOf(m)).kind)
  {
    hide EndsHere, R.Apply, R.Enabled, Linked, Closing;
    RunningIsPlaced(s);
    match m
    case Finish(t, _, _, _) => LastStepEnds(Running(s, t));
    case Root(a) => AskingMayCrash(s.current[a.t], Running(s, a.t));
    case _ =>
  }

  /** The other threads run what they ran. */
  lemma OthersRunOn(s: System, m: Move, t: R.Thread)
    requires Enabled(s, m) && Linked(s) && t != MoverOf(m) && Runs(s, t)
    ensures Runs(Apply(s, m), t) && Apply(s, m).current[t] == s.current[t]
    ensures Running(Apply(s, m), t) == Running(s, t)
  {
    hide R.Apply, R.Enabled, Placed, EndsHere, Closing, Announcement, CommandOf, End, Linked;
    RunningIsPlaced(s);
    RunningIsOwn(s);
    var ends := m.Fail? || (m.Finish? && Running(s, m.t).begun == Length(Running(s, m.t).kind));
    if ends {
      EndLeavesOthers(s, m.t, if m.Fail? then m.outcome else Ok, t);
    } else if m.Root? && Leaves(s.root, m.action) && !Answers(s.root, m.action) {
      var s1 := s.(root := R.Apply(s.root, m.action));
      LinksIgnoreRoot(s, s1);
      EndLeavesOthers(s1, m.action.t, Crashed, t);
    }
  }

  lemma RunningIsOwn(s: System)
    requires Linked(s)
    ensures forall t: R.Thread | t in s.current :: Runs(s, t) && Running(s, t).thread == t
  {
    hide Placed;
  }

  lemma EndLeavesOthers(s: System, t: R.Thread, outcome: Outcome, other: R.Thread)
    requires Linked(s) && Runs(s, t) && CanEnd(s, t) && other != t && Runs(s, other)
    ensures var s' := End(s, t, outcome);
            Runs(s', other) && s'.current[other] == s.current[other] && Running(s', other) == Running(s, other)
  {
    hide Placed, Closing;
  }

  lemma OthersStayAway(s: System, m: Move, t: R.Thread)
    requires Enabled(s, m) && Linked(s) && t != MoverOf(m) && t !in s.current
    ensures t !in Apply(s, m).current
  {
    hide R.Apply, R.Enabled, Placed, EndsHere, Closing, Announcement, CommandOf;
  }

  /** The thread a move belongs to; worker steps belong to no running thread and change none. */
  function MoverOf(m: Move): int {
    match m
    case Root(a) => if R.ByCaller(a) then a.t else -1
    case _ => m.t
  }

  /** The caller's place after a section of `send_cmd_and_wait`. */
  lemma SectionMoves(root: R.State, a: R.Action)
    requires R.Enabled(root, a) && R.ByCaller(a)
    ensures var c, c' := R.CallerOf(root, a.t), R.CallerOf(R.Apply(root, a), a.t);
            if a.Invoke? then c'.Quit? || (!c'.Idle? && c'.command == a.command)
            else if Leaves(root, a) || a.Retire? then c'.Idle?
            else !c.Idle? && !c.Quit? && !c'.Idle? && !c'.Quit? && c'.command == c.command
  {
  }

  lemma OtherCallersStay(s: System, m: Move, t: R.Thread)
    requires Enabled(s, m) && R.Inv(s.root) && t != MoverOf(m)
    ensures R.CallerOf(Apply(s, m).root, t) == R.CallerOf(s.root, t)
  {
    hide R.Inv;
    if m.Root? && !R.ByCaller(m.action) { R.WorkerStepFrame(s.root, m.action); }
  }

  lemma MoverCallsOwn(s: System, m: Move, t: R.Thread)
    requires Enabled(s, m) && Linked(s) && CallsOwn(s, t) && t == MoverOf(m)
    ensures CallsOwn(Apply(s, m), t)
  {
    hide R.Apply, R.Enabled, Placed, EndsHere, Closing, Announcement;
    match m
    case Ask(_) => SectionMoves(s.root, R.Invoke(t, CommandOf(s.current[t], Running(s, t)).value));
    case Quit(t) => SectionMoves(s.root, R.Retire(t));
    case Root(a) => SectionMoves(s.root, a);
    case _ =>
  }

  lemma StepKeepsCalls(s: System, m: Move)
    requires Enabled(s, m) && R.Inv(s.root) && Linked(s) && Asked(s)
    ensures Asked(Apply(s, m))
  {
    hide R.Inv, Linked, Enabled, Apply;
    forall t: R.Thread ensures CallsOwn(Apply(s, m), t) {
      assert CallsOwn(s, t);
      if t == MoverOf(m) {
        MoverCallsOwn(s, m, t);
      } else {
        OtherCallersStay(s, m, t);
        if t in s.current {
          RunningIsPlaced(s);
          OthersRunOn(s, m, t);
        } else {
          OthersStayAway(s, m, t);
        }
      }
    }
  }

  lemma SuccessLasts(root: R.State, a: R.Action)
    requires R.Enabled(root, a)
    ensures forall command :: Succeeded(root, command) ==> Succeeded(R.Apply(root, a), command)
  {
    R.LogsGrow(root, a);
  }

  /** The answer with which a thread leaves is that of its own command's execution. */
  lemma AnswerVouches(s: System, a: R.Action)
    requires Enabled(s, Root(a)) && Answers(s.root, a) && R.Inv(s.root) && CallsOwn(s, a.t)
    ensures Succeeded(s.root, CommandOf(s.current[a.t], Running(s, a.t)).value)
  {
    var c := R.CallerOf(s.root, a.t);
    assert R.CallerKnows(s.root, c);
    assert R.Reply(c.ticket, c.command, c.answer) in s.root.executed;
  }

  /** A task passes a step that asks only by an answer. */
  lemma PassingNeedsAnswer(s: System, m: Move, u: Uuid)
    requires Enabled(s, m) && Linked(s) && u < |Apply(s, m).tasks| && Passed(Apply(s, m).tasks[u])
    ensures || (u < |s.tasks| && Passed(s.tasks[u])
                && OwnCommand(u, Apply(s, m).tasks[u]) == OwnCommand(u, s.tasks[u]))
            || (m.Root? && Answers(s.root, m.action) && Runs(s, m.action.t) && u == s.current[m.action.t]
                && CommandOf(u, s.tasks[u]) == Some(OwnCommand(u, Apply(s, m).tasks[u])))
  {
    hide R.Apply, R.Enabled, EndsHere, Closing, Announcement, End, Linked, EndOf;
    RunningIsPlaced(s);
    if EndOf(s, m).Some? {
      EndingMove(s, m);
      EndPassesNothing(s.(root := Apply(s, m).root), MoverOf(m), EndOf(s, m).value, u);
    } else {
      PassingWithoutEnd(s, m, u);
    }
  }

  lemma EndPassesNothing(s: System, t: R.Thread, outcome: Outcome, u: Uuid)
    requires Runs(s, t) && CanEnd(s, t) && u < |End(s, t, outcome).tasks| && Passed(End(s, t, outcome).tasks[u])
    ensures u < |s.tasks| && Passed(s.tasks[u])
        && OwnCommand(u, End(s, t, outcome).tasks[u]) == OwnCommand(u, s.tasks[u])
  {
    hide Closing;
  }

  lemma PassingWithoutEnd(s: System, m: Move, u: Uuid)
    requires Enabled(s, m) && EndOf(s, m).None? && u < |Apply(s, m).tasks| && Passed(Apply(s, m).tasks[u])
    requires forall t: R.Thread | t in s.current :: Runs(s, t) && Placed(s.current[t], Running(s, t))
    ensures || (u < |s.tasks| && Passed(s.tasks[u])
                && OwnCommand(u, Apply(s, m).tasks[u]) == OwnCommand(u, s.tasks[u]))
            || (m.Root? && Answers(s.root, m.action) && Runs(s, m.action.t) && u == s.current[m.action.t]
                && CommandOf(u, s.tasks[u]) == Some(OwnCommand(u, Apply(s, m).tasks[u])))
  {
    hide R.Apply, R.Enabled, EndsHere, Announcement, End, InstallClosure.PackageFrom;
  }

  lemma StepKeepsVouchers(s: System, m: Move)
    requires Enabled(s, m) && R.Inv(s.root) && Linked(s) && Asked(s) && Vouched(s)
    ensures Vouched(Apply(s, m))
  {
    hide R.Inv, Linked, Succeeded, R.Apply, R.Enabled;
    var s' := Apply(s, m);
    forall command ensures Succeeded(s.root, command) ==> Succeeded(s'.root, command) {
      match m
      case Ask(t) => SuccessLasts(s.root, R.Invoke(t, CommandOf(s.current[t], Running(s, t)).value));
      case Quit(t) => SuccessLasts(s.root, R.Retire(t));
      case Root(a) => SuccessLasts(s.root, a);
      case _ =>
    }
    forall u: nat | u < |s'.tasks| && Passed(s'.tasks[u]) ensures Succeeded(s'.root, OwnCommand(u, s'.tasks[u])) {
      PassingNeedsAnswer(s, m, u);
      if m.Root? && Answers(s.root, m.action) {
        assert CallsOwn(s, m.action.t);
        AnswerVouches(s, m.action);
      }
    }
  }

  lemma StepKeepsMemory(s: System, m: Move)
    requires Enabled(s, m) && Linked(s) && Remembered(s)
    ensures Remembered(Apply(s, m))
  {
    hide R.Apply, R.Enabled, Enabled, Linked, Apply;
    var s' := Apply(s, m);
    forall t: R.Thread, i: nat | i < |Gone(s', t)| ensures IsAbandoned(s', t, i, Gone(s', t)[i]) {
      WhoIsGone(s, m, t);
      if i < |Gone(s, t)| {
        assert IsAbandoned(s, t, i, Gone(s, t)[i]);
        AbandonedStays(s, m, Gone(s, t)[i]);
      }
    }
  }

  /** Quitting adds the running task to those abandoned; nothing else does. */
  lemma WhoIsGone(s: System, m: Move, t: R.Thread)
    requires Enabled(s, m) && Linked(s)
    ensures var s' := Apply(s, m);
            if m == Quit(t)
            then Runs(s, t) && Gone(s', t) == Gone(s, t) + [s.current[t]]
                && IsAbandoned(s', t, |Gone(s, t)|, s.current[t])
            else Gone(s', t) == Gone(s, t)
  {
    hide R.Apply, R.Enabled, Closing, Announcement, EndsHere, CommandOf, InstallClosure.PackageFrom;
  }

  lemma AbandonedStays(s: System, m: Move, u: Uuid)
    requires Enabled(s, m) && Linked(s) && u < |s.tasks| && s.tasks[u].phase.Abandoned?
    ensures u < |Apply(s, m).tasks| && Apply(s, m).tasks[u] == s.tasks[u]
  {
    hide R.Apply, R.Enabled, Announcement, EndsHere, CommandOf, InstallClosure.PackageFrom, End, EndOf, Linked;
    RunningIsActive(s);
    if EndOf(s, m).Some? {
      EndingMove(s, m);
      var s1 := s.(root := Apply(s, m).root);
      LinksIgnoreRoot(s, s1);
      EndLeavesAbandoned(s1, MoverOf(m), EndOf(s, m).value, u);
    } else {
      AbandonedOtherwiseStays(s, m, u);
    }
  }

  lemma RunningIsActive(s: System)
    requires Linked(s)
    ensures forall t: R.Thread | t in s.current :: Runs(s, t) && Active(Running(s, t))
  {
    hide AllPlaced, ActiveRun, ParentsWait;
  }

  lemma EndLeavesAbandoned(s: System, t: R.Thread, outcome: Outcome, u: Uuid)
    requires Linked(s) && Runs(s, t) && CanEnd(s, t) && u < |s.tasks| && s.tasks[u].phase.Abandoned?
    ensures u < |End(s, t, outcome).tasks| && End(s, t, outcome).tasks[u] == s.tasks[u]
  {
    hide AllPlaced, ActiveRun, Closing;
  }

  lemma AbandonedOtherwiseStays(s: System, m: Move, u: Uuid)
    requires Enabled(s, m) && EndOf(s, m).None? && u < |s.tasks| && s.tasks[u].phase.Abandoned?
    requires forall t: R.Thread | t in s.current :: Runs(s, t) && Active(Running(s, t))
    ensures u < |Apply(s, m).tasks| && Apply(s, m).tasks[u] == s.tasks[u]
  {
    hide R.Apply, R.Enabled, Announcement, EndsHere, CommandOf, InstallClosure.PackageFrom, End;
  }

  lemma StepKeepsInv(s: System, m: Move)
    requires Inv(s) && Enabled(s, m)
    ensures Inv(Apply(s, m))
  {
    hide R.Inv, Linked, Remembered, Traced, Asked, Vouched, Enabled, Apply;
    StepKeepsRoot(s, m);
    StepKeepsMemory(s, m);
    StepKeepsLinks(s, m);
    StepKeepsTraces(s, m);
    StepKeepsCalls(s, m);
    StepKeepsVouchers(s, m);
  }

  lemma {:induction false} ScheduleKeepsInv(schedule: seq<Move>)
    ensures After(schedule).Some? ==> Inv(After(schedule).value)
    decreases |schedule|
  {
    hide Inv, Apply, Enabled;
    if schedule == [] {
      InitInv();
    } else {
      var most := schedule[..|schedule| - 1];
      ScheduleKeepsInv(most);
      var before := After(most);
      if before.Some? && Enabled(before.value, schedule[|schedule| - 1]) {
        StepKeepsInv(before.value, schedule[|schedule| - 1]);
      }
    }
  }

  /* ---- What holds of every interleaving ---- */

  lemma {:induction false} AnnouncementsAreInOrder(u: Uuid, n: nat)
    requires n <= STEP_COUNT
    ensures Announcements(Installation, u, n) == Announced(u, 0, n)
  {
    if n > 0 {
      AnnouncementsAreInOrder(u, n - 1);
      AnnouncedSnoc(u, 0, n - 1);
    }
  }

  lemma {:induction false} RemovalsAreInOrder(u: Uuid, kind: Kind, n: nat)
    requires kind.Uninstallation? && n <= 3
    ensures Announcements(kind, u, n) == [Removal(u, RemovalStarting), Removal(u, Removing),
                                          Removal(u, RemovalCompleted)][..n]
  {
    if n > 0 { RemovalsAreInOrder(u, kind, n - 1); }
  }

  lemma {:induction false} AnnouncedSnoc(u: Uuid, i: nat, n: nat)
    requires i <= n < STEP_COUNT
    ensures Announced(u, i, n + 1) == Announced(u, i, n) + [Progress(u, StepAt(n))]
    decreases n - i
  {
    if i < n { AnnouncedSnoc(u, i + 1, n); }
  }

  /** However the tasks are interleaved, what is published under one task's uuid is a trace of the sequential
      grammar: the steps in order up to some point, then, if the task has ended, the one ending that is allowed
      there; under an unused uuid, nothing. */
  lemma EachTraceIsLegal(schedule: seq<Move>, u: Uuid)
    requires After(schedule).Some?
    ensures var s := After(schedule).value;
            if u >= |s.tasks| then On(u, s.events) == []
            else
              var k := s.tasks[u];
              && k.begun <= Length(k.kind)
              && (k.phase.Ended? ==> k.begun >= 1 && EndsHere(k.kind, k.begun, k.phase.outcome))
              && (k.kind.Installation? ==>
                    On(u, s.events) == Announced(u, 0, k.begun)
                                       + if k.phase.Ended? then Ending(u, k.begun, k.phase.outcome) else [])
              && (k.kind.Uninstallation? ==>
                    On(u, s.events) == [Removal(u, RemovalStarting), Removal(u, Removing),
                                        Removal(u, RemovalCompleted)][..k.begun]
                                       + if k.phase == Ended(Crashed) then [RemovalFailed(u, Removing)] else [])
  {
    ScheduleKeepsInv(schedule);
    var s := After(schedule).value;
    if u < |s.tasks| {
      assert Placed(u, s.tasks[u]);
      if s.tasks[u].kind.Installation? {
        AnnouncementsAreInOrder(u, s.tasks[u].begun);
      } else {
        RemovalsAreInOrder(u, s.tasks[u].kind, s.tasks[u].begun);
      }
    }
  }

  /** A task gets past 'installing' only if the worker ran `install` for its own uuid and package and returned
      True; an uninstall task gets past 'removing' only if the worker removed its own package. */
  lemma PassingMeansExecuted(schedule: seq<Move>, u: Uuid)
    requires After(schedule).Some?
    ensures var s := After(schedule).value;
            && (Progress(u, Cleaning) in s.events ==>
                  u < |s.tasks| && Succeeded(s.root, R.Install(u, s.tasks[u].deb)))
            && (Removal(u, RemovalCompleted) in s.events ==>
                  u < |s.tasks| && s.tasks[u].kind.Uninstallation?
                      && Succeeded(s.root, R.UninstallPackage(u, s.tasks[u].kind.package)))
  {
    ScheduleKeepsInv(schedule);
    var s := After(schedule).value;
    if Progress(u, Cleaning) in s.events { PublishedIsOn(Progress(u, Cleaning), s.events); }
    if Removal(u, RemovalCompleted) in s.events { PublishedIsOn(Removal(u, RemovalCompleted), s.events); }
    if u < |s.tasks| { LateEventsMeanPassed(u, s.tasks[u]); }
  }

  lemma {:induction false} PublishedIsOn(e: Event, events: seq<Event>)
    ensures e in events ==> e in On(UuidOf(e), events)
  {
    if events != [] {
      var most := events[..|events| - 1];
      assert events == most + [events[|events| - 1]];
      PublishedIsOn(e, most);
    }
  }

  lemma LateEventsMeanPassed(u: Uuid, k: Task)
    requires Placed(u, k)
    ensures Progress(u, Cleaning) in TraceOf(u, k) ==> k.kind.Installation? && Passed(k)
    ensures Removal(u, RemovalCompleted) in TraceOf(u, k) ==> k.kind.Uninstallation? && Passed(k)
  {
    AnnouncedSoFar(k.kind, u, k.begun);
  }

  lemma {:induction false} AnnouncedSoFar(kind: Kind, u: Uuid, n: nat)
    requires n <= Length(kind)
    ensures Progress(u, Cleaning) in Announcements(kind, u, n) ==> kind.Installation? && n > 9
    ensures Removal(u, RemovalCompleted) in Announcements(kind, u, n) ==> kind.Uninstallation? && n > 2
  {
    if n > 0 { AnnouncedSoFar(kind, u, n - 1); }
  }

  /* ---- Shutting down ---- */

  /** No thread runs a task any more. */
  predicate IsShutDown(s: System) { s.current == map[] }

  /** When the executor has shut down nobody holds the worker's lock; until the queues close they are empty, and
      every command sent has been executed and answered. The stop that follows loses nothing. */
  lemma IdleThreadsLeaveNothing(schedule: seq<Move>)
    requires After(schedule).Some? && IsShutDown(After(schedule).value)
    ensures var root := After(schedule).value.root;
            && root.lock.None?
            && (!root.closed ==>
                  && root.commands == [] && root.results == [] && !R.IsBusy(root.worker)
                  && |root.executed| == |root.returned| == |root.acquired|)
  {
    ScheduleKeepsInv(schedule);
    var s := After(schedule).value;
    assert s.root.lock.Some? ==> CallsOwn(s, s.root.lock.value);
  }

  /* ---- Progress ---- */

  /** What a thread outside the worker can do next, if the packaging step finds this file. */
  function NextMove(s: System, t: R.Thread, deb: string, wazo: string, file: Schema.Metadata): Move
    requires Runs(s, t)
  {
    if Running(s, t).phase.Between? then Announce(t)
    else if CommandOf(s.current[t], Running(s, t)).Some? then Ask(t)
    else Finish(t, deb, wazo, file)
  }

  /** In every reachable system a running task that is not waiting for the worker can go on, up to its regular end:
      announce its next step, send its command, or finish the step, packaging for any valid file. */
  lemma RunningTaskCanGoOn(schedule: seq<Move>, t: R.Thread, deb: string, wazo: string, file: Schema.Metadata)
    requires After(schedule).Some? && InstallClosure.PackageFrom(wazo, file).Some?
    requires t in After(schedule).value.current && !IsIn(After(schedule).value, t, Asking)
    ensures var s := After(schedule).value;
            && Runs(s, t) && Enabled(s, NextMove(s, t, deb, wazo, file))
            && var s', u, k := Apply(s, NextMove(s, t, deb, wazo, file)), s.current[t], Running(s, t);
               && u < |s'.tasks|
               && (k.phase.Between? ==> s'.tasks[u].begun == k.begun + 1)
               && (k.phase.Inside? && k.begun == Length(k.kind) ==> s'.tasks[u].phase == Ended(Ok))
  {
    hide Inv, Enabled, Apply, NextMove;
    ScheduleKeepsInv(schedule);
    var s := After(schedule).value;
    InvMeans(s);
    RunningIsActive(s);
    CanGoOn(s, t, deb, wazo, file);
    GoesOn(s, t, deb, wazo, file);
  }

  lemma InvMeans(s: System)
    requires Inv(s)
    ensures Linked(s) && Asked(s)
  {
  }

  lemma CanGoOn(s: System, t: R.Thread, deb: string, wazo: string, file: Schema.Metadata)
    requires Linked(s) && CallsOwn(s, t) && t in s.current && Runs(s, t) && !IsIn(s, t, Asking)
    requires InstallClosure.PackageFrom(wazo, file).Some?
    ensures Enabled(s, NextMove(s, t, deb, wazo, file))
  {
    hide InstallClosure.PackageFrom, R.Enabled, Linked;
    RunningIsPlaced(s);
    RunningIsActive(s);
    ParentIsThere(s, s.current[t]);
  }

  lemma GoesOn(s: System, t: R.Thread, deb: string, wazo: string, file: Schema.Metadata)
    requires Linked(s) && t in s.current && Runs(s, t) && Enabled(s, NextMove(s, t, deb, wazo, file))
    ensures var s', u, k := Apply(s, NextMove(s, t, deb, wazo, file)), s.current[t], Running(s, t);
            && u < |s'.tasks|
            && (k.phase.Between? ==> s'.tasks[u].begun == k.begun + 1)
            && (k.phase.Inside? && k.begun == Length(k.kind) ==> s'.tasks[u].phase == Ended(Ok))
  {
    hide InstallClosure.PackageFrom, R.Apply, Closing, Announcement, Linked;
    ParentIsThere(s, s.current[t]);
  }

  lemma ParentIsThere(s: System, u: Uuid)
    requires Linked(s) && u < |s.tasks| && !s.tasks[u].phase.Ended?
    ensures s.tasks[u].parent.Some? ==> s.tasks[u].parent.value < u
  {
    hide AllPlaced, ThreadsRun, ActiveRun;
  }
}
