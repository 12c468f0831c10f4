/** On every thread the traces of concurrent tasks nest, between two quits of the thread. */
module ConcurrentNesting {
  import opened Wrappers
  import opened Install
  import InstallClosure
  import opened ConcurrentTasks
  import opened NestedTraces
  import R = RootWorker

  /* ---- Traces nest on every thread ---- */

  function FrameOf(u: Uuid, k: Task): Frame { Frame(u, k.kind.Uninstallation?, k.begun) }

  /** The open tasks from u outwards. */
  function Chain(tasks: seq<Task>, u: Uuid): seq<Frame>
    requires u < |tasks|
    decreases u
  {
    var k := tasks[u];
    (if 1 <= k.begun < Length(k.kind) then [FrameOf(u, k)] else [])
    + if k.parent.Some? && k.parent.value < u then Chain(tasks, k.parent.value) else []
  }

  /** A thread between two quits. */
  datatype Lane = Lane(thread: R.Thread, life: nat)

  function LaneOf(k: Task): Lane { Lane(k.thread, k.life) }

  /** The innermost task of a lane that did not return: the one running, or the one abandoned at the lane's end. */
  function InnermostOn(s: System, lane: Lane): Option<Uuid> {
    var gone := Gone(s, lane.thread);
    if lane.life < |gone| then Some(gone[lane.life])
    else if lane.life == |gone| && lane.thread in s.current then Some(s.current[lane.thread])
    else None
  }

  function OpenOn(s: System, lane: Lane): seq<Frame> {
    match InnermostOn(s, lane)
    case None => []
    case Some(u) => if u < |s.tasks| then Chain(s.tasks, u) else []
  }

  /** What the tasks of one lane publish. */
  function OfLane(tasks: seq<Task>, lane: Lane, events: seq<Event>): seq<Event> {
    if events == [] then []
    else
      var e := events[|events| - 1];
      OfLane(tasks, lane, events[..|events| - 1]) + if e.uuid < |tasks| && LaneOf(tasks[e.uuid]) == lane then [e]
          else []
  }

  ghost predicate NestsOn(s: System, lane: Lane) {
    ReadAll([], OfLane(s.tasks, lane, s.events)) == Some(OpenOn(s, lane))
  }

  lemma OfLaneSnoc(tasks: seq<Task>, lane: Lane, events: seq<Event>, e: Event)
    ensures OfLane(tasks, lane, events + [e]) ==
            OfLane(tasks, lane, events) + if e.uuid < |tasks| && LaneOf(tasks[e.uuid]) == lane then [e] else []
  {
    assert (events + [e])[..|events|] == events;
  }

  ghost predicate Published(tasks: seq<Task>, events: seq<Event>) { forall e <- events :: e.uuid < |tasks| }

  lemma TracedIsPublished(s: System)
    requires Traced(s)
    ensures Published(s.tasks, s.events)
  {
    forall e <- s.events ensures e.uuid < |s.tasks| {
      PublishedIsOn(e, s.events);
      assert e.uuid >= |s.tasks| ==> On(UuidOf(e), s.events) == [];
    }
  }

  /** What never changes of a task: its lane, kind and parent; only the task u may have announced a step. */
  ghost predicate Grows(tasks: seq<Task>, tasks': seq<Task>, u: int) {
    && |tasks| <= |tasks'|
    && forall v: nat | v < |tasks| ::
         && LaneOf(tasks'[v]) == LaneOf(tasks[v])
         && tasks'[v].kind == tasks[v].kind && tasks'[v].parent == tasks[v].parent
         && (v != u ==> tasks'[v].begun == tasks[v].begun)
  }

  lemma {:induction false} OfLaneStays(tasks: seq<Task>, tasks': seq<Task>, u: int, lane: Lane, events: seq<Event>)
    requires Grows(tasks, tasks', u) && Published(tasks, events)
    ensures OfLane(tasks', lane, events) == OfLane(tasks, lane, events)
  {
    if events != [] {
      assert events[|events| - 1] in events;
      OfLaneStays(tasks, tasks', u, lane, events[..|events| - 1]);
    }
  }

  /** The tasks that wait for u run on its lane. */
  ghost predicate ParentsShare(tasks: seq<Task>) {
    forall u: nat | u < |tasks| && tasks[u].parent.Some? && !tasks[u].phase.Ended? ::
      var p := tasks[u].parent.value;
      p < u && !tasks[p].phase.Ended? && LaneOf(tasks[p]) == LaneOf(tasks[u])
      && tasks[p].kind.Installation? && tasks[p].begun == 5 && tasks[u].kind.Installation?
  }

  lemma LinkedShares(s: System)
    requires Linked(s)
    ensures ParentsShare(s.tasks)
  {
    hide CommandOf, EndsHere;
    forall u: nat | u < |s.tasks| && s.tasks[u].parent.Some? && !s.tasks[u].phase.Ended?
      ensures var p := s.tasks[u].parent.value;
              p < u && !s.tasks[p].phase.Ended? && LaneOf(s.tasks[p]) == LaneOf(s.tasks[u])
              && s.tasks[p].kind.Installation? && s.tasks[p].begun == 5 && s.tasks[u].kind.Installation?
    {
      assert Placed(s.tasks[u].parent.value, s.tasks[s.tasks[u].parent.value]);
    }
  }

  lemma {:induction false} ChainStays(tasks: seq<Task>, tasks': seq<Task>, u: int, v: Uuid)
    requires v < |tasks| && ParentsShare(tasks) && Grows(tasks, tasks', u) && !tasks[v].phase.Ended?
    requires 0 <= u < |tasks| && u <= v ==>
               LaneOf(tasks[u]) != LaneOf(tasks[v]) || tasks'[u].begun == tasks[u].begun
    ensures Chain(tasks', v) == Chain(tasks, v)
    decreases v
  {
    var parent := tasks[v].parent;
    if parent.Some? {
      assert parent.value < v;
      ChainStays(tasks, tasks', u, parent.value);
    }
  }

  /** Below an open task stands nothing, or its parent in the dependency step. */
  function Below(tasks: seq<Task>, u: Uuid): seq<Frame>
    requires u < |tasks|
  {
    if tasks[u].parent.Some? && tasks[u].parent.value < u then Chain(tasks, tasks[u].parent.value) else []
  }

  lemma BelowStays(tasks: seq<Task>, tasks': seq<Task>, changed: int, u: Uuid)
    requires u < |tasks| && ParentsShare(tasks) && Grows(tasks, tasks', changed) && !tasks[u].phase.Ended?
    requires changed == u || changed == -1
    ensures Below(tasks', u) == Below(tasks, u)
  {
    if tasks[u].parent.Some? {
      assert tasks[u].parent.value < u;
      ChainStays(tasks, tasks', changed, tasks[u].parent.value);
    }
  }

  lemma BelowMayStart(tasks: seq<Task>, u: Uuid)
    requires u < |tasks| && ParentsShare(tasks) && !tasks[u].phase.Ended?
    ensures MayStart(Below(tasks, u), u)
    ensures tasks[u].kind.Uninstallation? ==> Below(tasks, u) == []
  {
  }

  lemma EndGrows(s: System, t: R.Thread, outcome: Outcome)
    requires Runs(s, t) && CanEnd(s, t)
    ensures Grows(s.tasks, End(s, t, outcome).tasks, -1)
  {
    hide Closing;
  }

  lemma GrowsByMove(s: System, m: Move)
    requires Enabled(s, m) && Linked(s)
    ensures Grows(s.tasks, Apply(s, m).tasks, if m.Announce? then s.current[m.t] else -1)
  {
    hide R.Apply, R.Enabled, EndsHere, Linked, End, Announcement, CommandOf, EndOf;
    if EndOf(s, m).Some? {
      EndingMove(s, m);
      EndGrows(s.(root := Apply(s, m).root), MoverOf(m), EndOf(s, m).value);
    } else {
      MoveWithoutEnd(s, m);
    }
  }

  lemma MoveWithoutEnd(s: System, m: Move)
    requires Enabled(s, m) && EndOf(s, m).None?
    ensures Grows(s.tasks, Apply(s, m).tasks, if m.Announce? then s.current[m.t] else -1)
    ensures m.Announce? ==> Apply(s, m).current == s.current && Apply(s, m).abandoned == s.abandoned
    ensures !m.Announce? ==> Apply(s, m).events == s.events
    ensures !m.Announce? && !m.Submit? && !m.Depend? && !m.Quit? ==> Apply(s, m).current == s.current
    ensures !m.Quit? ==> Apply(s, m).abandoned == s.abandoned
  {
    hide R.Apply, R.Enabled, EndsHere, End, Announcement, CommandOf, InstallClosure.PackageFrom;
  }

  lemma KindsAlike(u: Uuid, k: Task)
    ensures var f := FrameOf(u, k);
            && Length(f.Kind()) == Length(k.kind)
            && (k.begun < Length(k.kind) ==> Announcement(f.Kind(), u, k.begun) == Announcement(k.kind, u, k.begun))
            && (forall outcome :: EndsHere(f.Kind(), k.begun, outcome) == EndsHere(k.kind, k.begun, outcome))
            && (1 <= k.begun <= Length(k.kind) ==>
                  forall outcome :: Closing(f.Kind(), u, k.begun, outcome) == Closing(k.kind, u, k.begun, outcome))
  {
  }

  /* ---- One move, one lane ---- */

  /** The lane a thread is on now. */
  function PresentLane(s: System, t: R.Thread): Lane { Lane(t, |Gone(s, t)|) }

  /** The move is made on this lane. */
  predicate IsOn(s: System, m: Move, lane: Lane) { MoverOf(m) == lane.thread && lane == PresentLane(s, lane.thread) }

  lemma EndExtends(s: System, t: R.Thread, outcome: Outcome)
    requires Traced(s) && Runs(s, t) && CanEnd(s, t) && LaneOf(Running(s, t)) == PresentLane(s, t)
    requires EndsHere(Running(s, t).kind, Running(s, t).begun, outcome)
    ensures var u, k, s', lane := s.current[t], Running(s, t), End(s, t, outcome), PresentLane(s, t);
            OfLane(s'.tasks, lane, s'.events) == OfLane(s.tasks, lane, s.events) + Closing(k.kind, u, k.begun, outcome)
  {
    hide Traced, EndsHere, Closing;
    var u, k, s', lane := s.current[t], Running(s, t), End(s, t, outcome), PresentLane(s, t);
    var closing := Closing(k.kind, u, k.begun, outcome);
    TracedIsPublished(s);
    EndGrows(s, t, outcome);
    OfLaneStays(s.tasks, s'.tasks, -1, lane, s.events);
    ClosingShape(u, k, outcome);
    if outcome == Ok {
      assert s.events + closing == s.events;
    } else {
      OfLaneSnoc(s'.tasks, lane, s.events, closing[0]);
    }
  }

  lemma EndOpens(s: System, t: R.Thread, outcome: Outcome)
    requires Linked(s) && t in s.current && Runs(s, t) && CanEnd(s, t) && !Running(s, t).phase.Ended?
    ensures var u, k, s', lane := s.current[t], Running(s, t), End(s, t, outcome), PresentLane(s, t);
            && OpenOn(s, lane) == (if k.begun < Length(k.kind) then [FrameOf(u, k)] else []) + Below(s.tasks, u)
            && OpenOn(s', lane) == Below(s.tasks, u)
  {
    hide Linked, Closing, ParentsShare, Grows;
    LinkedShares(s);
    EndGrows(s, t, outcome);
    GrowsMeansMore(s.tasks, End(s, t, outcome).tasks, -1);
    ParentComesFirst(s.tasks, s.current[t]);
    BelowStays(s.tasks, End(s, t, outcome).tasks, -1, s.current[t]);
  }

  lemma ParentComesFirst(tasks: seq<Task>, u: Uuid)
    requires u < |tasks| && ParentsShare(tasks) && !tasks[u].phase.Ended?
    ensures tasks[u].parent.Some? ==> tasks[u].parent.value < u
  {
  }

  lemma EndNests(s: System, t: R.Thread, outcome: Outcome)
    requires Linked(s) && Traced(s) && t in s.current && Runs(s, t) && CanEnd(s, t) && !Running(s, t).phase.Ended?
    requires EndsHere(Running(s, t).kind, Running(s, t).begun, outcome) && LaneOf(Running(s, t)) == PresentLane(s, t)
    requires outcome == Ok ==> Running(s, t).begun == Length(Running(s, t).kind)
    requires NestsOn(s, PresentLane(s, t))
    ensures NestsOn(End(s, t, outcome), PresentLane(s, t))
  {
    hide Linked, Traced, EndsHere, Closing, Read, End, OpenOn, OfLane, Below;
    var u, k, lane := s.current[t], Running(s, t), PresentLane(s, t);
    EndExtends(s, t, outcome);
    EndOpens(s, t, outcome);
    KindsAlike(u, k);
    ClosingShape(u, k, outcome);
    var closing, events, below := Closing(k.kind, u, k.begun, outcome), OfLane(s.tasks, lane, s.events),
        Below(s.tasks, u);
    if outcome == Ok {
      assert events + closing == events && [] + below == below;
    } else {
      ReadSnoc([], events, closing[0]);
      ReadClosing(below, FrameOf(u, k), outcome, closing[0]);
    }
  }

  lemma ClosingShape(u: Uuid, k: Task, outcome: Outcome)
    requires 1 <= k.begun <= Length(k.kind) && EndsHere(k.kind, k.begun, outcome)
    ensures var closing := Closing(k.kind, u, k.begun, outcome);
            if outcome == Ok then closing == []
            else closing == [closing[0]] && closing[0].uuid == u && k.begun < Length(k.kind)
  {
  }

  lemma AnnounceExtends(s: System, t: R.Thread)
    requires Linked(s) && Traced(s) && Enabled(s, Announce(t)) && LaneOf(Running(s, t)) == PresentLane(s, t)
    ensures var u, k, s', lane := s.current[t], Running(s, t), Apply(s, Announce(t)), PresentLane(s, t);
            OfLane(s'.tasks, lane, s'.events) == OfLane(s.tasks, lane, s.events) + [Announcement(k.kind, u, k.begun)]
  {
    hide Linked, Traced, Announcement;
    var u, k, s', lane := s.current[t], Running(s, t), Apply(s, Announce(t)), PresentLane(s, t);
    TracedIsPublished(s);
    GrowsByMove(s, Announce(t));
    OfLaneStays(s.tasks, s'.tasks, u, lane, s.events);
    OfLaneSnoc(s'.tasks, lane, s.events, Announcement(k.kind, u, k.begun));
    AnnouncementIsOwn(k.kind, u, k.begun);
  }

  lemma AnnounceChanges(s: System, t: R.Thread)
    requires Enabled(s, Announce(t))
    ensures var u, s' := s.current[t], Apply(s, Announce(t));
            && s'.current == s.current && s'.abandoned == s.abandoned && |s'.tasks| == |s.tasks|
            && s'.tasks[u] == Running(s, t).(begun := Running(s, t).begun + 1, phase := Inside)
  {
  }

  lemma AnnounceOpens(s: System, t: R.Thread)
    requires Linked(s) && Enabled(s, Announce(t))
    ensures var u, k, s', lane := s.current[t], Running(s, t), Apply(s, Announce(t)), PresentLane(s, t);
            && OpenOn(s, lane) == (if k.begun >= 1 then [FrameOf(u, k)] else []) + Below(s.tasks, u)
            && OpenOn(s', lane) == (if k.begun + 1 < Length(k.kind) then [FrameOf(u, k.(begun := k.begun + 1))] else [])
                + Below(s.tasks, u)
            && MayStart(Below(s.tasks, u), u) && (k.kind.Uninstallation? ==> Below(s.tasks, u) == [])
  {
    hide Linked, ParentsShare, Grows, MayStart, Apply;
    var u, s' := s.current[t], Apply(s, Announce(t));
    LinkedShares(s);
    AnnounceChanges(s, t);
    GrowsByMove(s, Announce(t));
    BelowStays(s.tasks, s'.tasks, u, u);
    BelowMayStart(s.tasks, u);
  }

  lemma AnnounceNests(s: System, t: R.Thread)
    requires Linked(s) && Traced(s) && Enabled(s, Announce(t)) && LaneOf(Running(s, t)) == PresentLane(s, t)
    requires NestsOn(s, PresentLane(s, t))
    ensures NestsOn(Apply(s, Announce(t)), PresentLane(s, t))
  {
    hide Linked, Traced, Read, MayStart, Announcement, Apply, OpenOn, OfLane, Below;
    var u, k := s.current[t], Running(s, t);
    AnnounceExtends(s, t);
    AnnounceOpens(s, t);
    ReadSnoc([], OfLane(s.tasks, PresentLane(s, t), s.events), Announcement(k.kind, u, k.begun));
    ReadNext(u, k, Below(s.tasks, u));
  }

  /** A task's next step is read where its thread stands. */
  lemma ReadNext(u: Uuid, k: Task, below: seq<Frame>)
    requires k.begun < Length(k.kind) && MayStart(below, u) && (k.kind.Uninstallation? ==> below == [])
    ensures var next := k.(begun := k.begun + 1);
            Read((if k.begun >= 1 then [FrameOf(u, k)] else []) + below, Announcement(k.kind, u, k.begun))
            == Some((if next.begun < Length(k.kind) then [FrameOf(u, next)] else []) + below)
  {
    hide Closes;
    KindsAlike(u, k);
    assert [] + below == below;
    if k.begun >= 1 {
      var open := [FrameOf(u, k)] + below;
      assert open[0] == FrameOf(u, k) && open[1..] == below;
    }
  }

  lemma QuietNests(s: System, m: Move, lane: Lane)
    requires Linked(s) && Traced(s) && Enabled(s, m) && EndOf(s, m).None? && !m.Announce?
    requires IsOn(s, m, lane) && NestsOn(s, lane)
    ensures NestsOn(Apply(s, m), lane)
  {
    hide Linked, Traced, ReadAll, Apply, Enabled, OpenOn, EndOf;
    TracedIsPublished(s);
    MoveWithoutEnd(s, m);
    OfLaneStays(s.tasks, Apply(s, m).tasks, -1, lane, s.events);
    QuietOpens(s, m, lane);
  }

  lemma QuietOpens(s: System, m: Move, lane: Lane)
    requires Linked(s) && Enabled(s, m) && EndOf(s, m).None? && !m.Announce? && IsOn(s, m, lane)
    ensures OpenOn(Apply(s, m), lane) == OpenOn(s, lane)
  {
    hide Linked, Grows, ParentsShare, R.Apply, R.Enabled, CommandOf, InstallClosure.PackageFrom;
    var s', t := Apply(s, m), lane.thread;
    LinkedShares(s);
    MoveWithoutEnd(s, m);
    if !m.Submit? {
      var u := s.current[t];
      RunningIsActive(s);
      ChainStays(s.tasks, s'.tasks, -1, u);
      assert |s.tasks| <= |s'.tasks| by { GrowsMeansMore(s.tasks, s'.tasks, -1); }
      if m.Depend? {
        assert s'.current[t] == |s.tasks| && s'.tasks[|s.tasks|].begun == 0 && s'.tasks[|s.tasks|].parent == Some(u);
        assert [] + Chain(s'.tasks, u) == Chain(s'.tasks, u);
      }
    }
  }

  lemma GrowsMeansMore(tasks: seq<Task>, tasks': seq<Task>, u: int)
    requires Grows(tasks, tasks', u)
    ensures |tasks| <= |tasks'|
  {
  }

  /** What a move publishes is of its own lane. */
  lemma OthersNest(s: System, m: Move, lane: Lane)
    requires Inv(s) && Enabled(s, m) && !IsOn(s, m, lane) && NestsOn(s, lane)
    ensures NestsOn(Apply(s, m), lane)
  {
    hide R.Inv, Linked, Remembered, Traced, Asked, Vouched, ReadAll, Apply, IsOn;
    OthersKeepEvents(s, m, lane);
    OthersKeepOpen(s, m, lane);
  }

  /** The mover's task is of the lane the move is made on. */
  lemma MoverIsOnLane(s: System, m: Move, lane: Lane)
    requires Linked(s) && Enabled(s, m) && !IsOn(s, m, lane)
    ensures forall t: R.Thread | t == MoverOf(m) && t in s.current :: Runs(s, t) && LaneOf(Running(s, t)) != lane
  {
    hide AllPlaced, ActiveRun, ParentsWait, Enabled;
  }

  lemma OthersKeepEvents(s: System, m: Move, lane: Lane)
    requires Linked(s) && Traced(s) && Enabled(s, m) && !IsOn(s, m, lane)
    ensures OfLane(Apply(s, m).tasks, lane, Apply(s, m).events) == OfLane(s.tasks, lane, s.events)
  {
    hide Linked, Traced, End, R.Apply, R.Enabled, EndOf, Announcement, Closing, EndsHere, Grows, IsOn;
    var s' := Apply(s, m);
    var u := if m.Announce? then s.current[m.t] else -1;
    TracedIsPublished(s);
    MoverIsOnLane(s, m, lane);
    GrowsByMove(s, m);
    OfLaneStays(s.tasks, s'.tasks, u, lane, s.events);
    if EndOf(s, m).Some? {
      EndingMove(s, m);
      EndPublishes(s, m, lane);
    } else if m.Announce? {
      var k := Running(s, m.t);
      AnnouncementIsOwn(k.kind, s.current[m.t], k.begun);
      OfLaneSnoc(s'.tasks, lane, s.events, Announcement(k.kind, s.current[m.t], k.begun));
    } else {
      MoveWithoutEnd(s, m);
    }
  }

  lemma EndPublishes(s: System, m: Move, lane: Lane)
    requires Linked(s) && Enabled(s, m) && EndOf(s, m).Some? && !IsOn(s, m, lane)
    ensures OfLane(Apply(s, m).tasks, lane, Apply(s, m).events) == OfLane(Apply(s, m).tasks, lane, s.events)
  {
    hide Linked, R.Apply, R.Enabled, EndOf, Closing, EndsHere, IsOn;
    EndingMove(s, m);
    MoverIsOnLane(s, m, lane);
    var mover, outcome, s' := MoverOf(m), EndOf(s, m).value, Apply(s, m);
    var u, k := s.current[mover], Running(s, mover);
    ClosingShape(u, k, outcome);
    var closing := Closing(k.kind, u, k.begun, outcome);
    assert LaneOf(s'.tasks[u]) == LaneOf(k) != lane;
    if outcome == Ok {
      assert s.events + closing == s.events;
    } else {
      OfLaneSnoc(s'.tasks, lane, s.events, closing[0]);
    }
  }

  lemma OthersKeepInnermost(s: System, m: Move, lane: Lane)
    requires Inv(s) && Enabled(s, m) && !IsOn(s, m, lane)
    ensures InnermostOn(Apply(s, m), lane) == InnermostOn(s, lane)
  {
    hide R.Inv, Linked, Remembered, Traced, Asked, Vouched, Apply, Enabled;
    RunningIsPlaced(s);
    WhoIsGone(s, m, lane.thread);
    if lane.thread != MoverOf(m) {
      if lane.thread in s.current { OthersRunOn(s, m, lane.thread); } else { OthersStayAway(s, m, lane.thread); }
    } else if m.Quit? {
      QuitterIsAway(s, m.t);
    }
  }

  lemma QuitterIsAway(s: System, t: R.Thread)
    requires Enabled(s, Quit(t))
    ensures t !in Apply(s, Quit(t)).current
  {
  }

  /** Whoever is innermost on a lane is of that lane and has not ended. */
  lemma InnermostIsOpen(s: System, lane: Lane)
    requires Inv(s) && InnermostOn(s, lane).Some?
    ensures var u := InnermostOn(s, lane).value;
            u < |s.tasks| && LaneOf(s.tasks[u]) == lane && !s.tasks[u].phase.Ended?
  {
    hide R.Inv, AllPlaced, ActiveRun, ParentsWait, Traced, Asked, Vouched;
    if lane.life < |Gone(s, lane.thread)| {
      assert IsAbandoned(s, lane.thread, lane.life, Gone(s, lane.thread)[lane.life]);
    }
  }

  lemma OthersKeepOpen(s: System, m: Move, lane: Lane)
    requires Inv(s) && Enabled(s, m) && !IsOn(s, m, lane)
    ensures OpenOn(Apply(s, m), lane) == OpenOn(s, lane)
  {
    hide R.Inv, Linked, Remembered, Traced, Asked, Vouched, Apply, Enabled, Grows, ParentsShare, IsOn, InnermostOn;
    LinkedShares(s);
    GrowsByMove(s, m);
    AnnouncerRuns(s, m);
    OthersKeepInnermost(s, m, lane);
    if InnermostOn(s, lane).Some? {
      InnermostIsOpen(s, lane);
      MoverIsOnLane(s, m, lane);
      var u := if m.Announce? then s.current[m.t] else -1;
      GrowsMeansMore(s.tasks, Apply(s, m).tasks, u);
      ChainStays(s.tasks, Apply(s, m).tasks, u, InnermostOn(s, lane).value);
    }
  }

  lemma AnnouncerRuns(s: System, m: Move)
    requires Enabled(s, m)
    ensures m.Announce? ==> m.t in s.current && Runs(s, m.t) && MoverOf(m) == m.t
  {
  }

  /** The lane of a running task is its thread's present one. */
  lemma RunnerIsOnLane(s: System, t: R.Thread)
    requires Linked(s) && t in s.current
    ensures Runs(s, t) && LaneOf(Running(s, t)) == PresentLane(s, t)
  {
    hide AllPlaced, ActiveRun, ParentsWait;
  }

  lemma StepNests(s: System, m: Move, lane: Lane)
    requires Inv(s) && Enabled(s, m) && NestsOn(s, lane)
    ensures NestsOn(Apply(s, m), lane)
  {
    hide R.Inv, Linked, Remembered, Traced, Asked, Vouched, NestsOn, End, R.Apply, R.Enabled, EndOf;
    var t := lane.thread;
    if !IsOn(s, m, lane) {
      OthersNest(s, m, lane);
    } else if EndOf(s, m).Some? {
      EndingMove(s, m);
      RunnerIsOnLane(s, t);
      var s1 := s.(root := Apply(s, m).root);
      LinksIgnoreRoot(s, s1);
      NestingIgnoresRoot(s, s1, lane);
      EndNests(s1, t, EndOf(s, m).value);
    } else if m.Announce? {
      AnnouncerRuns(s, m);
      RunnerIsOnLane(s, t);
      AnnounceNests(s, t);
    } else {
      QuietNests(s, m, lane);
    }
  }

  lemma NestingIgnoresRoot(s: System, s': System, lane: Lane)
    requires s'.tasks == s.tasks && s'.current == s.current && s'.events == s.events && s'.abandoned == s.abandoned
    ensures NestsOn(s, lane) == NestsOn(s', lane) && Traced(s) == Traced(s')
  {
  }

  /** In every interleaving, what a thread's tasks publish between two quits nests: whole traces stand within the
      dependency step of the task that started them, and between them nothing else of that thread. What is open at
      the end is what runs, or what was abandoned, and the tasks waiting for it. */
  lemma {:induction false} TracesNestBetweenQuits(schedule: seq<Move>, lane: Lane)
    requires After(schedule).Some?
    ensures var s := After(schedule).value;
            && NestsOn(s, lane)
            && (lane.life >= |Gone(s, lane.thread)| && lane.thread !in s.current ==>
                  ReadAll([], OfLane(s.tasks, lane, s.events)) == Some([]))
    decreases |schedule|
  {
    hide Inv, NestsOn, Apply, Enabled;
    if schedule == [] {
      NothingNests(lane);
    } else {
      var most, m := schedule[..|schedule| - 1], schedule[|schedule| - 1];
      TracesNestBetweenQuits(most, lane);
      ScheduleKeepsInv(most);
      StepNests(After(most).value, m, lane);
    }
    IdleIsClosed(After(schedule).value, lane);
  }

  lemma NothingNests(lane: Lane)
    ensures NestsOn(ConcurrentTasks.Init(), lane)
  {
  }

  lemma IdleIsClosed(s: System, lane: Lane)
    requires NestsOn(s, lane)
    ensures lane.life >= |Gone(s, lane.thread)| && lane.thread !in s.current ==>
              ReadAll([], OfLane(s.tasks, lane, s.events)) == Some([])
  {
  }

  /* ---- A thread across its quits ---- */

  /** What the tasks of one thread publish, in all its lives. */
  function OfThread(tasks: seq<Task>, t: R.Thread, events: seq<Event>): seq<Event> {
    if events == [] then []
    else
      var e := events[|events| - 1];
      OfThread(tasks, t, events[..|events| - 1]) + if e.uuid < |tasks| && tasks[e.uuid].thread == t then [e] else []
  }

  /** Nothing is published on the thread by a task that it took after abandoning one. */
  ghost predicate IsCalm(tasks: seq<Task>, t: R.Thread, events: seq<Event>) {
    forall e <- events | e.uuid < |tasks| && tasks[e.uuid].thread == t :: tasks[e.uuid].life == 0
  }

  ghost predicate WholeNestsIfCalm(s: System, t: R.Thread) {
    ReadAll([], OfThread(s.tasks, t, s.events)).Some? ==> IsCalm(s.tasks, t, s.events)
  }

  lemma OfThreadSnoc(tasks: seq<Task>, t: R.Thread, events: seq<Event>, e: Event)
    ensures OfThread(tasks, t, events + [e]) ==
            OfThread(tasks, t, events) + if e.uuid < |tasks| && tasks[e.uuid].thread == t then [e] else []
  {
    assert (events + [e])[..|events|] == events;
  }

  lemma {:induction false} OfThreadStays(tasks: seq<Task>, tasks': seq<Task>, u: int, t: R.Thread, events: seq<Event>)
    requires Grows(tasks, tasks', u) && Published(tasks, events)
    ensures OfThread(tasks', t, events) == OfThread(tasks, t, events)
    ensures IsCalm(tasks', t, events) == IsCalm(tasks, t, events)
  {
    if events != [] {
      assert events[|events| - 1] in events;
      OfThreadStays(tasks, tasks', u, t, events[..|events| - 1]);
    }
  }

  lemma {:induction false} CalmIsOneLane(tasks: seq<Task>, t: R.Thread, events: seq<Event>)
    requires IsCalm(tasks, t, events)
    ensures OfThread(tasks, t, events) == OfLane(tasks, Lane(t, 0), events)
  {
    if events != [] {
      assert events[|events| - 1] in events;
      CalmIsOneLane(tasks, t, events[..|events| - 1]);
    }
  }

  /** A move publishes at most one event, of the task that its thread runs. */
  lemma MovePublishes(s: System, m: Move)
    requires Enabled(s, m) && Linked(s)
    ensures var s' := Apply(s, m);
            || s'.events == s.events
            || (0 <= MoverOf(m) && MoverOf(m) in s.current
                && exists e :: s'.events == s.events + [e] && e.uuid == s.current[MoverOf(m)])
  {
    hide Linked, End, R.Apply, R.Enabled, EndOf, Announcement, Closing, EndsHere;
    if EndOf(s, m).Some? {
      EndingMove(s, m);
      var t := MoverOf(m);
      var u, k, outcome := s.current[t], Running(s, t), EndOf(s, m).value;
      ClosingShape(u, k, outcome);
      EndAppends(s.(root := Apply(s, m).root), t, outcome);
      assert s.events + [] == s.events;
    } else if m.Announce? {
      var k := Running(s, m.t);
      AnnouncementIsOwn(k.kind, s.current[m.t], k.begun);
      assert Apply(s, m).events == s.events + [Announcement(k.kind, s.current[m.t], k.begun)];
    } else {
      MoveWithoutEnd(s, m);
    }
  }

  lemma EndAppends(s: System, t: R.Thread, outcome: Outcome)
    requires Runs(s, t) && CanEnd(s, t)
    ensures End(s, t, outcome).events == s.events
        + Closing(Running(s, t).kind, s.current[t], Running(s, t).begun, outcome)
  {
    hide Closing;
  }

  /** After an abandoned task nothing more can be read. */
  lemma AbandonedBlocks(s: System, t: R.Thread, e: Event)
    requires Inv(s) && |Gone(s, t)| > 0 && e.uuid != Gone(s, t)[0]
    ensures Read(OpenOn(s, Lane(t, 0)), e) == None
  {
    hide R.Inv, ThreadsRun, ActiveRun, ParentsWait, Traced, Asked, Vouched, Closes;
    var u := Gone(s, t)[0];
    assert IsAbandoned(s, t, 0, u);
    assert Placed(u, s.tasks[u]);
    var open := OpenOn(s, Lane(t, 0));
    assert open == Chain(s.tasks, u) && open[0] == FrameOf(u, s.tasks[u]);
  }

  lemma CalmSnoc(tasks: seq<Task>, t: R.Thread, events: seq<Event>, e: Event)
    requires e.uuid < |tasks|
    ensures IsCalm(tasks, t, events + [e]) <==>
        IsCalm(tasks, t, events) && (tasks[e.uuid].thread == t ==> tasks[e.uuid].life == 0)
  {
    assert e in events + [e] && forall x <- events :: x in events + [e];
  }

  lemma QuitBlocks(s: System, t: R.Thread, e: Event)
    requires Inv(s) && NestsOn(s, Lane(t, 0)) && WholeNestsIfCalm(s, t) && |Gone(s, t)| > 0 && e.uuid != Gone(s, t)[0]
    ensures ReadAll([], OfThread(s.tasks, t, s.events) + [e]) == None
  {
    hide Inv, OpenOn, Read, OfThread, OfLane, IsCalm;
    ReadSnoc([], OfThread(s.tasks, t, s.events), e);
    AbandonedBlocks(s, t, e);
    if IsCalm(s.tasks, t, s.events) { CalmIsOneLane(s.tasks, t, s.events); }
  }

  lemma StepKeepsWhole(s: System, m: Move, t: R.Thread)
    requires Inv(s) && Enabled(s, m) && NestsOn(s, Lane(t, 0)) && WholeNestsIfCalm(s, t)
    ensures WholeNestsIfCalm(Apply(s, m), t)
  {
    hide R.Inv, Linked, Remembered, Traced, Asked, Vouched, Apply, Enabled, Grows, Read, NestsOn, Published, IsCalm,
        OfThread;
    var s' := Apply(s, m);
    TracedIsPublished(s);
    GrowsByMove(s, m);
    MovePublishes(s, m);
    AnnouncerRuns(s, m);
    var changed := if m.Announce? then s.current[m.t] else -1;
    OfThreadStays(s.tasks, s'.tasks, changed, t, s.events);
    if s'.events != s.events {
      var mover: R.Thread := MoverOf(m);
      var e :| s'.events == s.events + [e] && e.uuid == s.current[mover];
      RunnerIsOnLane(s, mover);
      LanesStay(s.tasks, s'.tasks, changed);
      OfThreadSnoc(s'.tasks, t, s.events, e);
      CalmSnoc(s'.tasks, t, s.events, e);
      if mover == t {
        ReadSnoc([], OfThread(s.tasks, t, s.events), e);
        if |Gone(s, t)| > 0 {
          RunnerIsNotGone(s, t);
          QuitBlocks(s, t, e);
        }
      } else {
        var before := OfThread(s.tasks, t, s.events);
        assert before + [] == before;
      }
    }
  }

  lemma LanesStay(tasks: seq<Task>, tasks': seq<Task>, u: int)
    requires Grows(tasks, tasks', u)
    ensures |tasks| <= |tasks'| && forall v: nat | v < |tasks| :: LaneOf(tasks'[v]) == LaneOf(tasks[v])
  {
  }

  lemma RunnerIsNotGone(s: System, t: R.Thread)
    requires Inv(s) && t in s.current && |Gone(s, t)| > 0
    ensures s.current[t] != Gone(s, t)[0]
  {
    hide R.Inv, AllPlaced, ActiveRun, ParentsWait, Traced, Asked, Vouched;
    assert IsAbandoned(s, t, 0, Gone(s, t)[0]);
    assert Active(Running(s, t));
  }

  lemma {:induction false} ScheduleKeepsWhole(schedule: seq<Move>, t: R.Thread)
    requires After(schedule).Some?
    ensures WholeNestsIfCalm(After(schedule).value, t)
    decreases |schedule|
  {
    hide Inv, NestsOn, Apply, Enabled, WholeNestsIfCalm;
    if schedule == [] {
      NothingIsCalm(t);
    } else {
      var most, m := schedule[..|schedule| - 1], schedule[|schedule| - 1];
      ScheduleKeepsWhole(most, t);
      ScheduleKeepsInv(most);
      TracesNestBetweenQuits(most, Lane(t, 0));
      StepKeepsWhole(After(most).value, m, t);
    }
  }

  lemma NothingIsCalm(t: R.Thread)
    ensures WholeNestsIfCalm(ConcurrentTasks.Init(), t)
  {
  }

  /** Over its whole run, what a thread's tasks publish nests exactly when nothing is published on it after an abandoned
      task: a thread that quits on finding the worker dead takes its next job. */
  lemma TracesNestOnThreadExactly(schedule: seq<Move>, t: R.Thread)
    requires After(schedule).Some?
    ensures var s := After(schedule).value;
            ReadAll([], OfThread(s.tasks, t, s.events)).Some? <==> IsCalm(s.tasks, t, s.events)
  {
    ScheduleKeepsWhole(schedule, t);
    TracesNestBetweenQuits(schedule, Lane(t, 0));
    var s := After(schedule).value;
    if IsCalm(s.tasks, t, s.events) { CalmIsOneLane(s.tasks, t, s.events); }
  }

  /** Two removals queued for one thread while the worker is dead: both start, neither ends. */
  lemma QuittingBreaksNesting(u: Uuid, v: Uuid)
    requires u != v
    ensures ReadAll([], [Removal(u, RemovalStarting), Removal(u, Removing), Removal(v, RemovalStarting)]) == None
  {
    var a, b, c := Removal(u, RemovalStarting), Removal(u, Removing), Removal(v, RemovalStarting);
    hide Closes;
    var f, g := Frame(u, true, 1), Frame(u, true, 2);
    assert [] + [a] == [a] && [a] + [b] == [a, b] && [a, b] + [c] == [a, b, c];
    ReadSnoc([], [], a);
    assert Read([], a) == Some([f] + []) && [f] + [] == [f];
    ReadSnoc([], [a], b);
    assert b == Announcement(f.Kind(), u, 1) && Read([f], b) == Some([g] + [f][1..]) && [g] + [f][1..] == [g];
    ReadSnoc([], [a, b], c);
  }
}
