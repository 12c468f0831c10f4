/** The end of the root worker: what a stop request and the death of the process put an end to. */
module RootWorkerStop {
  import opened Wrappers
  import opened RootWorker

  predicate ByWorker(a: Action) { a.TestStop? || a.Timeout? || a.Take? || a.Execute? || a.SendReply? || a.LoseReply? }

  /** How many commands a worker can still execute once it is asked to stop: the one it has, or one more that its
      pending `get` may take. */
  function Remaining(w: Worker): nat { if w.Getting? || w.Executing? then 1 else 0 }

  /** How many steps it is from the end of its loop, at most. */
  function StepsLeft(w: Worker): nat {
    match w
    case Getting => 4
    case Executing(_) => 3
    case Putting(_) => 2
    case Looping => 1
    case _ => 0
  }

  /** After a stop request no step adds to what the worker can still execute. */
  lemma StepUsesRemaining(s: State, a: Action)
    requires Enabled(s, a) && s.stopRequested
    ensures var s' := Apply(s, a);
            && s'.stopRequested && s.executed <= s'.executed
            && |s'.executed| + Remaining(s'.worker) <= |s.executed| + Remaining(s.worker)
            && (!IsAlive(s.worker) ==> !IsAlive(s'.worker))
            && (a.TestStop? ==> s'.worker.Exited?)
  {
  }

  lemma PrefixRuns(schedule: seq<Action>)
    requires schedule != [] && After(schedule).Some?
    ensures var most, a := schedule[..|schedule| - 1], schedule[|schedule| - 1];
            && After(most).Some? && Enabled(After(most).value, a)
            && After(schedule) == Some(Apply(After(most).value, a))
  {
  }

  ghost predicate Happened(schedule: seq<Action>, a: Action) { a in schedule }

  /** The machine knows exactly what happened to it: a stop request, the closing of the queues, and death, which comes
      to a live worker only. */
  lemma {:induction false} EventsAreKnown(schedule: seq<Action>)
    requires After(schedule).Some?
    ensures var s := After(schedule).value;
            && (s.stopRequested <==> Happened(schedule, RequestStop))
            && (s.closed <==> Happened(schedule, CloseQueues))
            && (s.worker.Dead? <==> Happened(schedule, Die))
            && (s.worker.Exited? ==> s.stopRequested)
    decreases |schedule|
  {
    hide Enabled, Apply;
    if schedule != [] {
      var most, a := schedule[..|schedule| - 1], schedule[|schedule| - 1];
      PrefixRuns(schedule);
      EventsAreKnown(most);
      assert schedule == most + [a];
      StepIsKnown(After(most).value, a);
    }
  }

  lemma StepIsKnown(s: State, a: Action)
    requires Enabled(s, a)
    ensures var s' := Apply(s, a);
            && (s'.stopRequested <==> s.stopRequested || a.RequestStop?)
            && (s'.closed <==> s.closed || a.CloseQueues?)
            && (s'.worker.Dead? <==> s.worker.Dead? || a.Die?)
            && (s'.worker.Exited? ==> s.worker.Exited? || s.stopRequested)
  {
  }

  /** From a stop request on, in every interleaving, at most one more command is executed, and none once the worker's
      loop tests the request or the process has died. */
  lemma {:induction false} StopEndsExecution(schedule: seq<Action>, n: nat)
    requires n <= |schedule| && After(schedule).Some?
    ensures After(schedule[..n]).Some?
    ensures var early, late := After(schedule[..n]).value, After(schedule).value;
            early.stopRequested ==>
              && late.stopRequested && early.executed <= late.executed
              && |late.executed| + Remaining(late.worker) <= |early.executed| + Remaining(early.worker)
              && |late.executed| <= |early.executed| + 1
              && (!IsAlive(early.worker) ==> !IsAlive(late.worker) && late.executed == early.executed)
              && ((exists k | n <= k < |schedule| :: schedule[k].TestStop?) ==> !IsAlive(late.worker))
    decreases |schedule|
  {
    hide Enabled, Apply;
    if n == |schedule| {
      assert schedule[..n] == schedule;
    } else {
      var most := schedule[..|schedule| - 1];
      assert most[..n] == schedule[..n];
      PrefixRuns(schedule);
      StopEndsExecution(most, n);
      var early := After(schedule[..n]).value;
      if early.stopRequested {
        StepUsesRemaining(After(most).value, schedule[|schedule| - 1]);
        if k :| n <= k < |schedule| && schedule[k].TestStop? && k < |most| { assert most[k].TestStop?; }
      }
    }
  }

  /** After a stop request every step of the worker brings it closer to the end of its loop, and while it is alive
      there is such a step, so at most four of them end it, whatever the answers are and whatever else happens. */
  lemma StoppingWorkerEnds(s: State, a: Action, answer: Answer)
    requires s.stopRequested && Enabled(s, a)
    ensures var s' := Apply(s, a);
            && StepsLeft(s'.worker) <= StepsLeft(s.worker) <= 4
            && (ByWorker(a) ==> StepsLeft(s'.worker) < StepsLeft(s.worker))
            && (StepsLeft(s.worker) == 0 <==> !IsAlive(s.worker))
            && (s'.worker.Exited? && !s.worker.Exited? <==> a.TestStop?)
    ensures IsAlive(s.worker) ==> Enabled(s, NextStep(s.worker, answer)) && ByWorker(NextStep(s.worker, answer))
  {
  }

  /** A step that a live worker can always take. */
  function NextStep(w: Worker, answer: Answer): Action {
    match w
    case Getting => Timeout
    case Executing(_) => Execute(answer)
    case Putting(_) => SendReply
    case _ => TestStop
  }

  function WorkOn(s: State, answer: Answer): State
    requires s.stopRequested
    ensures WorkOn(s, answer).stopRequested
    decreases StepsLeft(s.worker)
  {
    if !IsAlive(s.worker) then s
    else
      StoppingWorkerEnds(s, NextStep(s.worker, answer), answer);
      WorkOn(Apply(s, NextStep(s.worker, answer)), answer)
  }

  /** From any state with a stop request and a live worker, its own enabled steps lead to a normal exit, which is what
      `stop` waits for. */
  lemma {:induction false} WorkerExits(s: State, answer: Answer)
    requires s.stopRequested && IsAlive(s.worker)
    ensures WorkOn(s, answer).worker.Exited?
    decreases StepsLeft(s.worker)
  {
    var a := NextStep(s.worker, answer);
    StoppingWorkerEnds(s, a, answer);
    if IsAlive(Apply(s, a).worker) { WorkerExits(Apply(s, a), answer); }
  }

  /* ---- Calls on a dead worker ---- */

  lemma StepOnDeadWorker(s: State, a: Action)
    requires Enabled(s, a) && !IsAlive(s.worker)
    ensures var s' := Apply(s, a);
            && !IsAlive(s'.worker) && s'.executed == s.executed && s.acquired <= s'.acquired
            && (forall t: Thread | CallerOf(s', t).Wanting? :: CallerOf(s, t) == CallerOf(s', t))
            && (forall i | |s.acquired| <= i < |s'.acquired| :: CallerOf(s, s'.acquired[i].0).Wanting?)
            && (a.Invoke? ==> CallerOf(s', a.t).Quit?)
  {
  }

  /** Once the worker has exited or died nothing more is executed, a new call ends at once, and only calls that had
      found it alive still take the lock. */
  lemma {:induction false} DeadWorkerGetsNoCalls(schedule: seq<Action>, n: nat)
    requires n <= |schedule| && After(schedule).Some?
    ensures After(schedule[..n]).Some?
    ensures var early, late := After(schedule[..n]).value, After(schedule).value;
            !IsAlive(early.worker) ==>
              && !IsAlive(late.worker) && late.executed == early.executed && early.acquired <= late.acquired
              && (forall t: Thread | CallerOf(late, t).Wanting? :: CallerOf(early, t) == CallerOf(late, t))
              && (forall i | |early.acquired| <= i < |late.acquired| :: CallerOf(early, late.acquired[i].0).Wanting?)
    decreases |schedule|
  {
    hide Enabled, Apply;
    if n == |schedule| {
      assert schedule[..n] == schedule;
    } else {
      var most := schedule[..|schedule| - 1];
      assert most[..n] == schedule[..n];
      PrefixRuns(schedule);
      DeadWorkerGetsNoCalls(most, n);
      var early, mid, late := After(schedule[..n]).value, After(most).value, After(schedule).value;
      if !IsAlive(early.worker) {
        StepOnDeadWorker(mid, schedule[|schedule| - 1]);
        forall i | |early.acquired| <= i < |late.acquired| ensures CallerOf(early, late.acquired[i].0).Wanting? {
          if i < |mid.acquired| {
            assert late.acquired[i] == mid.acquired[i];
          } else {
            assert CallerOf(mid, late.acquired[i].0).Wanting?;
          }
        }
      }
    }
  }

  /** A call finds the worker dead exactly when it is. */
  lemma CallsFindDeathExactly(s: State, t: Thread, command: Command)
    requires CallerOf(s, t).Idle?
    ensures Enabled(s, Invoke(t, command))
    ensures CallerOf(Apply(s, Invoke(t, command)), t) == if IsAlive(s.worker) then Wanting(command) else Quit
  {
  }
}
