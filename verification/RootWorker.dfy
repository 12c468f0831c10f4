/** The root worker: many threads, one lock, two queues, one privileged process.

    Each atomic section of the caller's code and of the worker's loop is one step of a machine; every
    interleaving, with the stop request and the death of the worker anywhere, is a sequence of steps. */
module RootWorker {
  import opened Wrappers

  type Thread = nat

  /** The position of a call in the order in which the lock was taken. The program does not store it:
      it names the message in the proofs. */
  type Ticket = nat

  datatype Command =
    | AptGetUpdate(uuid: nat)
    | Install(uuid: nat, deb: string)
    | UninstallPackage(uuid: nat, package: string)

  /** `True`, `False`, or `None` after an exception in the worker. */
  type Answer = Option<bool>

  datatype Message = Message(ticket: Ticket, command: Command)

  datatype Reply = Reply(ticket: Ticket, command: Command, answer: Answer)

  /** Where a thread is in `send_cmd_and_wait`. */
  datatype Caller =
    | Idle
    | Wanting(command: Command)  // the worker was alive; about to take the lock
    | Holding(ticket: Ticket, command: Command)  // before `put`
    | Waiting(ticket: Ticket, command: Command)  // in `get`
    | Fetched(ticket: Ticket, command: Command, answer: Answer)  // before the lock is released
    | Quit  // `sys.exit` after finding the worker dead, until the executor catches it

  /** Where the worker is in `_run`. */
  datatype Worker =
    | Looping  // about to test the stop request
    | Getting
    | Executing(message: Message)
    | Putting(reply: Reply)
    | Exited
    | Dead

  /** `acquired`, `executed` and `returned` record what happened; the rest is the program's state. */
  datatype State = State(
    callers: map<Thread, Caller>,
    lock: Option<Thread>,
    commands: seq<Message>,
    results: seq<Reply>,
    stopRequested: bool,
    closed: bool,
    worker: Worker,
    acquired: seq<(Thread, Command)>,
    executed: seq<Reply>,
    returned: seq<(Thread, Reply)>)

  datatype Action =
    | Invoke(t: Thread, command: Command)
    | Acquire(t: Thread)
    | Put(t: Thread)
    | Fetch(t: Thread)
    | FetchRaises(t: Thread)
    | Release(t: Thread)
    | Retire(t: Thread)
    | TestStop
    | Timeout
    | Take
    | Execute(answer: Answer)
    | SendReply
    | LoseReply
    | Die
    | RequestStop
    | CloseQueues

  function CallerOf(s: State, t: Thread): Caller {
    if t in s.callers then s.callers[t] else Idle
  }

  predicate IsAlive(w: Worker) { !w.Exited? && !w.Dead? }

  function Init(): State {
    State(map[], None, [], [], false, false, Looping, [], [], [])
  }

  predicate Enabled(s: State, a: Action) {
    match a
    case Invoke(t, _) => CallerOf(s, t).Idle?
    case Acquire(t) => CallerOf(s, t).Wanting? && s.lock.None?
    case Put(t) => CallerOf(s, t).Holding?
    case Fetch(t) => CallerOf(s, t).Waiting? && s.results != []
    case FetchRaises(t) => CallerOf(s, t).Waiting? && s.closed
    case Release(t) => CallerOf(s, t).Fetched?
    case Retire(t) => CallerOf(s, t).Quit?
    case TestStop => s.worker.Looping?
    case Timeout => s.worker.Getting?
    case Take => s.worker.Getting? && s.commands != []
    case Execute(_) => s.worker.Executing?
    case SendReply => s.worker.Putting?
    case LoseReply => s.worker.Putting? && s.closed
    case Die => IsAlive(s.worker)
    case RequestStop => true
    case CloseQueues => s.stopRequested
  }

  function Apply(s: State, a: Action): State
    requires Enabled(s, a)
  {
    match a
    case Invoke(t, command) =>
      s.(callers := s.callers[t := if IsAlive(s.worker) then Wanting(command) else Quit])
    case Acquire(t) =>
      var command := CallerOf(s, t).command;
      s.(lock := Some(t), callers := s.callers[t := Holding(|s.acquired|, command)],
         acquired := s.acquired + [(t, command)])
    case Put(t) =>
      var c := CallerOf(s, t);
      if s.closed then s.(lock := None, callers := s.callers[t := Idle])  // the exception leaves the `with` block
      else s.(commands := s.commands + [Message(c.ticket, c.command)],
              callers := s.callers[t := Waiting(c.ticket, c.command)])
    case Fetch(t) =>
      var c := CallerOf(s, t);
      s.(results := s.results[1..], callers := s.callers[t := Fetched(c.ticket, c.command, s.results[0].answer)])
    case FetchRaises(t) => s.(lock := None, callers := s.callers[t := Idle])
    case Release(t) =>
      var c := CallerOf(s, t);
      s.(lock := None, callers := s.callers[t := Idle],
         returned := s.returned + [(t, Reply(c.ticket, c.command, c.answer))])
    case Retire(t) => s.(callers := s.callers[t := Idle])
    case TestStop => s.(worker := if s.stopRequested then Exited else Getting)
    case Timeout => s.(worker := Looping)
    case Take => s.(commands := s.commands[1..], worker := Executing(s.commands[0]))
    case Execute(answer) =>
      var reply := Reply(s.worker.message.ticket, s.worker.message.command, answer);
      s.(worker := Putting(reply), executed := s.executed + [reply])
    case SendReply => s.(results := s.results + [s.worker.reply], worker := Looping)
    case LoseReply => s.(worker := Looping)
    case Die => s.(worker := Dead)
    case RequestStop => s.(stopRequested := true)
    case CloseQueues => s.(closed := true)
  }

  /** The state after a schedule, if every action of it is enabled in turn. */
  function After(schedule: seq<Action>): Option<State> {
    if schedule == [] then Some(Init())
    else
      var before := After(schedule[..|schedule| - 1]);
      var a := schedule[|schedule| - 1];
      if before.Some? && Enabled(before.value, a) then Some(Apply(before.value, a)) else None
  }

  /* ---- The invariant ---- */

  predicate HoldsLock(c: Caller) { c.Holding? || c.Waiting? || c.Fetched? }

  predicate IsBusy(w: Worker) { w.Executing? || w.Putting? }

  /** How many messages are between `put` and `get`, on whichever side. */
  function InTransit(s: State): nat {
    |s.commands| + |s.results| + if IsBusy(s.worker) then 1 else 0
  }

  /** The lock is held by exactly the thread inside the `with` block, and that thread took it last. */
  ghost predicate LockInv(s: State) {
    && (forall t: Thread :: HoldsLock(CallerOf(s, t)) <==> s.lock == Some(t))
    && (s.lock.Some? ==>
          var c := CallerOf(s, s.lock.value);
          && |s.acquired| > 0 && c.ticket == |s.acquired| - 1
          && s.acquired[c.ticket] == (s.lock.value, c.command))
  }

  datatype Flight = Flight(ticket: Ticket, command: Command, pending: bool)

  /** The message in transit, if there is one, and whether it is still to be executed. */
  function InFlight(s: State): Option<Flight> {
    if s.commands != [] then Some(Flight(s.commands[0].ticket, s.commands[0].command, true))
    else if s.worker.Executing? then Some(Flight(s.worker.message.ticket, s.worker.message.command, true))
    else if s.worker.Putting? then Some(Flight(s.worker.reply.ticket, s.worker.reply.command, false))
    else if s.results != [] then Some(Flight(s.results[0].ticket, s.results[0].command, false))
    else None
  }

  /** There is at most one message, and it is the waiting lock holder's. */
  ghost predicate TransitInv(s: State) {
    && InTransit(s) <= 1
    && (forall r <- s.results :: r in s.executed)
    && (s.worker.Putting? ==> s.worker.reply in s.executed)
    && (InFlight(s).Some? ==>
          var f := InFlight(s).value;
          && f.ticket < |s.acquired| && s.acquired[f.ticket].1 == f.command
          && (f.pending ==> forall r <- s.executed :: r.ticket < f.ticket)
          && (!s.closed ==> s.lock.Some? && CallerOf(s, s.lock.value) == Waiting(f.ticket, f.command))
          && (forall t: Thread :: CallerOf(s, t).Waiting? ==> CallerOf(s, t) == Waiting(f.ticket, f.command))
          && (forall t: Thread :: CallerOf(s, t).Holding? ==> f.ticket < CallerOf(s, t).ticket))
  }

  /** Before its `put` a thread's ticket is above all executed ones; after its `get` it is among them; until it
      leaves it is above all returned ones. */
  ghost predicate CallerKnows(s: State, c: Caller) {
    && (c.Holding? ==> forall r <- s.executed :: r.ticket < c.ticket)
    && (c.Fetched? ==> Reply(c.ticket, c.command, c.answer) in s.executed)
    && (HoldsLock(c) ==> forall p <- s.returned :: p.1.ticket < c.ticket)
  }

  /** What the threads inside the lock know of the logs. */
  ghost predicate CallerInv(s: State) {
    forall t: Thread :: CallerKnows(s, CallerOf(s, t))
  }

  /** Executions and returns are of the commands their tickets were issued for, each once and in ticket order. */
  ghost predicate LogInv(s: State) {
    && (forall r <- s.executed :: r.ticket < |s.acquired| && s.acquired[r.ticket].1 == r.command)
    && (forall i, j | 0 <= i < j < |s.executed| :: s.executed[i].ticket < s.executed[j].ticket)
    && (forall p <- s.returned :: p.1 in s.executed && s.acquired[p.1.ticket] == (p.0, p.1.command))
    && (forall i, j | 0 <= i < j < |s.returned| :: s.returned[i].1.ticket < s.returned[j].1.ticket)
  }

  /** Until the queues are closed nothing is skipped: the logs are full prefixes of the order of acquisition. */
  ghost predicate PrefixInv(s: State) {
    !s.closed ==>
      && (forall i | 0 <= i < |s.executed| :: s.executed[i].ticket == i)
      && (forall i | 0 <= i < |s.returned| :: s.returned[i].1.ticket == i)
      && |s.returned| + (if s.lock.Some? then 1 else 0) == |s.acquired|
      && |s.returned| <= |s.executed| <= |s.acquired|
  }

  ghost predicate Inv(s: State) {
    LockInv(s) && TransitInv(s) && CallerInv(s) && LogInv(s) && PrefixInv(s)
  }

  lemma InitInv()
    ensures Inv(Init())
  {
  }

  predicate ByCaller(a: Action) {
    a.Invoke? || a.Acquire? || a.Put? || a.Fetch? || a.FetchRaises? || a.Release? || a.Retire?
  }

  /** Worker steps leave the threads, the lock and its order alone. */
  lemma WorkerStepFrame(s: State, a: Action)
    requires Enabled(s, a) && !ByCaller(a)
    ensures var s' := Apply(s, a);
            && s'.callers == s.callers && s'.lock == s.lock && s'.acquired == s.acquired && s'.returned == s.returned
            && (forall t: Thread :: CallerOf(s', t) == CallerOf(s, t))
            && (s'.closed <==> s.closed || a.CloseQueues?)
            && var m := if a.Execute? then [Reply(s.worker.message.ticket, s.worker.message.command, a.answer)] else [];
               s'.executed == s.executed + m
  {
    assert s.executed + [] == s.executed;
  }

  /** A caller's step changes only that caller's place. */
  lemma CallerStepFrame(s: State, a: Action)
    requires Enabled(s, a) && ByCaller(a) && LockInv(s)
    ensures var s' := Apply(s, a);
            && (forall t: Thread | t != a.t :: CallerOf(s', t) == CallerOf(s, t))
            && s'.worker == s.worker && s'.executed == s.executed && s'.closed == s.closed
            && (HoldsLock(CallerOf(s, a.t)) <==> s.lock == Some(a.t))
            && (forall t: Thread | t != a.t && s.lock != Some(t) :: !HoldsLock(CallerOf(s', t)))
  {
    var s' := Apply(s, a);
    forall t: Thread | t != a.t && s.lock != Some(t) ensures !HoldsLock(CallerOf(s', t)) {
      assert HoldsLock(CallerOf(s, t)) <==> s.lock == Some(t);
    }
  }

  lemma StepKeepsLock(s: State, a: Action)
    requires LockInv(s) && Enabled(s, a)
    ensures LockInv(Apply(s, a))
  {
    if ByCaller(a) { CallerStepFrame(s, a); } else { WorkerStepFrame(s, a); }
    var s' := Apply(s, a);
    forall t: Thread ensures HoldsLock(CallerOf(s', t)) <==> s'.lock == Some(t) {
      assert HoldsLock(CallerOf(s, t)) <==> s.lock == Some(t);
    }
  }

  lemma CallerStepKeepsTransit(s: State, a: Action)
    requires LockInv(s) && TransitInv(s) && CallerInv(s) && Enabled(s, a) && ByCaller(a)
    ensures TransitInv(Apply(s, a))
  {
    CallerStepFrame(s, a);
    assert CallerKnows(s, CallerOf(s, a.t));
  }

  lemma WorkerStepKeepsTransit(s: State, a: Action)
    requires TransitInv(s) && Enabled(s, a) && !ByCaller(a)
    ensures TransitInv(Apply(s, a))
  {
    WorkerStepFrame(s, a);
  }

  lemma StepKeepsCallers(s: State, a: Action)
    requires LockInv(s) && TransitInv(s) && CallerInv(s) && LogInv(s) && Enabled(s, a)
    ensures CallerInv(Apply(s, a))
  {
    var s' := Apply(s, a);
    forall t: Thread
      ensures CallerKnows(s', CallerOf(s', t))
    {
      assert CallerKnows(s, CallerOf(s, t));
      if ByCaller(a) {
        CallerStepFrame(s, a);
        assert CallerKnows(s, CallerOf(s, a.t));
      } else {
        WorkerStepFrame(s, a);
      }
    }
  }

  lemma StepKeepsLog(s: State, a: Action)
    requires LockInv(s) && TransitInv(s) && CallerInv(s) && LogInv(s) && Enabled(s, a)
    ensures LogInv(Apply(s, a))
  {
    if ByCaller(a) {
      CallerStepFrame(s, a);
      assert CallerKnows(s, CallerOf(s, a.t));
    } else {
      WorkerStepFrame(s, a);
    }
  }

  lemma StepKeepsPrefix(s: State, a: Action)
    requires LockInv(s) && TransitInv(s) && CallerInv(s) && PrefixInv(s) && Enabled(s, a)
    ensures PrefixInv(Apply(s, a))
  {
    if ByCaller(a) {
      CallerStepFrame(s, a);
      assert CallerKnows(s, CallerOf(s, a.t));
    } else {
      WorkerStepFrame(s, a);
      if a.Execute? && !s.closed {
        assert forall i | 0 <= i < |s.executed| :: s.executed[i].ticket < s.worker.message.ticket == |s.acquired| - 1;
        var n := |s.executed|;
        if n > 0 { assert s.executed[n - 1].ticket == n - 1; }
      }
    }
  }

  lemma StepKeepsInv(s: State, a: Action)
    requires Inv(s) && Enabled(s, a)
    ensures Inv(Apply(s, a))
  {
    hide LockInv, TransitInv, CallerInv, LogInv, PrefixInv, Enabled, Apply;
    StepKeepsLock(s, a);
    if ByCaller(a) { CallerStepKeepsTransit(s, a); } else { WorkerStepKeepsTransit(s, a); }
    StepKeepsCallers(s, a);
    StepKeepsLog(s, a);
    StepKeepsPrefix(s, a);
  }

  lemma {:induction false} ScheduleKeepsInv(schedule: seq<Action>)
    ensures After(schedule).Some? ==> Inv(After(schedule).value)
    decreases |schedule|
  {
    hide Inv, Apply, Enabled;
    if schedule == [] {
      InitInv();
    } else {
      var most := schedule[..|schedule| - 1];
      ScheduleKeepsInv(most);
      var before := After(most);
      if before.Some? && Enabled(before.value, schedule[|schedule| - 1]) {
        StepKeepsInv(before.value, schedule[|schedule| - 1]);
      }
    }
  }

  /* ---- What callers may rely on ---- */

  /** In every interleaving, a value returned to a thread is the answer of the one execution of that thread's
      own command, and no command is executed twice or out of the order in which the lock was taken. */
  lemma AnswersAreOwn(schedule: seq<Action>)
    requires After(schedule).Some?
    ensures var s := After(schedule).value;
            && (forall t, r | (t, r) in s.returned ::
                  && r.ticket < |s.acquired| && s.acquired[r.ticket] == (t, r.command)
                  && r in s.executed
                  && forall other <- s.executed | other.ticket == r.ticket :: other == r)
            && (forall i, j | 0 <= i < j < |s.executed| :: s.executed[i].ticket < s.executed[j].ticket)
            && (forall i, j | 0 <= i < j < |s.returned| :: s.returned[i].1.ticket < s.returned[j].1.ticket)
  {
    ScheduleKeepsInv(schedule);
    var s := After(schedule).value;
    forall t, r | (t, r) in s.returned
      ensures r.ticket < |s.acquired| && s.acquired[r.ticket] == (t, r.command) && r in s.executed
      ensures forall other <- s.executed | other.ticket == r.ticket :: other == r
    {
      assert (t, r).1 in s.executed;
      var i :| 0 <= i < |s.executed| && s.executed[i] == r;
      forall other <- s.executed | other.ticket == r.ticket ensures other == r {
        var j :| 0 <= j < |s.executed| && s.executed[j] == other;
        assert i == j;
      }
    }
  }

  /** At most one command is queued, running or awaiting pickup; until the queues close it is the lock holder's,
      and with no lock holder both queues are empty and every call made has been executed and returned: a stop
      issued then loses nothing. */
  lemma NothingInTransitWithoutLock(schedule: seq<Action>)
    requires After(schedule).Some?
    ensures var s := After(schedule).value;
            && InTransit(s) <= 1
            && (!s.closed && InTransit(s) == 1 ==> s.lock.Some? && CallerOf(s, s.lock.value).Waiting?)
            && (!s.closed && s.lock.None? ==>
                  && s.commands == [] && s.results == [] && !IsBusy(s.worker)
                  && |s.executed| == |s.returned| == |s.acquired|
                  && forall i | 0 <= i < |s.acquired| ::
                       s.returned[i].0 == s.acquired[i].0 && s.returned[i].1 == s.executed[i]
                           && s.executed[i].command == s.acquired[i].1)
  {
    ScheduleKeepsInv(schedule);
    var s := After(schedule).value;
    if !s.closed && s.lock.None? {
      forall i | 0 <= i < |s.acquired|
        ensures s.returned[i].0 == s.acquired[i].0 && s.returned[i].1 == s.executed[i]
            && s.executed[i].command == s.acquired[i].1
      {
        assert s.returned[i] in s.returned;
        assert s.returned[i].1 in s.executed;
        var j :| 0 <= j < |s.executed| && s.executed[j] == s.returned[i].1;
        assert s.executed[j].ticket == j && s.returned[i].1.ticket == i;
        assert s.executed[i] in s.executed;
      }
    }
  }

  /* ---- Refinement: each call is one atomic execution ---- */

  /** The atomic object: it only remembers which commands were run, in order, with which answers. */
  predicate AtomicStep(before: seq<Reply>, after: seq<Reply>, issued: seq<(Thread, Command)>) {
    || after == before
    || (|after| == |before| + 1 && after[..|before|] == before
        && var r := after[|before|];
           && (forall past <- before :: past.ticket < r.ticket)
           && r.ticket < |issued| && issued[r.ticket].1 == r.command)
  }

  /** Every step of the machine is a step of the atomic object or none at all, for a command whose caller
      holds its ticket and has not been answered yet. */
  lemma RefinesAtomicCalls(schedule: seq<Action>, a: Action)
    requires After(schedule).Some? && Enabled(After(schedule).value, a)
    ensures var s := After(schedule).value;
            var s' := Apply(s, a);
            && AtomicStep(s.executed, s'.executed, s.acquired)
            && (s'.executed != s.executed ==> forall p <- s.returned :: p.1.ticket != s'.executed[|s.executed|].ticket)
  {
    ScheduleKeepsInv(schedule);
    var s := After(schedule).value;
    if ByCaller(a) {
      CallerStepFrame(s, a);
    } else {
      WorkerStepFrame(s, a);
      if a.Execute? {
        forall p <- s.returned ensures p.1.ticket != s.worker.message.ticket { assert p.1 in s.executed; }
      }
    }
  }

  /** Real-time order: a call answered before another takes the lock was executed before it. */
  lemma {:induction false} LaterCallsRunLater(schedule: seq<Action>, n: nat)
    requires n <= |schedule| && After(schedule).Some?
    ensures After(schedule[..n]).Some?
    ensures var early, late := After(schedule[..n]).value, After(schedule).value;
            && early.acquired <= late.acquired && early.executed <= late.executed && early.returned <= late.returned
            && forall k | |early.executed| <= k < |late.executed| :: forall p <- early.returned ::
                p.1.ticket < late.executed[k].ticket
    decreases |schedule|
  {
    if n == |schedule| {
      assert schedule[..n] == schedule;
    } else {
      var most := schedule[..|schedule| - 1];
      assert most[..n] == schedule[..n];
      LaterCallsRunLater(most, n);
      ScheduleKeepsInv(schedule);
      ScheduleKeepsInv(schedule[..n]);
      LogsGrow(After(most).value, schedule[|schedule| - 1]);
      ExecutedAfter(After(schedule[..n]).value, After(schedule).value);
    }
  }

  lemma LogsGrow(s: State, a: Action)
    requires Enabled(s, a)
    ensures var s' := Apply(s, a); s.acquired <= s'.acquired && s.executed <= s'.executed && s.returned <= s'.returned
  {
  }

  lemma ExecutedAfter(early: State, late: State)
    requires Inv(early) && Inv(late) && early.executed <= late.executed && early.returned <= late.returned
    ensures forall k | |early.executed| <= k < |late.executed| :: forall p <- early.returned ::
        p.1.ticket < late.executed[k].ticket
  {
    forall k, p | |early.executed| <= k < |late.executed| && p in early.returned
        ensures p.1.ticket < late.executed[k].ticket {
      assert p.1 in early.executed;
      var j :| 0 <= j < |early.executed| && early.executed[j] == p.1;
      assert late.executed[j] == p.1;
    }
  }

  /* ---- Progress ---- */

  /** How far the lock holder is from leaving, while the worker runs. */
  function Distance(s: State): nat {
    if s.lock.None? then 0
    else
      match CallerOf(s, s.lock.value)
      case Holding(_, _) => 7
      case Waiting(_, _) =>
        if s.commands != [] then (if s.worker.Looping? then 6 else 5)
        else if s.worker.Executing? then 4
        else if s.worker.Putting? then 3
        else 2
      case Fetched(_, _, _) => 1
      case _ => 0
  }

  /** The next step towards the holder's release: its own, or the worker's. */
  function Towards(s: State, answer: Answer): Action
    requires s.lock.Some?
  {
    match CallerOf(s, s.lock.value)
    case Holding(_, _) => Put(s.lock.value)
    case Waiting(_, _) =>
      if s.commands != [] then (if s.worker.Looping? then TestStop else Take)
      else if s.worker.Executing? then Execute(answer)
      else if s.worker.Putting? then SendReply
      else Fetch(s.lock.value)
    case _ => Release(s.lock.value)
  }

  /** While the worker has not died and no stop was requested, the waiting holder's message is somewhere. */
  ghost predicate InHand(s: State) {
    s.lock.Some? && CallerOf(s, s.lock.value).Waiting? && IsAlive(s.worker) && !s.stopRequested ==> InFlight(s).Some?
  }

  lemma HolderCanProgress(s: State, answer: Answer)
    requires Inv(s) && InHand(s) && s.lock.Some? && IsAlive(s.worker) && !s.stopRequested && !s.closed
    ensures var a := Towards(s, answer);
            Enabled(s, a) && Distance(Apply(s, a)) < Distance(s)
  {
    var t := s.lock.value;
    assert HoldsLock(CallerOf(s, t)) <==> s.lock == Some(t);
  }

  lemma StepKeepsInHand(s: State, a: Action)
    requires Inv(s) && InHand(s) && Enabled(s, a) && (s.closed ==> s.stopRequested)
    ensures InHand(Apply(s, a))
  {
    if ByCaller(a) {
      CallerStepFrame(s, a);
    } else {
      WorkerStepFrame(s, a);
    }
  }

  lemma {:induction false} ScheduleKeepsInHand(schedule: seq<Action>)
    requires After(schedule).Some?
    ensures var s := After(schedule).value; InHand(s) && (s.closed ==> s.stopRequested)
    decreases |schedule|
  {
    hide Inv, InHand, TransitInv;
    if schedule == [] {
      InitIsInHand();
    } else {
      var most, a := schedule[..|schedule| - 1], schedule[|schedule| - 1];
      ScheduleKeepsInHand(most);
      ScheduleKeepsInv(most);
      StepKeepsInHand(After(most).value, a);
    }
  }

  lemma InitIsInHand()
    ensures InHand(Init())
  {
  }

  /** In every reachable state with a live worker and no stop request, some step brings the lock holder closer to
      its release, whatever the worker answers: no call is stuck. */
  lemma NoCallIsStuck(schedule: seq<Action>, answer: Answer)
    requires After(schedule).Some?
    ensures var s := After(schedule).value;
            s.lock.Some? && IsAlive(s.worker) && !s.stopRequested ==>
              Enabled(s, Towards(s, answer)) && Distance(Apply(s, Towards(s, answer))) < Distance(s) <= 7
  {
    ScheduleKeepsInv(schedule);
    ScheduleKeepsInHand(schedule);
    var s := After(schedule).value;
    if s.lock.Some? && IsAlive(s.worker) && !s.stopRequested { HolderCanProgress(s, answer); }
  }

  /** No step of another thread takes the holder further away; only a timed out `get` of the worker does. */
  lemma OthersDoNotHinder(s: State, a: Action)
    requires Inv(s) && Enabled(s, a) && s.lock.Some? && s.lock == Apply(s, a).lock && IsAlive(Apply(s, a).worker)
    ensures Distance(Apply(s, a)) <= Distance(s) || a.Timeout?
  {
    var t := s.lock.value;
    assert HoldsLock(CallerOf(s, t)) <==> s.lock == Some(t);
    if ByCaller(a) {
      CallerStepFrame(s, a);
    } else {
      WorkerStepFrame(s, a);
    }
  }
}
