/** `BaseWorker` as an object: its queues, lock and flags are fields, and a call runs its atomic sections
    while any number of steps of the worker and of other threads happen in between. */
module RootWorkerObject {
  import opened Wrappers
  import opened RootWorker

  datatype CallResult = ProcessDead | Blocked | Raised | Answered(answer: Answer)

  /** A step of somebody else than thread t. */
  predicate Foreign(t: Thread, a: Action) { ByCaller(a) ==> a.t != t }

  class BaseWorker {
    var callers: map<Thread, Caller>
    var lock: Option<Thread>
    var commands: seq<Message>
    var results: seq<Reply>
    var stopRequested: bool
    var closed: bool
    var worker: Worker
    var acquired: seq<(Thread, Command)>
    var executed: seq<Reply>
    var returned: seq<(Thread, Reply)>

    function Value(): State
      reads this
    {
      State(callers, lock, commands, results, stopRequested, closed, worker, acquired, executed, returned)
    }

    constructor ()
      ensures Value() == Init()
    {
      callers, lock, commands, results := map[], None, [], [];
      stopRequested, closed, worker := false, false, Looping;
      acquired, executed, returned := [], [], [];
    }

    /** One atomic section of a caller. */
    method CallerSection(a: Action)
      requires ByCaller(a) && Enabled(Value(), a)
      modifies this
      ensures Value() == Apply(old(Value()), a)
    {
      var t := a.t;
      match a
      case Invoke(_, command) =>
        callers := callers[t := if IsAlive(worker) then Wanting(command) else Quit];
      case Acquire(_) =>
        lock := Some(t);
        callers := callers[t := Holding(|acquired|, callers[t].command)];
        acquired := acquired + [(t, callers[t].command)];
      case Put(_) =>
        if closed {
          lock, callers := None, callers[t := Idle];
        } else {
          commands := commands + [Message(callers[t].ticket, callers[t].command)];
          callers := callers[t := Waiting(callers[t].ticket, callers[t].command)];
        }
      case Fetch(_) =>
        callers := callers[t := Fetched(callers[t].ticket, callers[t].command, results[0].answer)];
        results := results[1..];
      case FetchRaises(_) =>
        lock, callers := None, callers[t := Idle];
      case Release(_) =>
        returned := returned + [(t, Reply(callers[t].ticket, callers[t].command, callers[t].answer))];
        lock, callers := None, callers[t := Idle];
      case Retire(_) =>
        callers := callers[t := Idle];
    }

    /** One atomic section of the worker's loop, of `stop`, or of the operating system. */
    method WorkerSection(a: Action)
      requires !ByCaller(a) && Enabled(Value(), a)
      modifies this
      ensures Value() == Apply(old(Value()), a)
    {
      match a
      case TestStop => worker := if stopRequested then Exited else Getting;
      case Timeout => worker := Looping;
      case Take =>
        worker := Executing(commands[0]);
        commands := commands[1..];
      case Execute(answer) =>
        var reply := Reply(worker.message.ticket, worker.message.command, answer);
        executed := executed + [reply];
        worker := Putting(reply);
      case SendReply =>
        results := results + [worker.reply];
        worker := Looping;
      case LoseReply => worker := Looping;
      case Die => worker := Dead;
      case RequestStop => stopRequested := true;
      case CloseQueues => closed := true;
    }

    /** What the others may do to thread t: extend the logs, never touch its place or its lock. */
    ghost predicate Undisturbed(t: Thread, before: State)
      reads this
    {
      && Inv(Value()) && CallerOf(Value(), t) == CallerOf(before, t)
      && (before.lock == Some(t) <==> lock == Some(t))
      && before.acquired <= acquired && before.executed <= executed && before.returned <= returned
      && (before.lock == Some(t) ==> acquired == before.acquired)
    }

    /** Other threads and the worker run: whatever is enabled of a schedule. */
    method RunOthers(t: Thread, schedule: seq<Action>)
      requires Inv(Value())
      modifies this
      ensures Undisturbed(t, old(Value()))
    {
      var i := 0;
      while i < |schedule|
        invariant 0 <= i <= |schedule|
        invariant Undisturbed(t, old(Value()))
      {
        var a := schedule[i];
        if Foreign(t, a) && Enabled(Value(), a) {
          ghost var s := Value();
          StepKeepsInv(s, a);
          LogsGrow(s, a);
          ForeignStep(t, s, a);
          if ByCaller(a) { CallerSection(a); } else { WorkerSection(a); }
        }
        i := i + 1;
      }
    }

    /** `send_cmd_and_wait`. Whatever the others do before each of its sections, an answer is that of an execution of
        this very command, made during this call, with a ticket of its own. */
    method SendCmdAndWait(t: Thread, command: Command, beforeLock: seq<Action>, beforePut: seq<Action>,
                          beforeGet: seq<Action>, beforeRelease: seq<Action>) returns (r: CallResult)
      requires Inv(Value()) && CallerOf(Value(), t).Idle?
      modifies this
      ensures Inv(Value())
      ensures old(acquired) <= acquired && old(executed) <= executed && old(returned) <= returned
      ensures r.Answered? ==>
                && |returned| > 0 && returned[|returned| - 1].0 == t
                && var reply := returned[|returned| - 1].1;
                && reply.command == command && reply.answer == r.answer && reply.ticket >= |old(acquired)|
                && reply in executed && reply !in old(executed)
      ensures r.ProcessDead? <==> !IsAlive(old(worker))
      ensures r.ProcessDead? ==> acquired == old(acquired)
    {
      hide Inv;
      Section(t, Invoke(t, command));
      if CallerOf(Value(), t).Quit? { return ProcessDead; }
      RunOthers(t, beforeLock);
      if lock.Some? { return Blocked; }
      r := PutAndGet(t, command, beforePut, beforeGet, beforeRelease);
    }

    /** The `with` block: the lock is free, t takes it, and leaves with an answer or an exception. */
    method PutAndGet(t: Thread, command: Command, beforePut: seq<Action>, beforeGet: seq<Action>,
                     beforeRelease: seq<Action>)
      returns (r: CallResult)
      requires Inv(Value()) && CallerOf(Value(), t) == Wanting(command) && lock.None?
      modifies this
      ensures Inv(Value()) && !r.ProcessDead?
      ensures old(acquired) <= acquired && old(executed) <= executed && old(returned) <= returned
      ensures r.Answered? ==>
                && |returned| > 0 && returned[|returned| - 1].0 == t
                && var reply := returned[|returned| - 1].1;
                && reply.command == command && reply.answer == r.answer && reply.ticket >= |old(acquired)|
                && reply in executed && reply !in old(executed)
    {
      hide Inv, Apply;
      ghost var start := Value();
      Section(t, Acquire(t));
      RunOthers(t, beforePut);
      Section(t, Put(t));
      if CallerOf(Value(), t).Idle? { return Raised; }
      r := Get(t, beforeGet, beforeRelease);
      if r.Answered? { NewTicketIsNew(start, returned[|returned| - 1].1); }
    }

    /** The second half of the `with` block: the command is sent, t waits for what comes back. */
    method Get(t: Thread, beforeGet: seq<Action>, beforeRelease: seq<Action>) returns (r: CallResult)
      requires Inv(Value()) && CallerOf(Value(), t).Waiting?
      modifies this
      ensures Inv(Value()) && !r.ProcessDead?
      ensures old(acquired) <= acquired && old(executed) <= executed && old(returned) <= returned
      ensures r.Answered? ==>
                && var c := CallerOf(old(Value()), t);
                && var reply := Reply(c.ticket, c.command, r.answer);
                && |returned| > 0 && returned[|returned| - 1] == (t, reply) && reply in executed
    {
      hide Inv, Apply;
      RunOthers(t, beforeGet);
      if results == [] {
        if !closed { return Blocked; }
        Section(t, FetchRaises(t));
        return Raised;
      }
      Section(t, Fetch(t));
      RunOthers(t, beforeRelease);
      var answer := CallerOf(Value(), t).answer;
      FetchedIsExecuted(Value(), t);
      Section(t, Release(t));
      return Answered(answer);
    }

    method Section(t: Thread, a: Action)
      requires Inv(Value()) && ByCaller(a) && a.t == t && Enabled(Value(), a)
      modifies this
      ensures Value() == Apply(old(Value()), a) && Inv(Value()) && Moves(old(Value()), a, Value())
      ensures old(acquired) <= acquired && old(executed) <= executed && old(returned) <= returned
    {
      hide Inv;
      StepKeepsInv(Value(), a);
      LogsGrow(Value(), a);
      CallerSection(a);
    }
  }

  /** Where a section of a call takes its thread. */
  predicate Moves(s: State, a: Action, s': State)
    requires ByCaller(a)
  {
    var c, c' := CallerOf(s, a.t), CallerOf(s', a.t);
    match a
    case Invoke(_, command) => c' == if IsAlive(s.worker) then Wanting(command) else Caller.Quit
    case Acquire(_) => c.Wanting? && c' == Holding(|s.acquired|, c.command)
    case Put(_) => c'.Idle? || (c.Holding? && c' == Waiting(c.ticket, c.command))
    case Fetch(_) => c.Waiting? && c'.Fetched? && c'.ticket == c.ticket && c'.command == c.command
    case FetchRaises(_) => c'.Idle?
    case Retire(_) => c'.Idle?
    case Release(_) =>
      && c.Fetched? && s'.executed == s.executed
      && s'.returned == s.returned + [(a.t, Reply(c.ticket, c.command, c.answer))]
  }

  lemma ForeignStep(t: Thread, s: State, a: Action)
    requires Inv(s) && Enabled(s, a) && Foreign(t, a)
    ensures var s' := Apply(s, a);
            && CallerOf(s', t) == CallerOf(s, t)
            && (s.lock == Some(t) <==> s'.lock == Some(t))
            && (s.lock == Some(t) ==> s'.acquired == s.acquired)
  {
    if ByCaller(a) { CallerStepFrame(s, a); } else { WorkerStepFrame(s, a); }
    assert HoldsLock(CallerOf(s, t)) <==> s.lock == Some(t);
  }

  lemma FetchedIsExecuted(s: State, t: Thread)
    requires Inv(s) && CallerOf(s, t).Fetched?
    ensures var c := CallerOf(s, t); Reply(c.ticket, c.command, c.answer) in s.executed
  {
    assert CallerKnows(s, CallerOf(s, t));
  }

  /** A ticket that did not exist when the call began names no earlier execution. */
  lemma NewTicketIsNew(start: State, reply: Reply)
    requires Inv(start) && reply.ticket >= |start.acquired|
    ensures reply !in start.executed
  {
  }
}
