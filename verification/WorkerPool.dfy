/**
 The half-sync/half-async pool: a producer pushes tasks onto a shared stack without taking any lock,
 and workers test and pop it inside one monitor and execute tasks that write to their channel inside
 that channel's lock.  A run is any interleaving of the producer, of a stop request and of the
 workers; a write goes to its channel character by character.
 */
module WorkerPool {
  import opened Common
  import opened Flattening

  datatype Task = Task(channel: nat, message: string)

  // Where a worker thread stands in its loop.
  datatype Pc =
    | Check                          // about to test _shouldRun
    | Enter                          // about to enter the monitor
    | Look                           // in the monitor, about to test isEmpty
    | Popping                        // in the monitor, saw a task, about to pop
    | Leave(found: Option<Task>)     // about to leave the monitor
    | Hand(task: Task)               // about to test isConnected
    | Lock(task: Task)               // about to lock the channel
    | Writing(task: Task, done: nat) // in the channel's lock, `done` characters written
    | Unlock(channel: nat)           // about to unlock the channel
    | Stopped
    | Crashed                        // pop met an empty stack

  // A finished task and whether its channel was still connected.
  datatype Outcome = Outcome(task: Task, delivered: bool)

  datatype State = State(
    shouldRun: bool,
    stack: seq<Task>,            // top last
    monitor: Option<nat>,        // worker inside the monitor
    locks: map<nat, nat>,        // locked channels and the workers that hold them
    output: map<nat, string>,    // what was written to each channel
    workers: seq<Pc>,
    added: multiset<Task>,       // history: tasks pushed
    executed: seq<Outcome>,      // history: tasks finished, in order
    afterStop: seq<nat>)         // history: tasks each worker finished after the stop

  datatype Act =
    | Add(task: Task)            // the producer
    | Stop
    | Work(i: nat)               // one step of a worker
    | FindClosed(i: nat)         // the worker's step when isConnected is false

  function Init(n: nat): State {
    State(true, [], None, map[], map[], seq(n, _ => Check), multiset{}, [], seq(n, _ => 0))
  }

  function Written(output: map<nat, string>, c: nat): string {
    if c in output then output[c] else ""
  }

  ghost predicate Shape(n: nat, s: State) {
    |s.workers| == |s.afterStop| == n
  }

  function Goto(s: State, i: nat, pc: Pc): State
    requires i < |s.workers|
  {
    s.(workers := s.workers[i := pc])
  }

  function Finish(s: State, i: nat, o: Outcome): State
    requires i < |s.afterStop|
  {
    s.(executed := s.executed + [o],
       afterStop := if s.shouldRun then s.afterStop else s.afterStop[i := s.afterStop[i] + 1])
  }

  predicate CanWork(s: State, i: nat) {
    && i < |s.workers|
    && match s.workers[i] {
         case Enter => s.monitor.None?
         case Lock(t) => t.channel !in s.locks
         case Stopped => false
         case Crashed => false
         case _ => true
       }
  }

  function WorkStep(n: nat, s: State, i: nat): (s': State)
    requires Shape(n, s) && CanWork(s, i)
    ensures Shape(n, s')
  {
    match s.workers[i]
    case Check => Goto(s, i, if s.shouldRun then Enter else Stopped)
    case Enter => Goto(s, i, Look).(monitor := Some(i))
    case Look => Goto(s, i, if s.stack == [] then Leave(None) else Popping)
    case Popping =>
      if s.stack == [] then Goto(s, i, Crashed)
      else Goto(s, i, Leave(Some(s.stack[|s.stack| - 1]))).(stack := s.stack[..|s.stack| - 1])
    case Leave(None) => Goto(s, i, Check).(monitor := None)
    case Leave(Some(t)) => Goto(s, i, Hand(t)).(monitor := None)
    case Hand(t) => Goto(s, i, Lock(t))
    case Lock(t) => Goto(s, i, Writing(t, 0)).(locks := s.locks[t.channel := i])
    case Writing(t, k) =>
      if k < |t.message|
      then Goto(s, i, Writing(t, k + 1)).(
             output := s.output[t.channel := Written(s.output, t.channel) + [t.message[k]]])
      else Finish(Goto(s, i, Unlock(t.channel)), i, Outcome(t, true))
    case Unlock(c) => Goto(s, i, Check).(locks := s.locks - {c})
  }

  predicate CanAct(s: State, a: Act) {
    match a
    case Add(_) => true
    case Stop => true
    case Work(i) => CanWork(s, i)
    case FindClosed(i) => i < |s.workers| && s.workers[i].Hand?
  }

  function DoAct(n: nat, s: State, a: Act): (s': State)
    requires Shape(n, s) && CanAct(s, a)
    ensures Shape(n, s')
  {
    match a
    case Add(t) => s.(stack := s.stack + [t], added := s.added + multiset{t})
    case Stop => s.(shouldRun := false)
    case Work(i) => WorkStep(n, s, i)
    case FindClosed(i) => Finish(Goto(s, i, Check), i, Outcome(s.workers[i].task, false))
  }

  ghost function Exec(n: nat, acts: seq<Act>): (r: Option<State>)
    ensures r.Some? ==> Shape(n, r.value)
  {
    if acts == [] then Some(Init(n))
    else
      match Exec(n, acts[..|acts| - 1])
      case None => None
      case Some(s) =>
        if CanAct(s, acts[|acts| - 1]) then Some(DoAct(n, s, acts[|acts| - 1])) else None
  }

  // ---------- the monitor and the stack ----------

  predicate InMonitor(pc: Pc) { pc.Look? || pc.Popping? || pc.Leave? }

  // Only one worker is in the monitor, and a worker that saw a task still finds one to pop.
  ghost predicate WorkerMonitorInv(s: State, k: nat)
    requires k < |s.workers|
  {
    && (InMonitor(s.workers[k]) <==> s.monitor == Some(k))
    && (s.workers[k].Popping? ==> s.stack != [])
    && !s.workers[k].Crashed?
  }

  ghost predicate MonitorInv(s: State) {
    && (s.monitor.Some? ==> s.monitor.value < |s.workers|)
    && forall k | 0 <= k < |s.workers| :: WorkerMonitorInv(s, k)
  }

  // What a worker's step does to the monitor and the stack.
  ghost predicate MonitorMoves(s: State, s': State, i: nat)
    requires i < |s.workers|
  {
    && |s'.workers| == |s.workers| && s'.workers == s.workers[i := s'.workers[i]]
    && (InMonitor(s'.workers[i]) ==>
          (s.workers[i].Enter? && s.monitor.None? && s'.monitor == Some(i)) ||
          (InMonitor(s.workers[i]) && s'.monitor == s.monitor))
    && (!InMonitor(s'.workers[i]) && !s'.workers[i].Crashed? ==>
          s'.monitor == if InMonitor(s.workers[i]) then None else s.monitor)
    && (s'.stack != s.stack ==> s.workers[i].Popping?)
    && (s'.workers[i].Popping? ==> s.stack != [] && s'.stack == s.stack)
    && (s'.workers[i].Crashed? ==> s.workers[i].Popping? && s.stack == [])
  }

  lemma WorkMovesMonitor(n: nat, s: State, i: nat)
    requires Shape(n, s) && CanWork(s, i)
    ensures MonitorMoves(s, WorkStep(n, s, i), i)
  {
  }

  lemma MonitorKept(s: State, s': State, i: nat)
    requires i < |s.workers| && MonitorInv(s) && MonitorMoves(s, s', i)
    ensures MonitorInv(s')
  {
    assert WorkerMonitorInv(s, i);
    forall k | 0 <= k < |s'.workers|
      ensures WorkerMonitorInv(s', k)
    {
      assert WorkerMonitorInv(s, k);
    }
  }

  lemma MonitorStep(n: nat, s: State, a: Act)
    requires Shape(n, s) && MonitorInv(s) && CanAct(s, a)
    ensures MonitorInv(DoAct(n, s, a))
  {
    var s' := DoAct(n, s, a);
    if a.Work? {
      WorkMovesMonitor(n, s, a.i);
      MonitorKept(s, s', a.i);
    } else {
      forall k | 0 <= k < |s'.workers|
        ensures WorkerMonitorInv(s', k)
      {
        assert WorkerMonitorInv(s, k);
      }
    }
  }

  // ---------- every task is somewhere ----------

  function InHand(pc: Pc): seq<Task> {
    match pc
    case Leave(Some(t)) => [t]
    case Hand(t) => [t]
    case Lock(t) => [t]
    case Writing(t, _) => [t]
    case _ => []
  }

  function Tasks(): Outcome -> seq<Task> { (o: Outcome) => [o.task] }

  // How many copies of a task are on the stack, in a worker's hand, or executed.
  function Copies(s: State, t: Task): nat {
    multiset(s.stack)[t] + multiset(Flat(s.workers, InHand))[t] + multiset(Flat(s.executed, Tasks()))[t]
  }

  // What one step of a worker does with the tasks: pop one, finish one, or keep them.
  ghost predicate TasksChange(s: State, s': State, i: nat)
    requires i < |s.workers| && i < |s'.workers|
  {
    match s.workers[i]
    case Popping =>
      && s.stack != [] && s'.executed == s.executed
      && s.stack == s'.stack + InHand(s'.workers[i]) && |InHand(s'.workers[i])| == 1
    case Writing(t, d) =>
      && s'.stack == s.stack
      && if d < |t.message| then InHand(s'.workers[i]) == [t] && s'.executed == s.executed
         else InHand(s'.workers[i]) == [] && s'.executed == s.executed + [Outcome(t, true)]
    case _ => s'.stack == s.stack && s'.executed == s.executed && InHand(s'.workers[i]) == InHand(s.workers[i])
  }

  ghost predicate TasksMove(s: State, s': State, i: nat)
    requires i < |s.workers|
  {
    && |s'.workers| == |s.workers| && s'.workers == s.workers[i := s'.workers[i]] && s'.added == s.added
    && TasksChange(s, s', i)
  }

  lemma WorkChangesTasks(n: nat, s: State, i: nat)
    requires Shape(n, s) && CanWork(s, i) && (s.workers[i].Popping? ==> s.stack != [])
    ensures TasksChange(s, WorkStep(n, s, i), i) && WorkStep(n, s, i).added == s.added
  {
  }

  lemma WorkMovesTasks(n: nat, s: State, i: nat)
    requires Shape(n, s) && CanWork(s, i) && (s.workers[i].Popping? ==> s.stack != [])
    ensures TasksMove(s, WorkStep(n, s, i), i)
  {
    hide WorkStep, TasksChange;
    WorkMovesMonitor(n, s, i);
    WorkChangesTasks(n, s, i);
  }

  lemma CopiesKept(s: State, s': State, i: nat, t: Task)
    requires i < |s.workers| && TasksMove(s, s', i)
    ensures Copies(s', t) == Copies(s, t)
  {
    hide Flat;
    FlatUpdateCount(s.workers, i, s'.workers[i], InHand, t);
    if s.workers[i].Writing? {
      FlatSnocCount(s.executed, Outcome(s.workers[i].task, true), Tasks(), t);
    }
  }

  // A task that is added stays accounted for.
  lemma AccountStep(n: nat, s: State, a: Act, t: Task)
    requires Shape(n, s) && MonitorInv(s) && CanAct(s, a)
    ensures DoAct(n, s, a).added[t] - Copies(DoAct(n, s, a), t) == s.added[t] - Copies(s, t)
  {
    hide Flat, WorkStep;
    match a {
      case Add(_) =>
      case Stop =>
      case FindClosed(i) =>
        FlatUpdateCount(s.workers, i, Check, InHand, t);
        FlatSnocCount(s.executed, Outcome(s.workers[i].task, false), Tasks(), t);
      case Work(i) =>
        assert WorkerMonitorInv(s, i);
        WorkMovesTasks(n, s, i);
        CopiesKept(s, WorkStep(n, s, i), i, t);
    }
  }

  // ---------- the channels ----------

  // The characters of the task that is being written to a channel.
  function Partial(s: State, c: nat): string {
    if c in s.locks && s.locks[c] < |s.workers| && s.workers[s.locks[c]].Writing? &&
       s.workers[s.locks[c]].done <= |s.workers[s.locks[c]].task.message|
    then s.workers[s.locks[c]].task.message[..s.workers[s.locks[c]].done]
    else ""
  }

  function DeliveredTo(c: nat): Outcome -> string {
    (o: Outcome) => if o.delivered && o.task.channel == c then o.task.message else ""
  }

  predicate HoldsChannel(pc: Pc, c: nat) {
    (pc.Writing? && pc.task.channel == c && pc.done <= |pc.task.message|) || pc == Unlock(c)
  }

  // A channel is locked by exactly the worker that is writing to it or is about to unlock it.
  ghost predicate WorkerLockInv(s: State, k: nat)
    requires k < |s.workers|
  {
    forall c | HoldsChannel(s.workers[k], c) || c in s.locks ::
      HoldsChannel(s.workers[k], c) <==> c in s.locks && s.locks[c] == k
  }

  ghost predicate LockInv(s: State) {
    && (forall c | c in s.locks :: s.locks[c] < |s.workers|)
    && (forall k | 0 <= k < |s.workers| :: WorkerLockInv(s, k) && Sane(s.workers[k]))
  }

  predicate Sane(pc: Pc) { pc.Writing? ==> pc.done <= |pc.task.message| }

  // What a worker's step does to the locks.
  ghost predicate LocksMove(s: State, s': State, i: nat)
    requires i < |s.workers|
  {
    && |s'.workers| == |s.workers| && s'.workers == s.workers[i := s'.workers[i]]
    && match s.workers[i]
       case Lock(t) => t.channel !in s.locks && s'.workers[i] == Writing(t, 0) && s'.locks == s.locks[t.channel := i]
       case Unlock(c) => s'.workers[i] == Check && s'.locks == s.locks - {c}
       case Writing(t, d) =>
         && s'.locks == s.locks
         && s'.workers[i] == if d < |t.message| then Writing(t, d + 1) else Unlock(t.channel)
       case _ => s'.locks == s.locks && !s'.workers[i].Writing? && !s'.workers[i].Unlock?
  }

  lemma WorkMovesLocks(n: nat, s: State, i: nat)
    requires Shape(n, s) && CanWork(s, i)
    ensures LocksMove(s, WorkStep(n, s, i), i)
  {
  }

  lemma LocksKept(s: State, s': State, i: nat)
    requires i < |s.workers| && LockInv(s) && LocksMove(s, s', i)
    ensures LockInv(s')
  {
    assert WorkerLockInv(s, i) && Sane(s.workers[i]);
    forall k | 0 <= k < |s'.workers|
      ensures WorkerLockInv(s', k) && Sane(s'.workers[k])
    {
      assert WorkerLockInv(s, k) && Sane(s.workers[k]);
    }
  }

  lemma LockStep(n: nat, s: State, a: Act)
    requires Shape(n, s) && LockInv(s) && CanAct(s, a)
    ensures LockInv(DoAct(n, s, a))
  {
    var s' := DoAct(n, s, a);
    if a.Work? {
      WorkMovesLocks(n, s, a.i);
      LocksKept(s, s', a.i);
    } else {
      forall k | 0 <= k < |s'.workers|
        ensures WorkerLockInv(s', k) && Sane(s'.workers[k])
      {
        assert WorkerLockInv(s, k) && Sane(s.workers[k]);
      }
    }
  }

  ghost predicate OutputInv(s: State, c: nat) {
    Written(s.output, c) == Flat(s.executed, DeliveredTo(c)) + Partial(s, c)
  }

  // What a worker's step does to what was written and executed.
  ghost predicate OutputMoves(s: State, s': State, i: nat)
    requires i < |s.workers|
  {
    match s.workers[i]
    case Writing(t, d) =>
      if d < |t.message|
      then s'.output == s.output[t.channel := Written(s.output, t.channel) + [t.message[d]]] && s'.executed == s.executed
      else s'.output == s.output && s'.executed == s.executed + [Outcome(t, true)]
    case _ => s'.output == s.output && s'.executed == s.executed
  }

  lemma WorkMovesOutput(n: nat, s: State, i: nat)
    requires Shape(n, s) && CanWork(s, i)
    ensures OutputMoves(s, WorkStep(n, s, i), i)
  {
  }

  // The text of channel c that is not yet a whole message belongs to the worker that has locked c.
  lemma PartialIs(s: State, c: nat, i: nat)
    requires LockInv(s) && i < |s.workers|
    ensures HoldsChannel(s.workers[i], c) ==>
              Partial(s, c) == if s.workers[i].Writing? then s.workers[i].task.message[..s.workers[i].done] else ""
    ensures c !in s.locks ==> Partial(s, c) == ""
  {
    assert WorkerLockInv(s, i) && Sane(s.workers[i]);
  }

  lemma PartialElsewhere(s: State, s': State, i: nat, c: nat)
    requires LockInv(s) && LockInv(s') && i < |s.workers| && LocksMove(s, s', i)
    requires !HoldsChannel(s.workers[i], c) && !HoldsChannel(s'.workers[i], c)
    ensures Partial(s', c) == Partial(s, c)
  {
    assert WorkerLockInv(s, i) && WorkerLockInv(s', i);
  }

  lemma OutputKept(s: State, s': State, i: nat, c: nat)
    requires LockInv(s) && LockInv(s') && OutputInv(s, c) && i < |s.workers|
    requires LocksMove(s, s', i) && OutputMoves(s, s', i)
    ensures OutputInv(s', c)
  {
    hide Flat, LockInv, Partial;
    var pc := s.workers[i];
    PartialIs(s, c, i);
    PartialIs(s', c, i);
    WriterIsSane(s, i);
    if pc.Writing? {
      FlatSnoc(s.executed, Outcome(pc.task, true), DeliveredTo(c));
      if pc.done < |pc.task.message| {
        assert pc.task.message[..pc.done + 1] == pc.task.message[..pc.done] + [pc.task.message[pc.done]];
      }
    }
    if !HoldsChannel(pc, c) && !HoldsChannel(s'.workers[i], c) {
      PartialElsewhere(s, s', i, c);
    }
  }

  lemma WriterIsSane(s: State, i: nat)
    requires LockInv(s) && i < |s.workers|
    ensures Sane(s.workers[i])
    ensures s.workers[i].Lock? && s.workers[i].task.channel !in s.locks ==> Partial(s, s.workers[i].task.channel) == ""
  {
  }

  lemma OutputStep(n: nat, s: State, a: Act, c: nat)
    requires Shape(n, s) && LockInv(s) && OutputInv(s, c) && CanAct(s, a)
    ensures OutputInv(DoAct(n, s, a), c)
  {
    hide Flat, WorkStep;
    match a {
      case Add(_) =>
      case Stop =>
      case FindClosed(i) =>
        FlatSnoc(s.executed, Outcome(s.workers[i].task, false), DeliveredTo(c));
        ClosedWritesNothing(n, s, i, c);
      case Work(i) =>
        WorkMovesLocks(n, s, i);
        LocksKept(s, WorkStep(n, s, i), i);
        WorkMovesOutput(n, s, i);
        OutputKept(s, WorkStep(n, s, i), i, c);
    }
  }

  lemma ClosedWritesNothing(n: nat, s: State, i: nat, c: nat)
    requires Shape(n, s) && LockInv(s) && CanAct(s, FindClosed(i))
    ensures Partial(DoAct(n, s, FindClosed(i)), c) == Partial(s, c)
  {
    if c in s.locks {
      assert WorkerLockInv(s, s.locks[c]);
    }
  }

  // ---------- stopping ----------

  // No worker stops before the stop, and after it one that has finished a task is on its way out.
  ghost predicate WorkerStopInv(s: State, k: nat)
    requires k < |s.workers| == |s.afterStop|
  {
    && (s.shouldRun ==> !s.workers[k].Stopped?) && s.afterStop[k] <= 1
    && (s.afterStop[k] == 1 ==>
          !s.shouldRun && (s.workers[k].Unlock? || s.workers[k].Check? || s.workers[k].Stopped?))
  }

  lemma OwnStopStep(n: nat, s: State, i: nat)
    requires Shape(n, s) && CanWork(s, i) && WorkerStopInv(s, i)
    ensures WorkerStopInv(WorkStep(n, s, i), i)
  {
  }

  // A step of a worker changes no other worker's count.
  lemma WorkMovesStop(n: nat, s: State, i: nat)
    requires Shape(n, s) && CanWork(s, i)
    ensures var s' := WorkStep(n, s, i);
            && s'.shouldRun == s.shouldRun
            && s'.afterStop == s.afterStop[i := s'.afterStop[i]]
  {
  }

  lemma StopStep(n: nat, s: State, a: Act, k: nat)
    requires Shape(n, s) && k < n && WorkerStopInv(s, k) && CanAct(s, a)
    ensures WorkerStopInv(DoAct(n, s, a), k)
  {
    hide WorkStep, CanWork;
    if a.Work? {
      IsWorker(s, a.i);
      if a.i == k {
        OwnStopStep(n, s, k);
      } else {
        WorkMovesMonitor(n, s, a.i);
        WorkMovesStop(n, s, a.i);
      }
    }
  }

  lemma IsWorker(s: State, i: nat)
    requires CanWork(s, i)
    ensures i < |s.workers|
  {
  }

  // ---------- over every run ----------

  ghost predicate Inv(n: nat, s: State)
    requires Shape(n, s)
  {
    && MonitorInv(s) && LockInv(s)
    && (forall t :: s.added[t] == Copies(s, t))
    && (forall c :: OutputInv(s, c))
    && (forall k | 0 <= k < n :: WorkerStopInv(s, k))
  }

  lemma InitInv(n: nat)
    ensures Inv(n, Init(n))
  {
    FlatNothing(Init(n).workers, InHand);
  }

  lemma StepInv(n: nat, s: State, a: Act)
    requires Shape(n, s) && Inv(n, s) && CanAct(s, a)
    ensures Inv(n, DoAct(n, s, a))
  {
    hide DoAct, MonitorInv, LockInv, OutputInv, Copies, WorkerStopInv;
    MonitorStep(n, s, a);
    LockStep(n, s, a);
    forall t
      ensures DoAct(n, s, a).added[t] == Copies(DoAct(n, s, a), t)
    {
      AccountStep(n, s, a, t);
    }
    forall c
      ensures OutputInv(DoAct(n, s, a), c)
    {
      OutputStep(n, s, a, c);
    }
    forall k | 0 <= k < n
      ensures WorkerStopInv(DoAct(n, s, a), k)
    {
      StopStep(n, s, a, k);
    }
  }

  lemma {:induction false} ExecInv(n: nat, acts: seq<Act>)
    ensures Exec(n, acts).Some? ==> Inv(n, Exec(n, acts).value)
  {
    hide Inv, Init, CanAct, DoAct;
    if acts == [] {
      InitInv(n);
    } else if Exec(n, acts).Some? {
      ExecInv(n, acts[..|acts| - 1]);
      StepInv(n, Exec(n, acts[..|acts| - 1]).value, acts[|acts| - 1]);
    }
  }

  ghost predicate Reachable(n: nat, s: State) {
    exists acts :: Exec(n, acts) == Some(s)
  }

  lemma ReachableInv(n: nat, s: State)
    requires Reachable(n, s)
    ensures Shape(n, s) && Inv(n, s)
  {
    hide Inv;
    var acts :| Exec(n, acts) == Some(s);
    ExecInv(n, acts);
  }

  // Every task that was added is on the stack, in the hand of one worker, or executed, and it is
  // there as often as it was added: none is lost and none runs twice.
  lemma TasksAreConserved(n: nat, s: State)
    requires Reachable(n, s)
    ensures s.added == multiset(s.stack) + multiset(Flat(s.workers, InHand)) + multiset(Flat(s.executed, Tasks()))
  {
    hide Flat, MonitorInv, LockInv, OutputInv, WorkerStopInv;
    ReachableInv(n, s);
    forall t: Task
      ensures s.added[t] ==
                (multiset(s.stack) + multiset(Flat(s.workers, InHand)) + multiset(Flat(s.executed, Tasks())))[t]
    {
      assert s.added[t] == Copies(s, t);
    }
  }

  // Testing before popping is enough although the producer does not take the monitor: no worker
  // ever pops an empty stack, and at most one worker is in the monitor.
  lemma NeverPopsEmpty(n: nat, s: State, i: nat, j: nat)
    requires Reachable(n, s) && i < |s.workers| && j < |s.workers|
    ensures !s.workers[i].Crashed?
    ensures s.workers[i].Popping? ==> s.stack != []
    ensures InMonitor(s.workers[i]) && InMonitor(s.workers[j]) ==> i == j
  {
    ReachableInv(n, s);
    assert WorkerMonitorInv(s, i) && WorkerMonitorInv(s, j);
  }

  // A channel is written by one worker at a time, and at every moment its text is a row of whole
  // messages, those of the executed tasks in order, followed by the part of one message that the
  // worker holding the channel has written.
  lemma WritesDoNotMix(n: nat, s: State, c: nat)
    requires Reachable(n, s)
    ensures Written(s.output, c) == Flat(s.executed, DeliveredTo(c)) + Partial(s, c)
    ensures forall i, j | 0 <= i < |s.workers| && 0 <= j < |s.workers| &&
              s.workers[i].Writing? && s.workers[j].Writing? &&
              s.workers[i].task.channel == s.workers[j].task.channel :: i == j
    ensures (forall i | 0 <= i < |s.workers| && s.workers[i].Writing? :: s.workers[i].task.channel != c) ==>
              Written(s.output, c) == Flat(s.executed, DeliveredTo(c))
  {
    hide Flat;
    ReachableInv(n, s);
    assert OutputInv(s, c);
    forall i | 0 <= i < |s.workers| && s.workers[i].Writing?
      ensures s.workers[i].task.channel in s.locks && s.locks[s.workers[i].task.channel] == i
    {
      assert WorkerLockInv(s, i) && HoldsChannel(s.workers[i], s.workers[i].task.channel);
    }
    if c in s.locks {
      assert WorkerLockInv(s, s.locks[c]);
    }
  }

  // After the stop request every worker finishes at most one more task, and one that has finished
  // it takes no other.
  lemma OneMoreAfterStop(n: nat, s: State, i: nat)
    requires Reachable(n, s) && i < n
    ensures Shape(n, s) && s.afterStop[i] <= 1
    ensures s.afterStop[i] == 1 ==> InHand(s.workers[i]) == [] && !InMonitor(s.workers[i]) && !s.workers[i].Enter?
  {
    ReachableInv(n, s);
    assert WorkerStopInv(s, i);
  }

  // A worker that waits in the middle of its round waits for one that can go on with its own.
  lemma BusyWorkerCanStep(n: nat, s: State, i: nat) returns (j: nat)
    requires Reachable(n, s) && i < |s.workers| && !s.workers[i].Stopped? && !s.workers[i].Check?
    ensures j < |s.workers| && CanWork(s, j) && !s.workers[j].Check?
  {
    ReachableInv(n, s);
    assert WorkerMonitorInv(s, i);
    j := i;
    if !CanWork(s, i) {
      j := if s.workers[i].Enter? then s.monitor.value else s.locks[s.workers[i].task.channel];
      if s.workers[i].Enter? {
        assert WorkerMonitorInv(s, j);
      } else {
        assert WorkerLockInv(s, j);
      }
    }
  }

  // No deadlock: while some worker has not stopped, some worker can take a step.
  lemma SomeWorkerCanStep(n: nat, s: State, i: nat)
    requires Reachable(n, s) && i < |s.workers| && !s.workers[i].Stopped?
    ensures exists j: nat :: j < |s.workers| && CanWork(s, j)
  {
    if s.workers[i].Check? {
      assert CanWork(s, i);
    } else {
      var j := BusyWorkerCanStep(n, s, i);
    }
  }

  // With no write in progress a channel has, one after the other, the messages of the tasks that
  // were executed for it while it was connected.
  lemma ChannelText(n: nat, s: State, c: nat)
    requires Reachable(n, s)
    requires forall i | 0 <= i < |s.workers| && s.workers[i].Writing? :: s.workers[i].task.channel != c
    ensures (if c in s.output then s.output[c] else "") ==
              Flat(s.executed, (o: Outcome) => if o.delivered && o.task.channel == c then o.task.message else "")
  {
    hide Flat, Partial;
    WritesDoNotMix(n, s, c);
    FlatEqual(s.executed, DeliveredTo(c), (o: Outcome) => if o.delivered && o.task.channel == c then o.task.message else "");
  }
}
