/** After the stop request the workers of the pool come to an end within a bounded number of steps. */
module WorkerPoolStop {
  import opened Common
  import opened Flattening
  import opened Sums
  import opened WorkerPool

  predicate OfWorker(a: Act) { a.Work? || a.FindClosed? }

  function WorkerSteps(acts: seq<Act>): nat {
    if acts == [] then 0 else WorkerSteps(acts[..|acts| - 1]) + if OfWorker(acts[|acts| - 1]) then 1 else 0
  }

  // No message that was ever added is longer than len.
  ghost predicate MessagesWithin(s: State, len: nat) {
    forall t | t in s.added :: |t.message| <= len
  }

  // The steps a worker still has ahead of it after the stop, when messages have at most len
  // characters.
  function Ahead(pc: Pc, len: nat): int {
    match pc
    case Stopped => 0
    case Crashed => 0
    case Check => 1
    case Unlock(_) => 2
    case Leave(None) => 2
    case Writing(t, k) => |t.message| - k + 3
    case Lock(t) => |t.message| + 4
    case Hand(t) => |t.message| + 5
    case Leave(Some(t)) => |t.message| + 6
    case Popping => len + 7
    case Look => len + 8
    case Enter => len + 9
  }

  function StepsAhead(workers: seq<Pc>, len: nat): seq<int> {
    seq(|workers|, i requires 0 <= i < |workers| => Ahead(workers[i], len))
  }

  lemma PoppedWithin(n: nat, s: State, len: nat)
    requires Reachable(n, s) && MessagesWithin(s, len)
    ensures forall t | t in s.stack :: |t.message| <= len
  {
    hide Flat, Reachable;
    TasksAreConserved(n, s);
    forall t | t in s.stack
      ensures t in s.added
    {
      assert t in multiset(s.stack);
    }
  }

  lemma HeldWithin(n: nat, s: State, len: nat, i: nat, t: Task)
    requires Reachable(n, s) && MessagesWithin(s, len) && i < |s.workers| && t in InHand(s.workers[i])
    ensures |t.message| <= len
  {
    hide Reachable;
    TasksAreConserved(n, s);
    FlatMember(s.workers, InHand, t);
    assert t in multiset(Flat(s.workers, InHand));
  }

  // Where one step takes a worker that is in the middle of its round.
  function NextPc(pc: Pc, stack: seq<Task>): Pc {
    match pc
    case Enter => Look
    case Look => if stack == [] then Leave(None) else Popping
    case Popping => if stack == [] then Crashed else Leave(Some(stack[|stack| - 1]))
    case Leave(None) => Check
    case Leave(Some(t)) => Hand(t)
    case Hand(t) => Lock(t)
    case Lock(t) => Writing(t, 0)
    case Writing(t, k) => if k < |t.message| then Writing(t, k + 1) else Unlock(t.channel)
    case _ => Check
  }

  lemma WorkGoesTo(n: nat, s: State, i: nat)
    requires Shape(n, s) && CanWork(s, i) && !s.workers[i].Check?
    ensures WorkStep(n, s, i).workers[i] == NextPc(s.workers[i], s.stack)
  {
  }

  lemma NextIsCloser(pc: Pc, stack: seq<Task>, len: nat)
    requires !pc.Check? && !pc.Stopped? && !pc.Crashed? && Sane(pc)
    requires forall t | t in stack :: |t.message| <= len
    ensures Ahead(NextPc(pc, stack), len) <= Ahead(pc, len) - 1
  {
  }

  // One step of a worker brings it closer to the end of its round,
  lemma BusyDrops(n: nat, s: State, i: nat, len: nat)
    requires Shape(n, s) && CanWork(s, i) && !s.workers[i].Check? && Sane(s.workers[i])
    requires forall t | t in s.stack :: |t.message| <= len
    ensures Ahead(WorkStep(n, s, i).workers[i], len) <= Ahead(s.workers[i], len) - 1
  {
    hide WorkStep, Ahead, NextPc, Sane;
    WorkGoesTo(n, s, i);
    NextIsCloser(s.workers[i], s.stack, len);
  }

  // and after the stop there is no other round.
  lemma WorkDrops(n: nat, s: State, i: nat, len: nat)
    requires Shape(n, s) && CanWork(s, i) && !s.shouldRun && Sane(s.workers[i])
    requires forall t | t in s.stack :: |t.message| <= len
    ensures Ahead(WorkStep(n, s, i).workers[i], len) <= Ahead(s.workers[i], len) - 1
  {
    IsWorker(s, i);
    if s.workers[i].Check? {
      assert WorkStep(n, s, i).workers[i] == Stopped;
    } else {
      hide WorkStep, Ahead, CanWork;
      BusyDrops(n, s, i, len);
    }
  }

  lemma SumDrops(workers: seq<Pc>, i: nat, pc: Pc, len: nat)
    requires i < |workers| && Ahead(pc, len) <= Ahead(workers[i], len) - 1
    ensures Sum(StepsAhead(workers[i := pc], len)) <= Sum(StepsAhead(workers, len)) - 1
  {
    hide Ahead;
    SumUpdate(StepsAhead(workers, len), i, Ahead(pc, len));
    assert StepsAhead(workers[i := pc], len) == StepsAhead(workers, len)[i := Ahead(pc, len)];
  }

  lemma ActDrops(n: nat, s: State, a: Act, len: nat)
    requires Reachable(n, s) && Shape(n, s) && CanAct(s, a) && !s.shouldRun && MessagesWithin(s, len)
    ensures !DoAct(n, s, a).shouldRun
    ensures Sum(StepsAhead(DoAct(n, s, a).workers, len)) <=
              Sum(StepsAhead(s.workers, len)) - if OfWorker(a) then 1 else 0
  {
    hide Reachable, MessagesWithin, Ahead, WorkStep, CanWork, Sum, StepsAhead;
    match a {
      case Work(i) =>
        IsWorker(s, i);
        PoppedWithin(n, s, len);
        WritersAreSane(n, s, i);
        WorkMovesMonitor(n, s, i);
        WorkMovesStop(n, s, i);
        WorkDrops(n, s, i, len);
        SumDrops(s.workers, i, WorkStep(n, s, i).workers[i], len);
      case FindClosed(i) =>
        CheckIsNear(s.workers[i], len);
        SumDrops(s.workers, i, Check, len);
      case _ =>
    }
  }

  lemma CheckIsNear(pc: Pc, len: nat)
    requires pc.Hand?
    ensures Ahead(Check, len) <= Ahead(pc, len) - 1
  {
  }

  lemma WritersAreSane(n: nat, s: State, i: nat)
    requires Reachable(n, s) && i < |s.workers|
    ensures Sane(s.workers[i])
  {
    ReachableInv(n, s);
  }

  lemma ExecSplits(n: nat, before: seq<Act>, after: seq<Act>)
    requires after != [] && Exec(n, before + after).Some?
    ensures var front, a := after[..|after| - 1], after[|after| - 1];
            && Exec(n, before + front).Some? && CanAct(Exec(n, before + front).value, a)
            && Exec(n, before + after) == Some(DoAct(n, Exec(n, before + front).value, a))
  {
    assert (before + after)[..|before + after| - 1] == before + after[..|after| - 1];
  }

  lemma AddedGrows(n: nat, s: State, a: Act, len: nat)
    requires Shape(n, s) && CanAct(s, a) && MessagesWithin(DoAct(n, s, a), len)
    ensures MessagesWithin(s, len)
  {
    forall t | t in s.added
      ensures t in DoAct(n, s, a).added
    {
    }
  }

  lemma {:induction false} StepsAreSpent(n: nat, before: seq<Act>, after: seq<Act>, len: nat)
    requires Exec(n, before).Some? && !Exec(n, before).value.shouldRun
    requires Exec(n, before + after).Some? && MessagesWithin(Exec(n, before + after).value, len)
    ensures !Exec(n, before + after).value.shouldRun && MessagesWithin(Exec(n, before).value, len)
    ensures WorkerSteps(after) + Sum(StepsAhead(Exec(n, before + after).value.workers, len)) <=
              Sum(StepsAhead(Exec(n, before).value.workers, len))
  {
    hide Exec, CanAct, DoAct, MessagesWithin, StepsAhead, Sum;
    if after == [] {
      assert before + after == before;
    } else {
      var front, a := after[..|after| - 1], after[|after| - 1];
      ExecSplits(n, before, after);
      var s := Exec(n, before + front).value;
      AddedGrows(n, s, a, len);
      StepsAreSpent(n, before, front, len);
      assert Exec(n, before + front) == Some(s);
      ActDrops(n, s, a, len);
    }
  }

  lemma NearEnough(n: nat, s: State, len: nat)
    requires Reachable(n, s) && MessagesWithin(s, len) && |s.workers| == n
    ensures Sum(StepsAhead(s.workers, len)) <= n * (len + 9)
  {
    hide Reachable, MessagesWithin;
    forall i | 0 <= i < n
      ensures Ahead(s.workers[i], len) <= len + 9
    {
      if InHand(s.workers[i]) != [] {
        HeldWithin(n, s, len, i, InHand(s.workers[i])[0]);
        WritersAreSane(n, s, i);
      }
    }
    SumAtMost(StepsAhead(s.workers, len), len + 9);
  }

  lemma NeverNegative(n: nat, s: State, len: nat)
    requires Reachable(n, s)
    ensures Sum(StepsAhead(s.workers, len)) >= 0
  {
    forall i | 0 <= i < |s.workers|
      ensures Ahead(s.workers[i], len) >= 0
    {
      WritersAreSane(n, s, i);
    }
    SumBounds(StepsAhead(s.workers, len), 0);
  }

  // After the stop, whatever the producer still adds, the workers take at most len + 9 steps each;
  // and when none of them can step, all have stopped.
  lemma StopEndsTheWork(n: nat, before: seq<Act>, after: seq<Act>, len: nat)
    requires Exec(n, before).Some? && !Exec(n, before).value.shouldRun
    requires Exec(n, before + after).Some? && MessagesWithin(Exec(n, before + after).value, len)
    ensures WorkerSteps(after) <= n * (len + 9)
    ensures var s := Exec(n, before + after).value;
            (forall j: nat | j < n :: !CanWork(s, j)) ==> forall j | 0 <= j < n :: s.workers[j].Stopped?
  {
    hide MessagesWithin, StepsAhead, Sum, CanWork, WorkerSteps;
    var s0, s := Exec(n, before).value, Exec(n, before + after).value;
    assert Reachable(n, s0) && Reachable(n, s);
    StepsAreSpent(n, before, after, len);
    NearEnough(n, s0, len);
    NeverNegative(n, s, len);
    if forall j: nat | j < n :: !CanWork(s, j) {
      forall i | 0 <= i < n
        ensures s.workers[i].Stopped?
      {
        if !s.workers[i].Stopped? {
          SomeWorkerCanStep(n, s, i);
        }
      }
    }
  }
}
