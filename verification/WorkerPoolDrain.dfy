/** While the pool is running its workers can always finish everything that was added. */
module WorkerPoolDrain {
  import opened Common
  import opened Flattening
  import opened Sums
  import opened WorkerPool
  import opened WorkerPoolStop

  // What steps of workers, on connected channels, do in all: they add nothing, and the tasks they
  // finish are delivered.
  ghost predicate Follows(s: State, s': State) {
    && s'.added == s.added && s'.shouldRun == s.shouldRun && |s'.stack| <= |s.stack|
    && s.executed <= s'.executed
    && forall k | |s.executed| <= k < |s'.executed| :: s'.executed[k].delivered
  }

  predicate OnlyWork(acts: seq<Act>) {
    forall k | 0 <= k < |acts| :: acts[k].Work?
  }

  ghost predicate AllAtCheck(s: State) {
    forall i | 0 <= i < |s.workers| :: s.workers[i].Check?
  }

  lemma ExecSnoc(n: nat, acts: seq<Act>, a: Act)
    requires Exec(n, acts).Some? && CanAct(Exec(n, acts).value, a)
    ensures Exec(n, acts + [a]) == Some(DoAct(n, Exec(n, acts).value, a))
  {
    assert (acts + [a])[..|acts + [a]| - 1] == acts;
  }

  lemma WorkFollows(n: nat, s: State, i: nat)
    requires Reachable(n, s) && Shape(n, s) && CanWork(s, i)
    ensures Follows(s, WorkStep(n, s, i))
  {
    IsWorker(s, i);
    NeverPopsEmpty(n, s, i, i);
    hide WorkStep, CanWork, Reachable;
    WorkMovesTasks(n, s, i);
    WorkMovesStop(n, s, i);
  }

  lemma StillRuns(s: State, s': State)
    requires Follows(s, s')
    ensures s'.shouldRun == s.shouldRun && |s'.stack| <= |s.stack| && s'.added == s.added
  {
  }

  lemma FollowsOn(a: State, b: State, c: State)
    requires Follows(a, b) && Follows(b, c)
    ensures Follows(a, c)
  {
    forall k | |a.executed| <= k < |c.executed|
      ensures c.executed[k].delivered
    {
      assert k < |b.executed| ==> c.executed[k] == b.executed[k];
    }
  }

  // The workers can finish their rounds: from every state some schedule brings all of them back to
  // the start of the loop.
  lemma {:induction false} Settle(n: nat, acts: seq<Act>, len: nat, bound: nat) returns (more: seq<Act>)
    requires Exec(n, acts).Some? && Exec(n, acts).value.shouldRun
    requires MessagesWithin(Exec(n, acts).value, len) && Sum(StepsAhead(Exec(n, acts).value.workers, len)) <= bound
    ensures OnlyWork(more) && Exec(n, acts + more).Some?
    ensures Follows(Exec(n, acts).value, Exec(n, acts + more).value) && AllAtCheck(Exec(n, acts + more).value)
    decreases bound
  {
    hide Exec, DoAct, CanWork, WorkStep, StepsAhead, Sum, Ahead;
    var s := Exec(n, acts).value;
    assert Reachable(n, s);
    if AllAtCheck(s) {
      more := [];
      assert acts + more == acts;
    } else {
      var i: nat :| i < |s.workers| && !s.workers[i].Check?;
      RunningIsNotStopped(n, s, i);
      var j := BusyWorkerCanStep(n, s, i);
      var s' := WorkStep(n, s, j);
      ExecSnoc(n, acts, Work(j));
      WorkIs(n, s, j);
      WorkFollows(n, s, j);
      SettlesDown(n, s, j, len);
      assert Reachable(n, s');
      NeverNegative(n, s', len);
      var rest := Settle(n, acts + [Work(j)], len, bound - 1);
      more := [Work(j)] + rest;
      assert acts + more == acts + [Work(j)] + rest;
      FollowsOn(s, s', Exec(n, acts + more).value);
    }
  }

  lemma WorkIs(n: nat, s: State, j: nat)
    requires Shape(n, s) && CanWork(s, j)
    ensures CanAct(s, Work(j)) && DoAct(n, s, Work(j)) == WorkStep(n, s, j)
  {
  }

  lemma RunningIsNotStopped(n: nat, s: State, i: nat)
    requires Reachable(n, s) && s.shouldRun && i < |s.workers|
    ensures Shape(n, s) && !s.workers[i].Stopped?
  {
    ReachableInv(n, s);
    assert WorkerStopInv(s, i);
  }

  lemma SettlesDown(n: nat, s: State, i: nat, len: nat)
    requires Reachable(n, s) && Shape(n, s) && CanWork(s, i) && !s.workers[i].Check? && MessagesWithin(s, len)
    ensures Sum(StepsAhead(WorkStep(n, s, i).workers, len)) <= Sum(StepsAhead(s.workers, len)) - 1
  {
    hide Reachable, MessagesWithin, Ahead, WorkStep, CanWork, Sum, StepsAhead;
    IsWorker(s, i);
    PoppedWithin(n, s, len);
    WritersAreSane(n, s, i);
    WorkMovesMonitor(n, s, i);
    BusyDrops(n, s, i, len);
    SumDrops(s.workers, i, WorkStep(n, s, i).workers[i], len);
  }

  // A worker that finds the monitor free and the stack not empty takes the top task in four steps.
  lemma TakesTheTop(n: nat, acts: seq<Act>, i: nat)
    requires Exec(n, acts).Some?
    requires var s := Exec(n, acts).value;
             s.shouldRun && s.monitor.None? && i < n && s.workers[i].Check? && s.stack != []
    ensures var s := Exec(n, acts).value;
            var after := Exec(n, acts + [Work(i)] + [Work(i)] + [Work(i)] + [Work(i)]);
            && after.Some? && after.value.stack == s.stack[..|s.stack| - 1]
            && after.value.workers[i] == Leave(Some(s.stack[|s.stack| - 1]))
  {
    hide Exec;
    ExecSnoc(n, acts, Work(i));
    ExecSnoc(n, acts + [Work(i)], Work(i));
    ExecSnoc(n, acts + [Work(i)] + [Work(i)], Work(i));
    ExecSnoc(n, acts + [Work(i)] + [Work(i)] + [Work(i)], Work(i));
  }

  // The stack gives the task that was added last.
  lemma LastAddedIsTaken(n: nat, acts: seq<Act>, i: nat, t: Task)
    requires Exec(n, acts).Some?
    requires var s := Exec(n, acts).value; s.shouldRun && s.monitor.None? && i < n && s.workers[i].Check?
    ensures var after := Exec(n, acts + [Add(t)] + [Work(i)] + [Work(i)] + [Work(i)] + [Work(i)]);
            && after.Some? && after.value.stack == Exec(n, acts).value.stack
            && after.value.workers[i] == Leave(Some(t))
  {
    hide Exec;
    ExecSnoc(n, acts, Add(t));
    TakesTheTop(n, acts + [Add(t)], i);
  }

  lemma FourFollow(n: nat, acts: seq<Act>, i: nat)
    requires Exec(n, acts).Some?
    requires var s := Exec(n, acts).value;
             s.shouldRun && s.monitor.None? && i < n && s.workers[i].Check? && s.stack != []
    requires Exec(n, acts + [Work(i)] + [Work(i)] + [Work(i)] + [Work(i)]).Some?
    ensures Follows(Exec(n, acts).value, Exec(n, acts + [Work(i)] + [Work(i)] + [Work(i)] + [Work(i)]).value)
  {
    hide Exec;
    ExecSnoc(n, acts, Work(i));
    ExecSnoc(n, acts + [Work(i)], Work(i));
    ExecSnoc(n, acts + [Work(i)] + [Work(i)], Work(i));
    ExecSnoc(n, acts + [Work(i)] + [Work(i)] + [Work(i)], Work(i));
  }

  lemma {:induction false} LongestMessage(added: multiset<Task>) returns (len: nat)
    ensures forall t | t in added :: |t.message| <= len
    decreases |added|
  {
    len := 0;
    if |added| > 0 {
      var t :| t in added;
      len := LongestMessage(added - multiset{t});
      len := if len < |t.message| then |t.message| else len;
    }
  }

  lemma MonitorHolder(n: nat, s: State)
    requires Reachable(n, s) && s.monitor.Some?
    ensures s.monitor.value < |s.workers| && InMonitor(s.workers[s.monitor.value])
  {
    ReachableInv(n, s);
    assert WorkerMonitorInv(s, s.monitor.value);
  }

  lemma FreeAtCheck(n: nat, s: State)
    requires Reachable(n, s) && AllAtCheck(s)
    ensures s.monitor.None? && multiset(Flat(s.workers, InHand)) == multiset{}
  {
    ReachableInv(n, s);
    if s.monitor.Some? {
      MonitorHolder(n, s);
    }
    FlatNothing(s.workers, InHand);
  }

  lemma {:induction false} TasksListed(executed: seq<Outcome>)
    ensures |Flat(executed, Tasks())| == |executed|
    ensures forall k | 0 <= k < |executed| :: Flat(executed, Tasks())[k] == executed[k].task
  {
    if executed != [] {
      TasksListed(executed[..|executed| - 1]);
    }
  }

  lemma AllExecuted(n: nat, s: State)
    requires Reachable(n, s) && AllAtCheck(s) && s.stack == []
    ensures multiset(seq(|s.executed|, k requires 0 <= k < |s.executed| => s.executed[k].task)) == s.added
  {
    hide Flat, Reachable;
    FreeAtCheck(n, s);
    TasksAreConserved(n, s);
    TasksListed(s.executed);
    assert seq(|s.executed|, k requires 0 <= k < |s.executed| => s.executed[k].task) == Flat(s.executed, Tasks());
  }

  // As long as the pool runs, every task that was added can be executed: from every reachable state
  // some schedule of worker steps empties the stack, brings all workers back to the start of their
  // loop, and has then executed every task that was ever added, as often as it was added.
  lemma {:induction false} Drains(n: nat, acts: seq<Act>) returns (more: seq<Act>)
    requires n >= 1 && Exec(n, acts).Some? && Exec(n, acts).value.shouldRun
    ensures OnlyWork(more) && Exec(n, acts + more).Some?
    ensures Follows(Exec(n, acts).value, Exec(n, acts + more).value)
    ensures var s := Exec(n, acts + more).value;
            && s.stack == [] && (forall i | 0 <= i < n :: s.workers[i].Check?)
            && multiset(seq(|s.executed|, k requires 0 <= k < |s.executed| => s.executed[k].task)) == s.added
    decreases |Exec(n, acts).value.stack|
  {
    hide Exec, DoAct, CanWork, WorkStep, Flat, StepsAhead, Sum, Follows;
    var s := Exec(n, acts).value;
    var len := LongestMessage(s.added);
    assert Reachable(n, s);
    NeverNegative(n, s, len);
    more := Settle(n, acts, len, Sum(StepsAhead(s.workers, len)));
    var s1 := Exec(n, acts + more).value;
    assert Reachable(n, s1);
    FreeAtCheck(n, s1);
    StillRuns(s, s1);
    if s1.stack == [] {
      AllExecuted(n, s1);
    } else {
      var four := [Work(0)] + [Work(0)] + [Work(0)] + [Work(0)];
      TakesTheTop(n, acts + more, 0);
      FourFollow(n, acts + more, 0);
      assert acts + more + [Work(0)] + [Work(0)] + [Work(0)] + [Work(0)] == acts + (more + four);
      var s2 := Exec(n, acts + (more + four)).value;
      FollowsOn(s, s1, s2);
      StillRuns(s, s2);
      var rest := Drains(n, acts + (more + four));
      assert acts + (more + four) + rest == acts + (more + four + rest);
      more := more + four + rest;
      FollowsOn(s, s2, Exec(n, acts + more).value);
    }
  }
}
