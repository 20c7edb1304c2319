/**
 Deadlock freedom, exactly for the tables that have it, and a bound on the length of every run.
 */
module PhilosophersLiveness {
  import opened Common
  import opened Philosophers
  import opened PhilosophersSafety
  import opened Sums

  // ---------- deadlock freedom ----------

  ghost predicate Stuck(n: nat, s: State)
    requires Shape(n, s)
  {
    forall i | 0 <= i < n :: !CanStep(n, s, i)
  }

  ghost predicate AllDone(n: nat, s: State)
    requires Shape(n, s)
  {
    forall i | 0 <= i < n :: s.pc[i].Done?
  }

  // Chopsticks in an order in which everyone picks up: odd numbers first, number 1 above the
  // other odd ones, even numbers last.
  function Rank(c: nat): nat {
    if (c + 1) % 2 == 0 then 2 else if c == 0 then 1 else 0
  }

  lemma PickUpOrder(n: nat, i: nat)
    requires n >= 2 && i < n
    ensures Rank(Target(n, i, Fst)) < Rank(Target(n, i, Snd))
  {
  }

  lemma OwnerCanStep(n: nat, m: nat, s: State)
    requires Shape(n, s) && Inv(n, m, s)
    ensures s.owner.Some? ==> CanStep(n, s, s.owner.value)
  {
    if s.owner.Some? {
      assert ThreadInv(n, m, s, s.owner.value);
    }
  }

  // When nobody can move, the holder a parked thread waits for is itself parked, on a
  // chopstick of higher rank.
  lemma WaitsUpwards(n: nat, m: nat, s: State, i: nat) returns (j: nat)
    requires n >= 2 && Shape(n, s) && Inv(n, m, s) && Stuck(n, s) && i < n && s.pc[i].Parked?
    ensures j < n && s.pc[j].Parked?
    ensures Rank(Target(n, i, s.pc[i].leg)) < Rank(Target(n, j, s.pc[j].leg))
  {
    var c := Target(n, i, s.pc[i].leg);
    j := Other(n, i, c);
    assert WaiterInv(n, s, i);
    OwnerCanStep(n, m, s);
    assert !CanStep(n, s, j);
    PickUpOrder(n, j);
  }

  lemma NobodyParkedWhenStuck(n: nat, m: nat, s: State, i: nat)
    requires n >= 2 && Shape(n, s) && Inv(n, m, s) && Stuck(n, s) && i < n
    ensures !s.pc[i].Parked?
  {
    if s.pc[i].Parked? {
      var j := WaitsUpwards(n, m, s, i);
      var k := WaitsUpwards(n, m, s, j);
      var _ := WaitsUpwards(n, m, s, k);
    }
  }

  // A state that no thread can leave is the end of the dinner: every philosopher has eaten all
  // its meals, every chopstick is back on the table, every queue is empty and the lock is free.
  lemma StuckMeansDone(n: nat, m: nat, s: State)
    requires n >= 2 && Reachable(n, m, s) && Shape(n, s) && Stuck(n, s)
    ensures AllDone(n, s) && s.owner == None
    ensures forall i | 0 <= i < n ::
              s.counter[i] == 0 && s.eaten[i] == m && s.available[i] == 1 && s.queue[i] == []
  {
    ReachableInv(n, m, s);
    OwnerCanStep(n, m, s);
    forall i | 0 <= i < n
      ensures s.pc[i].Done?
    {
      assert !CanStep(n, s, i);
      NobodyParkedWhenStuck(n, m, s, i);
      assert ThreadInv(n, m, s, i);
    }
    forall i | 0 <= i < n
      ensures s.counter[i] == 0 && s.eaten[i] == m && s.available[i] == 1 && s.queue[i] == []
    {
      assert ThreadInv(n, m, s, i) && ChopstickInv(n, s, i) && QueueInv(n, s, i);
    }
  }

  ghost predicate Deadlocked(n: nat, s: State) {
    Shape(n, s) && Stuck(n, s) && !AllDone(n, s)
  }

  // Deadlock freedom holds exactly when there are two philosophers or nothing to eat: a single
  // philosopher waits for the chopstick in its own hand.
  lemma DeadlockFreeExactly(n: nat, m: nat)
    requires n >= 1
    ensures (forall s | Reachable(n, m, s) :: !Deadlocked(n, s)) <==> (n >= 2 || m == 0)
  {
    if n == 1 && m >= 1 {
      SelfDeadlock(m);
    } else {
      forall s | Reachable(n, m, s)
        ensures !Deadlocked(n, s)
      {
        if Deadlocked(n, s) {
          if m == 0 {
            NoMealsNoDeadlock(n, s);
          } else {
            StuckMeansDone(n, m, s);
          }
        }
      }
    }
  }

  ghost predicate FullUp(n: nat, s: State)
    requires Shape(n, s)
  {
    forall i | 0 <= i < n :: s.counter[i] == 0 && (s.pc[i].Loop? || s.pc[i].Done?)
  }

  lemma {:induction false} NothingToEat(n: nat, acts: seq<Act>)
    ensures Exec(n, 0, acts).Some? ==> FullUp(n, Exec(n, 0, acts).value)
  {
    if acts != [] && Exec(n, 0, acts).Some? {
      NothingToEat(n, acts[..|acts| - 1]);
      var s, a := Exec(n, 0, acts[..|acts| - 1]).value, acts[|acts| - 1];
      assert FullUp(n, s) && CanAct(n, s, a);
    }
  }

  lemma NoMealsNoDeadlock(n: nat, s: State)
    requires Reachable(n, 0, s) && Shape(n, s) && Stuck(n, s)
    ensures AllDone(n, s)
  {
    var acts :| Exec(n, 0, acts) == Some(s);
    NothingToEat(n, acts);
    forall i | 0 <= i < n
      ensures s.pc[i].Done?
    {
      assert !CanStep(n, s, i);
    }
  }

  lemma ExecSnoc(n: nat, m: nat, acts: seq<Act>, a: Act)
    requires Exec(n, m, acts).Some?
    ensures Exec(n, m, acts + [a]) ==
            var s := Exec(n, m, acts).value;
            if CanAct(n, s, a) then Some(DoAct(n, s, a)) else None
  {
    assert (acts + [a])[..|acts + [a]| - 1] == acts;
  }

  // Where a philosopher who dines alone is after k steps, up to parking on its own chopstick.
  function AlonePc(k: nat): Pc {
    match k
    case 0 => Loop
    case 1 => Want(Fst)
    case 2 => Test(Fst)
    case 3 => Taking(Fst)
    case 4 => Took(Fst)
    case 5 => Want(Snd)
    case 6 => Test(Snd)
    case 7 => Parking(Snd)
    case _ => Parked(Snd)
  }

  function Alone(m: nat, k: nat): State {
    State([AlonePc(k)], [m], [0], [if k < 4 then 1 else 0], [if k < 8 then [] else [0]],
          if k == 0 || k == 1 || k == 5 || k >= 8 then None else Some(0))
  }

  lemma AloneStep(m: nat, k: nat)
    requires m >= 1 && k < 8
    ensures Shape(1, Alone(m, k)) && CanStep(1, Alone(m, k), 0)
    ensures Step(1, Alone(m, k), 0) == Alone(m, k + 1)
  {
    var s := Alone(m, k);
    assert s.pc[0 := AlonePc(k + 1)] == [AlonePc(k + 1)];
    if k == 7 {
      assert [] + [0 as nat] == [0] && s.queue[0 := [0]] == Alone(m, 8).queue;
    }
  }

  lemma {:induction false} AloneReached(m: nat, k: nat, acts: seq<Act>)
    requires m >= 1 && k <= 8 && acts == seq(k, i => Go(0))
    ensures Exec(1, m, acts) == Some(Alone(m, k))
  {
    hide Step;
    if k == 0 {
      assert Init(1, m) == Alone(m, 0);
    } else {
      var front := seq(k - 1, i => Go(0));
      AloneReached(m, k - 1, front);
      AloneStep(m, k - 1);
      assert acts == front + [Go(0)];
      hide Alone;
      ExecSnoc(1, m, front, Go(0));
    }
  }

  lemma AloneIsStuck(m: nat)
    ensures Deadlocked(1, Alone(m, 8))
  {
    var s := Alone(m, 8);
    assert s.pc[0] == Parked(Snd);
    assert !CanStep(1, s, 0);
  }

  lemma SelfDeadlock(m: nat)
    requires m >= 1
    ensures Reachable(1, m, Alone(m, 8))
    ensures Deadlocked(1, Alone(m, 8))
  {
    hide Alone, Deadlocked, Exec;
    AloneReached(m, 8, seq(8, i => Go(0)));
    AloneIsStuck(m);
  }

  // ---------- termination ----------

  // The steps a thread still has ahead of it; a meal is worth 29.  The signal step is worth 4 so
  // that it pays for the 3 that the woken thread gains.
  function Weight(pc: Pc, counter: nat): int {
    var later := 29 * (counter - 1) + 1;
    match pc
    case Done => 0
    case Loop => later + 29
    case Eaten => later + 1
    case Signalled(l) => later + if l.Snd? then 2 else 9
    case Freed(l) => later + if l.Snd? then 6 else 13
    case Freeing(l) => later + if l.Snd? then 7 else 14
    case Give(l) => later + if l.Snd? then 8 else 15
    case Eating => later + 16
    case Took(l) => later + if l.Snd? then 17 else 23
    case Taking(l) => later + if l.Snd? then 18 else 24
    case Parked(l) => later + if l.Snd? then 19 else 25
    case Parking(l) => later + if l.Snd? then 20 else 26
    case Test(l) => later + if l.Snd? then 21 else 27
    case Woken(l) => later + if l.Snd? then 22 else 28
    case Want(l) => later + if l.Snd? then 22 else 28
  }

  ghost function Weights(n: nat, s: State): seq<int>
    requires Shape(n, s)
  {
    seq(n, i requires 0 <= i < n => Weight(s.pc[i], s.counter[i]))
  }

  ghost function Measure(n: nat, s: State): int
    requires Shape(n, s)
  {
    Sum(Weights(n, s))
  }

  // A step moves its own thread closer to the end, and a signal moves it by at least 4.
  lemma StepDrops(n: nat, m: nat, s: State, i: nat)
    requires n >= 2 && Shape(n, s) && Inv(n, m, s) && CanStep(n, s, i)
    ensures Weights(n, Step(n, s, i))[i] <= Weights(n, s)[i] - if s.pc[i].Freed? then 4 else 1
  {
    assert ThreadInv(n, m, s, i);
  }

  // Every step of a thread costs at least 1 in all, also when it wakes another thread.
  lemma StepCosts(n: nat, m: nat, s: State, s': State, i: nat)
    requires n >= 2 && Shape(n, s) && Shape(n, s') && Inv(n, m, s) && i < n
    requires OthersStay(n, s, s', i) && QueuesMove(n, s, s', i)
    requires Weights(n, s')[i] <= Weights(n, s)[i] - if s.pc[i].Freed? then 4 else 1
    ensures Measure(n, s') <= Measure(n, s) - 1
  {
    var w, w' := Weights(n, s), Weights(n, s');
    SumUpdate(w, i, w'[i]);
    var moved := w[i := w'[i]];
    if s.pc[i].Freed? && s.queue[Returned(n, i, s.pc[i].leg)] != [] {
      var k := s.queue[Returned(n, i, s.pc[i].leg)][0];
      assert QueueInv(n, s, Returned(n, i, s.pc[i].leg));
      SumUpdate(moved, k, w'[k]);
      assert w' == moved[k := w'[k]];
    } else {
      assert w' == moved;
    }
  }

  lemma SpuriousGains(n: nat, s: State, i: nat)
    requires Shape(n, s) && i < n && s.pc[i].Parked?
    ensures Measure(n, SpuriousWake(n, s, i)) == Measure(n, s) + 3
  {
    var s' := SpuriousWake(n, s, i);
    SumUpdate(Weights(n, s), i, Weights(n, s')[i]);
    assert Weights(n, s') == Weights(n, s)[i := Weights(n, s')[i]];
  }

  lemma {:induction false} Spent(n: nat, m: nat, acts: seq<Act>)
    requires n >= 2 && Exec(n, m, acts).Some?
    ensures |acts| + Measure(n, Exec(n, m, acts).value) <= n * (29 * m + 1) + 4 * Spurious(acts)
  {
    if acts == [] {
      SumBounds(Weights(n, Init(n, m)), 29 * m + 1);
    } else {
      var before := acts[..|acts| - 1];
      Spent(n, m, before);
      ExecInv(n, m, before);
      var s := Exec(n, m, before).value;
      match acts[|acts| - 1] {
        case Go(i) =>
          StepDrops(n, m, s, i);
          StepOthersStay(n, s, i);
          StepQueuesMove(n, s, i);
          StepCosts(n, m, s, Step(n, s, i), i);
        case Spur(i) => SpuriousGains(n, s, i);
      }
    }
  }

  // Every run is finite: its length is bounded by the number of meals to be eaten and the number
  // of spurious wakeups in it.
  lemma RunsAreFinite(n: nat, m: nat, acts: seq<Act>)
    requires n >= 2 && Exec(n, m, acts).Some?
    ensures |acts| <= n * (29 * m + 1) + 4 * Spurious(acts)
  {
    var s := Exec(n, m, acts).value;
    Spent(n, m, acts);
    ExecInv(n, m, acts);
    forall i | 0 <= i < n
      ensures Weights(n, s)[i] >= 0
    {
      assert ThreadInv(n, m, s, i);
    }
    SumBounds(Weights(n, s), 0);
  }
}
