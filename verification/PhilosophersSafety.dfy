/**
 What every interleaving of the philosophers keeps: the flags tell who holds what, nobody shares
 a chopstick, and a single signal is enough to lose no wakeup.
 */
module PhilosophersSafety {
  import opened Common
  import opened Philosophers

  // The other philosopher who can reach chopstick c.
  function Other(n: nat, i: nat, c: nat): (j: nat)
    requires i < n && c < n
    ensures j < n
  {
    if i == c then Prev(n, c) else c
  }

  // ---------- the invariant ----------

  ghost predicate ChopstickInv(n: nat, s: State, c: nat)
    requires Shape(n, s) && c < n
  {
    var r, l := HoldsRight(c, s.pc[c]), HoldsLeft(Prev(n, c), s.pc[Prev(n, c)]);
    && !(r && l)
    && s.available[c] == (if r || l then 0 else 1)
  }

  ghost predicate QueueInv(n: nat, s: State, c: nat)
    requires Shape(n, s) && c < n
  {
    && |s.queue[c]| <= 1
    && (s.queue[c] != [] ==>
          var w := s.queue[c][0];
          s.pc[w].Parked? && Target(n, w, s.pc[w].leg) == c)
  }

  // A waiter is in the queue, and somebody who will signal that queue holds the chopstick
  // or has put it down and is about to signal.
  ghost predicate WaiterInv(n: nat, s: State, i: nat)
    requires Shape(n, s) && i < n
  {
    s.pc[i].Parked? ==>
      var c := Target(n, i, s.pc[i].leg);
      var j := Other(n, i, c);
      && s.queue[c] == [i]
      && (Holds(n, j, s.pc[j], c) || (s.pc[j].Freed? && Returned(n, j, s.pc[j].leg) == c))
  }

  ghost predicate ThreadInv(n: nat, m: nat, s: State, i: nat)
    requires Shape(n, s) && i < n
  {
    var pc := s.pc[i];
    && (InLock(pc) <==> s.owner == Some(i))
    && (pc.Parking? ==> s.available[Target(n, i, pc.leg)] == 0)
    && (pc.Taking? ==> s.available[Target(n, i, pc.leg)] == 1)
    && (!pc.Loop? && !pc.Done? ==> s.counter[i] > 0)
    && (pc.Done? ==> s.counter[i] == 0)
    && s.eaten[i] + s.counter[i] == m
  }

  ghost predicate Inv(n: nat, m: nat, s: State)
    requires Shape(n, s)
  {
    && (s.owner.Some? ==> s.owner.value < n)
    && (forall c | 0 <= c < n :: ChopstickInv(n, s, c))
    && (forall c | 0 <= c < n :: QueueInv(n, s, c))
    && (forall i | 0 <= i < n :: WaiterInv(n, s, i))
    && (forall i | 0 <= i < n :: ThreadInv(n, m, s, i))
  }

  lemma InitInv(n: nat, m: nat)
    requires n >= 2
    ensures Shape(n, Init(n, m)) && Inv(n, m, Init(n, m))
  {
  }

  // ---------- what one step does, in parts ----------

  // A signal turns one parked thread into a woken one; otherwise only thread i moves.
  ghost predicate OthersStay(n: nat, s: State, s': State, i: nat)
    requires Shape(n, s) && Shape(n, s') && i < n
  {
    forall j | 0 <= j < n && j != i ::
      && s'.counter[j] == s.counter[j] && s'.eaten[j] == s.eaten[j]
      && (s'.pc[j] == s.pc[j] || (s.pc[j].Parked? && s'.pc[j] == Woken(s.pc[j].leg)))
  }

  // Only the step after the test takes a chopstick, and only the step after Give frees one.
  ghost predicate ChopsticksMove(n: nat, s: State, s': State, i: nat)
    requires Shape(n, s) && Shape(n, s') && i < n
  {
    match s.pc[i]
    case Taking(l) =>
      && s'.pc[i] == Took(l) && s'.available == s.available[Target(n, i, l) := 0]
    case Freeing(l) =>
      && s'.pc[i] == Freed(l) && s'.available == s.available[Returned(n, i, l) := 1]
    case _ =>
      && s'.available == s.available
      && HoldsRight(i, s'.pc[i]) == HoldsRight(i, s.pc[i])
      && HoldsLeft(i, s'.pc[i]) == HoldsLeft(i, s.pc[i])
  }

  // Only await enqueues, and only signal dequeues and wakes.
  ghost predicate QueuesMove(n: nat, s: State, s': State, i: nat)
    requires Shape(n, s) && Shape(n, s') && i < n
  {
    match s.pc[i]
    case Parking(l) =>
      var c := Target(n, i, l);
      && s'.pc == s.pc[i := Parked(l)]
      && s'.queue == s.queue[c := s.queue[c] + [i]]
    case Freed(l) =>
      var c := Returned(n, i, l);
      && s'.pc[i] == Signalled(l)
      && if s.queue[c] == [] then s'.queue == s.queue && s'.pc == s.pc[i := s'.pc[i]]
         else
           var w := s.queue[c][0];
           && s'.queue == s.queue[c := s.queue[c][1..]]
           && (w != i && s.pc[w].Parked? ==> s'.pc == s.pc[i := s'.pc[i]][w := Woken(s.pc[w].leg)])
    case _ => s'.queue == s.queue && s'.pc == s.pc[i := s'.pc[i]] && !s'.pc[i].Parked?
  }

  ghost predicate LockMoves(n: nat, s: State, s': State, i: nat)
    requires Shape(n, s) && Shape(n, s') && i < n
  {
    if InLock(s'.pc[i]) then s'.owner == Some(i) || (InLock(s.pc[i]) && s'.owner == s.owner)
    else if InLock(s.pc[i]) then s'.owner == None
    else s'.owner == s.owner
  }

  lemma StepOthersStay(n: nat, s: State, i: nat)
    requires Shape(n, s) && CanStep(n, s, i)
    ensures OthersStay(n, s, Step(n, s, i), i)
  {
  }

  lemma StepChopsticksMove(n: nat, s: State, i: nat)
    requires Shape(n, s) && CanStep(n, s, i)
    ensures ChopsticksMove(n, s, Step(n, s, i), i)
  {
  }

  lemma StepQueuesMove(n: nat, s: State, i: nat)
    requires Shape(n, s) && CanStep(n, s, i)
    ensures QueuesMove(n, s, Step(n, s, i), i)
  {
  }

  lemma StepLockMoves(n: nat, s: State, i: nat)
    requires Shape(n, s) && CanStep(n, s, i)
    ensures LockMoves(n, s, Step(n, s, i), i)
    ensures !InLock(s.pc[i]) && InLock(Step(n, s, i).pc[i]) ==> s.owner.None?
  {
  }

  lemma StepChopstick(n: nat, m: nat, s: State, s': State, i: nat, c: nat)
    requires n >= 2 && Shape(n, s) && Shape(n, s') && Inv(n, m, s) && i < n && c < n
    requires OthersStay(n, s, s', i) && ChopsticksMove(n, s, s', i)
    ensures ChopstickInv(n, s', c)
  {
    assert ThreadInv(n, m, s, i);
    assert ChopstickInv(n, s, c);
  }

  // Whoever waits for c, or is about to, sees c held by the other sharer, so c has no second waiter.
  lemma NoSecondWaiter(n: nat, m: nat, s: State, i: nat)
    requires n >= 2 && Shape(n, s) && Inv(n, m, s) && i < n && s.pc[i].Parking?
    ensures var c := Target(n, i, s.pc[i].leg);
            var j := Other(n, i, c);
            s.queue[c] == [] && Holds(n, j, s.pc[j], c)
  {
    var c := Target(n, i, s.pc[i].leg);
    assert ThreadInv(n, m, s, i) && ChopstickInv(n, s, c) && QueueInv(n, s, c);
    assert Holds(n, Other(n, i, c), s.pc[Other(n, i, c)], c);
  }

  lemma StepQueue(n: nat, m: nat, s: State, s': State, i: nat, c: nat)
    requires n >= 2 && Shape(n, s) && Shape(n, s') && Inv(n, m, s) && i < n && c < n
    requires OthersStay(n, s, s', i) && QueuesMove(n, s, s', i)
    requires !s.pc[i].Parked?
    ensures QueueInv(n, s', c)
  {
    assert QueueInv(n, s, c);
    if s.pc[i].Parking? {
      NoSecondWaiter(n, m, s, i);
    } else if s.pc[i].Freed? {
      assert QueueInv(n, s, Returned(n, i, s.pc[i].leg));
    }
  }

  lemma StepWaiter(n: nat, m: nat, s: State, s': State, i: nat, k: nat)
    requires n >= 2 && Shape(n, s) && Shape(n, s') && Inv(n, m, s) && i < n && k < n
    requires OthersStay(n, s, s', i) && ChopsticksMove(n, s, s', i) && QueuesMove(n, s, s', i)
    requires !s.pc[i].Parked?
    ensures WaiterInv(n, s', k)
  {
    assert WaiterInv(n, s, k);
    if s.pc[i].Parking? {
      NoSecondWaiter(n, m, s, i);
    } else if s.pc[i].Freed? {
      assert QueueInv(n, s, Returned(n, i, s.pc[i].leg));
    }
  }

  lemma StepThread(n: nat, m: nat, s: State, i: nat, k: nat)
    requires n >= 2 && Shape(n, s) && Inv(n, m, s) && CanStep(n, s, i) && k < n
    ensures ThreadInv(n, m, Step(n, s, i), k)
  {
    StepOthersStay(n, s, i);
    StepChopsticksMove(n, s, i);
    StepLockMoves(n, s, i);
    assert ThreadInv(n, m, s, i) && ThreadInv(n, m, s, k);
    if k == i {
      if s.pc[i].Test? {
        assert ChopstickInv(n, s, Target(n, i, s.pc[i].leg));
      }
    }
  }

  lemma StepInv(n: nat, m: nat, s: State, i: nat)
    requires n >= 2 && Shape(n, s) && Inv(n, m, s) && CanStep(n, s, i)
    ensures Inv(n, m, Step(n, s, i))
  {
    var s' := Step(n, s, i);
    StepOthersStay(n, s, i);
    StepChopsticksMove(n, s, i);
    StepQueuesMove(n, s, i);
    StepLockMoves(n, s, i);
    forall c | 0 <= c < n
      ensures ChopstickInv(n, s', c) && QueueInv(n, s', c) && WaiterInv(n, s', c) && ThreadInv(n, m, s', c)
    {
      StepChopstick(n, m, s, s', i, c);
      StepQueue(n, m, s, s', i, c);
      StepWaiter(n, m, s, s', i, c);
      StepThread(n, m, s, i, c);
    }
  }

  lemma SpuriousInv(n: nat, m: nat, s: State, i: nat)
    requires n >= 2 && Shape(n, s) && Inv(n, m, s) && i < n && s.pc[i].Parked?
    ensures Inv(n, m, SpuriousWake(n, s, i))
  {
    var s' := SpuriousWake(n, s, i);
    var c := Target(n, i, s.pc[i].leg);
    assert WaiterInv(n, s, i);
    assert Without([i], i) == [];
    forall k | 0 <= k < n
      ensures ChopstickInv(n, s', k) && QueueInv(n, s', k) && ThreadInv(n, m, s', k)
    {
      assert ChopstickInv(n, s, k) && QueueInv(n, s, k) && ThreadInv(n, m, s, k);
    }
    forall k | 0 <= k < n
      ensures WaiterInv(n, s', k)
    {
      assert WaiterInv(n, s, k);
    }
  }

  // The invariant holds in every state that any schedule reaches.
  lemma {:induction false} ExecInv(n: nat, m: nat, acts: seq<Act>)
    requires n >= 2
    ensures Exec(n, m, acts).Some? ==> Inv(n, m, Exec(n, m, acts).value)
  {
    if acts == [] {
      InitInv(n, m);
    } else if Exec(n, m, acts).Some? {
      ExecInv(n, m, acts[..|acts| - 1]);
      var s := Exec(n, m, acts[..|acts| - 1]).value;
      match acts[|acts| - 1] {
        case Go(i) => StepInv(n, m, s, i);
        case Spur(i) => SpuriousInv(n, m, s, i);
      }
    }
  }

  ghost predicate Reachable(n: nat, m: nat, s: State) {
    exists acts :: Exec(n, m, acts) == Some(s)
  }

  lemma ReachableInv(n: nat, m: nat, s: State)
    requires n >= 2 && Reachable(n, m, s)
    ensures Shape(n, s) && Inv(n, m, s)
  {
    var acts :| Exec(n, m, acts) == Some(s);
    ExecInv(n, m, acts);
  }

  // ---------- safety ----------

  // A flag is 0 exactly while some philosopher's program counter says it holds the chopstick,
  // and a chopstick never has two holders.
  lemma FlagMeansHeld(n: nat, m: nat, s: State, c: nat)
    requires n >= 2 && c < n && Reachable(n, m, s)
    ensures Shape(n, s)
    ensures s.available[c] == 0 || s.available[c] == 1
    ensures s.available[c] == 0 <==> exists i :: 0 <= i < n && Holds(n, i, s.pc[i], c)
    ensures forall i, j | 0 <= i < n && 0 <= j < n && Holds(n, i, s.pc[i], c) && Holds(n, j, s.pc[j], c) :: i == j
  {
    ReachableInv(n, m, s);
    HoldersOf(n, m, s, c);
    var p := Prev(n, c);
    assert s.available[c] == 0 ==> Holds(n, c, s.pc[c], c) || Holds(n, p, s.pc[p], c);
  }

  lemma HoldersOf(n: nat, m: nat, s: State, c: nat)
    requires n >= 2 && Shape(n, s) && Inv(n, m, s) && c < n
    ensures s.available[c] == 0 || s.available[c] == 1
    ensures s.available[c] == 0 <==> (Holds(n, c, s.pc[c], c) || Holds(n, Prev(n, c), s.pc[Prev(n, c)], c))
    ensures forall i | 0 <= i < n && Holds(n, i, s.pc[i], c) ::
              i == if HoldsRight(c, s.pc[c]) then c else Prev(n, c)
  {
    assert ChopstickInv(n, s, c);
  }

  // Neighbours never eat at the same time, and no two threads are ever inside the lock.
  lemma NeighboursNeverEatTogether(n: nat, m: nat, s: State)
    requires n >= 2 && Reachable(n, m, s)
    ensures Shape(n, s)
    ensures forall i | 0 <= i < n :: !(s.pc[i].Eating? && s.pc[Left(n, i)].Eating?)
    ensures forall i, j | 0 <= i < n && 0 <= j < n && InLock(s.pc[i]) && InLock(s.pc[j]) :: i == j
  {
    ReachableInv(n, m, s);
    forall i | 0 <= i < n
      ensures !(s.pc[i].Eating? && s.pc[Left(n, i)].Eating?) && (InLock(s.pc[i]) <==> s.owner == Some(i))
    {
      assert ChopstickInv(n, s, Left(n, i)) && ThreadInv(n, m, s, i);
    }
  }

  // What a waiting thread can rely on: it is in its queue, and its chopstick is either still held
  // by the other sharer or that sharer is inside the lock with the signal as its next step.
  ghost predicate WillBeSignalled(n: nat, s: State, i: nat, c: nat)
    requires Shape(n, s) && i < n && c < n
  {
    var j := Other(n, i, c);
    && s.queue[c] == [i] && j != i
    && if s.available[c] == 0 then Holds(n, j, s.pc[j], c)
       else s.pc[j].Freed? && Returned(n, j, s.pc[j].leg) == c && s.owner == Some(j)
  }

  lemma ParkedWillBeSignalled(n: nat, m: nat, s: State, i: nat)
    requires n >= 2 && Shape(n, s) && Inv(n, m, s) && i < n && s.pc[i].Parked?
    ensures WillBeSignalled(n, s, i, Target(n, i, s.pc[i].leg))
  {
    var c := Target(n, i, s.pc[i].leg);
    assert WaiterInv(n, s, i);
    HoldersOf(n, m, s, c);
    assert ThreadInv(n, m, s, Other(n, i, c));
  }

  // No wakeup is lost although releaseChopStick signals one waiter only: a chopstick has at most
  // one waiter, and every parked thread has a signal coming.
  lemma NoLostWakeup(n: nat, m: nat, s: State, i: nat)
    requires n >= 2 && i < n && Reachable(n, m, s)
    ensures Shape(n, s) && |s.queue[i]| <= 1
    ensures s.pc[i].Parked? ==> WillBeSignalled(n, s, i, Target(n, i, s.pc[i].leg))
  {
    ReachableInv(n, m, s);
    assert QueueInv(n, s, i);
    if s.pc[i].Parked? {
      ParkedWillBeSignalled(n, m, s, i);
    }
  }
}
