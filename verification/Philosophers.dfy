/**
 The dining-philosophers monitor: one lock, one condition queue per chopstick, an
 `available` flag per chopstick, and a pick-up order that depends on the parity of the
 philosopher's number.  Every thread is a program counter; a run is any interleaving of
 single thread steps, and also of spurious wakeups, which `Condition.await` permits.

 Philosopher number `i + 1` of the program has index `i` here, and so has its right
 chopstick; chopstick numbers are indexes into `available`, exactly as the program uses them.
 */
module Philosophers {
  import opened Common

  datatype Leg = Fst | Snd

  // Where a philosopher thread stands.  `Want` .. `Took` is getChopStick, once for each leg;
  // `Give` .. `Signalled` is releaseChopStick, the right chopstick before the left one.
  datatype Pc =
    | Loop                 // about to test the meal counter
    | Want(leg: Leg)       // about to take the lock
    | Test(leg: Leg)       // in the lock, about to test `available`
    | Parking(leg: Leg)    // in the lock, found the chopstick taken, about to await
    | Parked(leg: Leg)     // waiting on the chopstick's condition, lock released
    | Woken(leg: Leg)      // signalled, has to take the lock again
    | Taking(leg: Leg)     // in the lock, found the chopstick free, about to clear the flag
    | Took(leg: Leg)       // in the lock, flag cleared, about to unlock
    | Eating
    | Give(leg: Leg)       // about to take the lock
    | Freeing(leg: Leg)    // in the lock, about to set the flag
    | Freed(leg: Leg)      // in the lock, flag set, about to signal
    | Signalled(leg: Leg)  // in the lock, about to unlock
    | Eaten                // about to decrement the counter
    | Done

  datatype State = State(
    pc: seq<Pc>,
    counter: seq<nat>,     // meals still to eat
    eaten: seq<nat>,       // history: meals finished
    available: seq<int>,
    queue: seq<seq<nat>>,  // condition queue of each chopstick, oldest waiter first
    owner: Option<nat>)    // holder of the lock

  // ---------- the table ----------

  function Right(i: nat): nat { i }

  function Left(n: nat, i: nat): (c: nat)
    requires i < n
    ensures c == (if i + 1 == n then 0 else i + 1)
  {
    (i + 1) % n
  }

  function Prev(n: nat, c: nat): (i: nat)
    requires c < n
    ensures i < n && Left(n, i) == c
  {
    if c == 0 then n - 1 else c - 1
  }

  // An even-numbered philosopher picks up the left chopstick first.
  predicate RightFirst(i: nat) { (i + 1) % 2 != 0 }

  // The chopstick that getChopStick is called with on each leg.
  function Target(n: nat, i: nat, leg: Leg): (c: nat)
    requires i < n
    ensures c < n
  {
    if RightFirst(i) == leg.Fst? then Right(i) else Left(n, i)
  }

  // The chopstick that releaseChopStick is called with on each leg.
  function Returned(n: nat, i: nat, leg: Leg): (c: nat)
    requires i < n
    ensures c < n
  {
    if leg.Fst? then Right(i) else Left(n, i)
  }

  ghost predicate Shape(n: nat, s: State) {
    && |s.pc| == |s.counter| == |s.eaten| == |s.available| == |s.queue| == n
    && forall c, k | 0 <= c < n && 0 <= k < |s.queue[c]| :: s.queue[c][k] < n
  }

  function Init(n: nat, m: nat): State {
    State(seq(n, _ => Loop), seq(n, _ => m), seq(n, _ => 0), seq(n, _ => 1), seq(n, _ => []), None)
  }

  // ---------- one step of one thread ----------

  predicate InLock(pc: Pc) {
    pc.Test? || pc.Parking? || pc.Taking? || pc.Took? || pc.Freeing? || pc.Freed? || pc.Signalled?
  }

  ghost predicate CanStep(n: nat, s: State, i: nat)
    requires Shape(n, s)
  {
    && i < n
    && match s.pc[i] {
         case Done => false
         case Parked(_) => false
         case Want(_) => s.owner.None?
         case Woken(_) => s.owner.None?
         case Give(_) => s.owner.None?
         case _ => true
       }
  }

  function Without(q: seq<nat>, i: nat): (r: seq<nat>)
    ensures forall k | 0 <= k < |r| :: r[k] in q && r[k] != i
  {
    if q == [] then [] else if q[0] == i then Without(q[1..], i) else [q[0]] + Without(q[1..], i)
  }

  function Goto(s: State, i: nat, pc: Pc): State
    requires i < |s.pc|
  {
    s.(pc := s.pc[i := pc])
  }

  function Step(n: nat, s: State, i: nat): (s': State)
    requires Shape(n, s) && CanStep(n, s, i)
    ensures Shape(n, s')
  {
    match s.pc[i] {
      case Loop => if s.counter[i] != 0 then Goto(s, i, Want(Fst)) else Goto(s, i, Done)
      case Want(l) => Goto(s, i, Test(l)).(owner := Some(i))
      case Woken(l) => Goto(s, i, Test(l)).(owner := Some(i))
      case Test(l) =>
        if s.available[Target(n, i, l)] == 0 then Goto(s, i, Parking(l)) else Goto(s, i, Taking(l))
      case Parking(l) =>
        var c := Target(n, i, l);
        Goto(s, i, Parked(l)).(owner := None, queue := s.queue[c := s.queue[c] + [i]])
      case Taking(l) =>
        Goto(s, i, Took(l)).(available := s.available[Target(n, i, l) := 0])
      case Took(Fst) => Goto(s, i, Want(Snd)).(owner := None)
      case Took(Snd) => Goto(s, i, Eating).(owner := None)
      case Eating => Goto(s, i, Give(Fst))
      case Give(l) => Goto(s, i, Freeing(l)).(owner := Some(i))
      case Freeing(l) =>
        Goto(s, i, Freed(l)).(available := s.available[Returned(n, i, l) := 1])
      case Freed(l) => Signal(n, Goto(s, i, Signalled(l)), Returned(n, i, l))
      case Signalled(Fst) => Goto(s, i, Give(Snd)).(owner := None)
      case Signalled(Snd) => Goto(s, i, Eaten).(owner := None)
      case Eaten =>
        Goto(s, i, Loop).(counter := s.counter[i := if s.counter[i] == 0 then 0 else s.counter[i] - 1],
                          eaten := s.eaten[i := s.eaten[i] + 1])
    }
  }

  // Condition.signal: the longest waiter, if any, leaves the queue and contends for the lock.
  function Signal(n: nat, s: State, c: nat): (s': State)
    requires Shape(n, s) && c < n
    ensures Shape(n, s')
  {
    if s.queue[c] == [] then s
    else
      var w := s.queue[c][0];
      var woken := if s.pc[w].Parked? then Goto(s, w, Woken(s.pc[w].leg)) else s;
      woken.(queue := s.queue[c := s.queue[c][1..]])
  }

  // A wakeup that nobody signalled.
  function SpuriousWake(n: nat, s: State, i: nat): (s': State)
    requires Shape(n, s) && i < n && s.pc[i].Parked?
    ensures Shape(n, s')
  {
    var c := Target(n, i, s.pc[i].leg);
    Goto(s, i, Woken(s.pc[i].leg)).(queue := s.queue[c := Without(s.queue[c], i)])
  }

  // ---------- runs ----------

  datatype Act = Go(i: nat) | Spur(i: nat)

  ghost predicate CanAct(n: nat, s: State, a: Act)
    requires Shape(n, s)
  {
    match a
    case Go(i) => CanStep(n, s, i)
    case Spur(i) => i < n && s.pc[i].Parked?
  }

  ghost function DoAct(n: nat, s: State, a: Act): (s': State)
    requires Shape(n, s) && CanAct(n, s, a)
    ensures Shape(n, s')
  {
    match a
    case Go(i) => Step(n, s, i)
    case Spur(i) => SpuriousWake(n, s, i)
  }

  // The state a schedule leads to, or None when the schedule asks for a step that is not enabled.
  ghost function Exec(n: nat, m: nat, acts: seq<Act>): (r: Option<State>)
    ensures r.Some? ==> Shape(n, r.value)
  {
    if acts == [] then Some(Init(n, m))
    else
      match Exec(n, m, acts[..|acts| - 1])
      case None => None
      case Some(s) =>
        var a := acts[|acts| - 1];
        if CanAct(n, s, a) then Some(DoAct(n, s, a)) else None
  }

  function Spurious(acts: seq<Act>): nat {
    if acts == [] then 0
    else Spurious(acts[..|acts| - 1]) + if acts[|acts| - 1].Spur? then 1 else 0
  }

  // ---------- who holds what, read off the program counters ----------

  function Got(pc: Pc): nat {
    match pc
    case Took(Fst) => 1
    case Want(Snd) => 1
    case Test(Snd) => 1
    case Parking(Snd) => 1
    case Parked(Snd) => 1
    case Woken(Snd) => 1
    case Taking(Snd) => 1
    case Took(Snd) => 2
    case Eating => 2
    case Give(_) => 2
    case Freeing(_) => 2
    case Freed(_) => 2
    case Signalled(_) => 2
    case Eaten => 2
    case _ => 0
  }

  function GivenBack(pc: Pc): nat {
    match pc
    case Freed(Fst) => 1
    case Signalled(Fst) => 1
    case Give(Snd) => 1
    case Freeing(Snd) => 1
    case Freed(Snd) => 2
    case Signalled(Snd) => 2
    case Eaten => 2
    case _ => 0
  }

  predicate HoldsRight(i: nat, pc: Pc) {
    Got(pc) >= (if RightFirst(i) then 1 else 2) && GivenBack(pc) < 1
  }

  predicate HoldsLeft(i: nat, pc: Pc) {
    Got(pc) >= (if RightFirst(i) then 2 else 1) && GivenBack(pc) < 2
  }

  predicate Holds(n: nat, i: nat, pc: Pc, c: nat)
    requires i < n
  {
    (c == Right(i) && HoldsRight(i, pc)) || (c == Left(n, i) && HoldsLeft(i, pc))
  }
}
