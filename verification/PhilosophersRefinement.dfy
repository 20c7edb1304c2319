/**
 The lock, the condition queues and the re-test after waiting implement an atomic "take the
 chopstick when it is free".
 */
module PhilosophersRefinement {
  import opened Common
  import opened Philosophers
  import opened PhilosophersSafety

  // The same dinner without lock, flags or queues: picking up a chopstick is one atomic step that
  // is possible exactly while nobody holds that chopstick.
  datatype APc = AThinking | AHungry(leg: Leg) | AEating | APutDown(leg: Leg) | AEaten | ADone

  datatype AState = AState(pc: seq<APc>, counter: seq<nat>, eaten: seq<nat>)

  ghost predicate AShape(n: nat, a: AState) { |a.pc| == |a.counter| == |a.eaten| == n }

  predicate AHolds(n: nat, i: nat, pc: APc, c: nat)
    requires i < n
  {
    var both := pc.AEating? || pc == APutDown(Fst);
    || (c == Target(n, i, Fst) && (both || pc == AHungry(Snd)))
    || (c == Target(n, i, Snd) && both)
    || (c == Left(n, i) && pc == APutDown(Snd))
  }

  ghost predicate AFree(n: nat, a: AState, c: nat)
    requires AShape(n, a)
  {
    forall j | 0 <= j < n :: !AHolds(n, j, a.pc[j], c)
  }

  ghost function AStep(n: nat, a: AState, i: nat): (r: Option<AState>)
    requires AShape(n, a)
    ensures r.Some? ==> AShape(n, r.value)
  {
    if i >= n then None
    else
      match a.pc[i]
      case AThinking => Some(a.(pc := a.pc[i := if a.counter[i] != 0 then AHungry(Fst) else ADone]))
      case AHungry(l) =>
        if AFree(n, a, Target(n, i, l))
        then Some(a.(pc := a.pc[i := if l.Fst? then AHungry(Snd) else AEating]))
        else None
      case AEating => Some(a.(pc := a.pc[i := APutDown(Fst)]))
      case APutDown(l) => Some(a.(pc := a.pc[i := if l.Fst? then APutDown(Snd) else AEaten]))
      case AEaten =>
        if a.counter[i] == 0 then None
        else Some(AState(a.pc[i := AThinking], a.counter[i := a.counter[i] - 1], a.eaten[i := a.eaten[i] + 1]))
      case ADone => None
  }

  ghost function AExec(n: nat, m: nat, order: seq<nat>): (r: Option<AState>)
    ensures r.Some? ==> AShape(n, r.value)
  {
    if order == [] then Some(AState(seq(n, _ => AThinking), seq(n, _ => m), seq(n, _ => 0)))
    else
      match AExec(n, m, order[..|order| - 1])
      case None => None
      case Some(a) => AStep(n, a, order[|order| - 1])
  }

  function AbsPc(pc: Pc): APc {
    match pc
    case Loop => AThinking
    case Took(l) => if l.Fst? then AHungry(Snd) else AEating
    case Eating => AEating
    case Give(l) => APutDown(l)
    case Freeing(l) => APutDown(l)
    case Freed(l) => if l.Fst? then APutDown(Snd) else AEaten
    case Signalled(l) => if l.Fst? then APutDown(Snd) else AEaten
    case Eaten => AEaten
    case Done => ADone
    case _ => AHungry(pc.leg)
  }

  function Abs(n: nat, s: State): (a: AState)
    requires |s.pc| == |s.counter| == |s.eaten| == n
    ensures AShape(n, a)
  {
    AState(seq(n, i requires 0 <= i < n => AbsPc(s.pc[i])), s.counter, s.eaten)
  }

  lemma SameHolders(n: nat, i: nat, pc: Pc, c: nat)
    requires n >= 2 && i < n
    ensures Holds(n, i, pc, c) == AHolds(n, i, AbsPc(pc), c)
  {
  }

  // One step of the monitor is one step of the atomic table or changes nothing there.
  lemma StepRefines(n: nat, m: nat, s: State, i: nat)
    requires n >= 2 && Shape(n, s) && Inv(n, m, s) && CanStep(n, s, i)
    ensures var a, a' := Abs(n, s), Abs(n, Step(n, s, i)); a' == a || AStep(n, a, i) == Some(a')
  {
    var s' := Step(n, s, i);
    var a, a' := Abs(n, s), Abs(n, s');
    assert ThreadInv(n, m, s, i);
    StepOthersStay(n, s, i);
    assert a'.pc == a.pc[i := AbsPc(s'.pc[i])];
    if s.pc[i].Taking? {
      var c := Target(n, i, s.pc[i].leg);
      HoldersOf(n, m, s, c);
      forall j | 0 <= j < n
        ensures !AHolds(n, j, a.pc[j], c)
      {
        SameHolders(n, j, s.pc[j], c);
        FreeHasNoHolder(n, m, s, j, c);
      }
      assert AFree(n, a, c);
    }
    StepEffect(n, s, i);
  }

  lemma FreeHasNoHolder(n: nat, m: nat, s: State, j: nat, c: nat)
    requires n >= 2 && Shape(n, s) && Inv(n, m, s) && j < n && c < n && s.available[c] == 1
    ensures !Holds(n, j, s.pc[j], c)
  {
    HoldersOf(n, m, s, c);
  }

  lemma StepEffect(n: nat, s: State, i: nat)
    requires Shape(n, s) && CanStep(n, s, i)
    requires s.pc[i].Eaten? ==> s.counter[i] > 0
    ensures var s' := Step(n, s, i);
            if s.pc[i].Eaten?
            then s'.counter == s.counter[i := s.counter[i] - 1] && s'.eaten == s.eaten[i := s.eaten[i] + 1]
            else s'.counter == s.counter && s'.eaten == s.eaten
  {
  }

  // Every state the monitor reaches is, seen from outside the lock, reached by the atomic table.
  lemma {:induction false} RefinesAtomicTable(n: nat, m: nat, acts: seq<Act>) returns (order: seq<nat>)
    requires n >= 2 && Exec(n, m, acts).Some?
    ensures AExec(n, m, order) == Some(Abs(n, Exec(n, m, acts).value))
  {
    var s' := Exec(n, m, acts).value;
    if acts == [] {
      order := [];
      assert Abs(n, s').pc == seq(n, _ => AThinking);
    } else {
      var before, act := acts[..|acts| - 1], acts[|acts| - 1];
      order := RefinesAtomicTable(n, m, before);
      ExecInv(n, m, before);
      var s := Exec(n, m, before).value;
      if act.Go? {
        StepRefines(n, m, s, act.i);
        if Abs(n, s') != Abs(n, s) {
          assert (order + [act.i])[..|order + [act.i]| - 1] == order;
          order := order + [act.i];
        }
      } else {
        assert Abs(n, s').pc == Abs(n, s).pc;
      }
    }
  }
}
