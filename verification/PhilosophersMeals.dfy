/**
 What a philosopher does at the table, seen from outside: which chopsticks it takes and puts down,
 read off the flags, and when it eats.
 */
module PhilosophersMeals {
  import opened Common
  import opened Philosophers
  import opened PhilosophersSafety
  import opened PhilosophersLiveness

  datatype Event = Up(chopstick: nat) | Down(chopstick: nat) | Eat

  function Changed(before: seq<int>, after: seq<int>, c: nat): seq<Event>
    requires c < |before| && c < |after|
  {
    if before[c] == 1 && after[c] == 0 then [Up(c)]
    else if before[c] == 0 && after[c] == 1 then [Down(c)]
    else []
  }

  // What thread i did to its own chopstick and to the next one, and whether it ate.
  function EventsOf(n: nat, s: State, s': State, i: nat): seq<Event>
    requires i < n && |s.available| == |s'.available| == |s.pc| == |s'.pc| == n
  {
    Changed(s.available, s'.available, i) + Changed(s.available, s'.available, (i + 1) % n) +
    if s.pc[i] == Eating && s'.pc[i] != Eating then [Eat] else []
  }

  ghost function Log(n: nat, m: nat, acts: seq<Act>, i: nat): seq<Event>
    requires i < n
  {
    if acts == [] || Exec(n, m, acts).None? then []
    else
      Log(n, m, acts[..|acts| - 1], i) +
      if acts[|acts| - 1] == Go(i)
      then EventsOf(n, Exec(n, m, acts[..|acts| - 1]).value, Exec(n, m, acts).value, i)
      else []
  }

  // One meal of the philosopher with number i + 1: an even one picks up the left chopstick first, an
  // odd one the right one, and both put down the right one first.
  function Meal(n: nat, i: nat): seq<Event>
    requires i < n
  {
    var right, left := i, (i + 1) % n;
    if (i + 1) % 2 == 0 then [Up(left), Up(right), Eat, Down(right), Down(left)]
    else [Up(right), Up(left), Eat, Down(right), Down(left)]
  }

  function Meals(n: nat, i: nat, k: nat): seq<Event>
    requires i < n
  {
    if k == 0 then [] else Meals(n, i, k - 1) + Meal(n, i)
  }

  // How much of the current meal is behind a thread.
  function Progress(pc: Pc): (p: nat)
    ensures p <= 5
  {
    match pc
    case Took(Fst) => 1
    case Want(Snd) => 1
    case Test(Snd) => 1
    case Parking(Snd) => 1
    case Parked(Snd) => 1
    case Woken(Snd) => 1
    case Taking(Snd) => 1
    case Took(Snd) => 2
    case Eating => 2
    case Give(Fst) => 3
    case Freeing(Fst) => 3
    case Freed(Fst) => 4
    case Signalled(Fst) => 4
    case Give(Snd) => 4
    case Freeing(Snd) => 4
    case Freed(Snd) => 5
    case Signalled(Snd) => 5
    case Eaten => 5
    case _ => 0
  }

  lemma MealPart(n: nat, i: nat, p: nat)
    requires i < n && p < 5
    ensures Meal(n, i)[..p + 1] == Meal(n, i)[..p] + [Meal(n, i)[p]]
  {
  }

  // The flags of the two chopsticks where a step changes them.
  lemma OwnFlags(n: nat, m: nat, s: State, i: nat)
    requires n >= 2 && Shape(n, s) && Inv(n, m, s) && i < n
    ensures s.pc[i].Taking? ==> s.available[Target(n, i, s.pc[i].leg)] == 1
    ensures s.pc[i].Freeing? ==> s.available[Returned(n, i, s.pc[i].leg)] == 0
    ensures s.pc[i].Eating? ==> s.available[i] == 0 && s.available[(i + 1) % n] == 0
    ensures (i + 1) % n != i
  {
    assert ThreadInv(n, m, s, i);
    assert ChopstickInv(n, s, i) && ChopstickInv(n, s, Left(n, i));
    assert Prev(n, Left(n, i)) == i;
  }

  lemma TakingStep(n: nat, m: nat, s: State, i: nat)
    requires n >= 2 && Shape(n, s) && Inv(n, m, s) && CanStep(n, s, i) && s.pc[i].Taking?
    ensures var s' := Step(n, s, i);
            s'.eaten[i] == s.eaten[i] && EventsOf(n, s, s', i) == [Up(Target(n, i, s.pc[i].leg))]
  {
    OwnFlags(n, m, s, i);
  }

  lemma FreeingStep(n: nat, m: nat, s: State, i: nat)
    requires n >= 2 && Shape(n, s) && Inv(n, m, s) && CanStep(n, s, i) && s.pc[i].Freeing?
    ensures var s' := Step(n, s, i);
            s'.eaten[i] == s.eaten[i] && EventsOf(n, s, s', i) == [Down(Returned(n, i, s.pc[i].leg))]
  {
    OwnFlags(n, m, s, i);
  }

  // Where the other steps lead, and that they leave the flags alone.
  lemma OtherFlags(n: nat, s: State, i: nat)
    requires Shape(n, s) && CanStep(n, s, i) && !s.pc[i].Taking? && !s.pc[i].Freeing?
    ensures Step(n, s, i).available == s.available
  {
    StepChopsticksMove(n, s, i);
  }

  lemma OtherProgress(n: nat, s: State, i: nat)
    requires Shape(n, s) && CanStep(n, s, i) && !s.pc[i].Taking? && !s.pc[i].Freeing?
    ensures var s' := Step(n, s, i);
            && (s.pc[i].Eating? ==> s'.pc[i] == Give(Fst))
            && s'.eaten[i] == s.eaten[i] + (if s.pc[i].Eaten? then 1 else 0)
            && Progress(s'.pc[i]) == (if s.pc[i].Eating? then 3 else if s.pc[i].Eaten? then 0 else Progress(s.pc[i]))
  {
  }

  lemma OtherStep(n: nat, s: State, i: nat)
    requires Shape(n, s) && CanStep(n, s, i) && !s.pc[i].Taking? && !s.pc[i].Freeing?
    ensures EventsOf(n, s, Step(n, s, i), i) == if s.pc[i].Eating? then [Eat] else []
  {
    hide Step, CanStep;
    OtherFlags(n, s, i);
    OtherProgress(n, s, i);
  }

  lemma UpIs(n: nat, i: nat, leg: Leg)
    requires i < n
    ensures var p := if leg.Fst? then 0 else 1;
            Meal(n, i)[..p + 1] == Meal(n, i)[..p] + [Up(Target(n, i, leg))] &&
            Progress(Taking(leg)) == p && Progress(Took(leg)) == p + 1
  {
    MealPart(n, i, if leg.Fst? then 0 else 1);
  }

  lemma DownIs(n: nat, i: nat, leg: Leg)
    requires i < n
    ensures var p := if leg.Fst? then 3 else 4;
            Meal(n, i)[..p + 1] == Meal(n, i)[..p] + [Down(Returned(n, i, leg))] &&
            Progress(Freeing(leg)) == p && Progress(Freed(leg)) == p + 1
  {
    MealPart(n, i, if leg.Fst? then 3 else 4);
  }

  lemma EatIs(n: nat, i: nat)
    requires i < n
    ensures Meal(n, i)[..3] == Meal(n, i)[..2] + [Eat] && Meal(n, i)[..5] == Meal(n, i) && Meal(n, i)[..0] == []
    ensures Progress(Eating) == 2 && Progress(Eaten) == 5
  {
    MealPart(n, i, 2);
  }

  lemma WhereTo(n: nat, s: State, i: nat)
    requires Shape(n, s) && CanStep(n, s, i)
    ensures s.pc[i].Taking? ==> Step(n, s, i).pc[i] == Took(s.pc[i].leg)
    ensures s.pc[i].Freeing? ==> Step(n, s, i).pc[i] == Freed(s.pc[i].leg)
  {
  }

  // A step of the thread itself goes on with the meal by what it does.
  lemma OwnStep(n: nat, m: nat, s: State, i: nat)
    requires n >= 2 && Shape(n, s) && Inv(n, m, s) && CanStep(n, s, i)
    ensures var s' := Step(n, s, i);
            Meals(n, i, s'.eaten[i]) + Meal(n, i)[..Progress(s'.pc[i])] ==
            Meals(n, i, s.eaten[i]) + Meal(n, i)[..Progress(s.pc[i])] + EventsOf(n, s, s', i)
  {
    IsPhilosopher(n, s, i);
    hide Step, CanStep, Inv, Meal, Progress, EventsOf;
    WhereTo(n, s, i);
    if s.pc[i].Taking? {
      TakingStep(n, m, s, i);
      UpIs(n, i, s.pc[i].leg);
    } else if s.pc[i].Freeing? {
      FreeingStep(n, m, s, i);
      DownIs(n, i, s.pc[i].leg);
    } else {
      OtherStep(n, s, i);
      OtherProgress(n, s, i);
      EatIs(n, i);
    }
  }

  lemma IsPhilosopher(n: nat, s: State, i: nat)
    requires Shape(n, s) && CanStep(n, s, i)
    ensures i < n
  {
  }

  lemma SpuriousStays(n: nat, s: State, k: nat, i: nat)
    requires Shape(n, s) && k < n && i < n && s.pc[k].Parked?
    ensures var s' := SpuriousWake(n, s, k);
            s'.eaten == s.eaten && Progress(s'.pc[i]) == Progress(s.pc[i])
  {
  }

  // In every run each philosopher has gone through its meals one after the other: as many whole
  // meals as it has eaten, and of the next one the part that its program counter says.
  lemma {:induction false} LogIs(n: nat, m: nat, acts: seq<Act>, i: nat)
    requires n >= 2 && i < n && Exec(n, m, acts).Some?
    ensures var s := Exec(n, m, acts).value;
            Log(n, m, acts, i) == Meals(n, i, s.eaten[i]) + Meal(n, i)[..Progress(s.pc[i])]
  {
    hide Step, Meal, Progress, EventsOf, CanStep, Inv;
    if acts == [] {
      assert Progress(Loop) == 0 by {
        AtTheStart();
      }
    } else {
      var front, a := acts[..|acts| - 1], acts[|acts| - 1];
      LogIs(n, m, front, i);
      ExecInv(n, m, front);
      var s := Exec(n, m, front).value;
      match a {
        case Go(k) =>
          if k == i {
            OwnStep(n, m, s, i);
          } else {
            StepOthersStay(n, s, k);
            SameProgress(s.pc[i], DoAct(n, s, a).pc[i]);
          }
        case Spur(k) =>
          SpuriousStays(n, s, k, i);
      }
    }
  }

  lemma AtTheStart()
    ensures Progress(Loop) == 0
  {
  }

  lemma SameProgress(pc: Pc, pc': Pc)
    requires pc' == pc || (pc.Parked? && pc' == Woken(pc.leg))
    ensures Progress(pc') == Progress(pc)
  {
  }

  // When the dinner is over every philosopher has had exactly m meals, each with both chopsticks.
  lemma AllMealsServed(n: nat, m: nat, acts: seq<Act>, i: nat)
    requires n >= 2 && i < n && Exec(n, m, acts).Some? && Stuck(n, Exec(n, m, acts).value)
    ensures Log(n, m, acts, i) == Meals(n, i, m)
  {
    var s := Exec(n, m, acts).value;
    assert Reachable(n, m, s);
    StuckMeansDone(n, m, s);
    assert s.pc[i].Done?;
    LogIs(n, m, acts, i);
    assert Meal(n, i)[..0] == [];
  }

  // Whoever eats has both chopsticks.
  lemma EatsWithBoth(n: nat, m: nat, s: State, i: nat)
    requires n >= 2 && i < n && Reachable(n, m, s)
    ensures Shape(n, s)
    ensures s.pc[i] == Eating ==> s.available[i] == 0 && s.available[(i + 1) % n] == 0
  {
    ReachableInv(n, m, s);
    OwnFlags(n, m, s, i);
  }
}
