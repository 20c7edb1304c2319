/**
 Two threads that take turns through one atomic flag, and a main thread that starts them at a barrier
 and waits for both: all interleavings, for any number of rounds.
 */
module PingPong {
  import opened Common

  datatype Side = Ping | Pong
  datatype Line = Print(side: Side) | Done

  // Where a printing thread stands.
  datatype Pc = Start | Arrived | Test | Read | Printing | Counting | Signal | Finished
  // Where the main thread stands.
  datatype MainPc = MStart | MArrived | MWaiting | MDone

  datatype Thread = Thread(pc: Pc, printed: nat)

  datatype State = State(
    flag: int,
    ping: Thread,
    pong: Thread,
    main: MainPc,
    arrived: nat,        // threads that have reached the barrier
    trace: seq<Line>)    // everything printed

  datatype Act = Step(side: Side) | MainStep

  function Init(): State {
    State(0, Thread(Start, 0), Thread(Start, 0), MStart, 0, [])
  }

  function Of(s: State, side: Side): Thread { if side.Ping? then s.ping else s.pong }

  function With(s: State, side: Side, t: Thread): State {
    if side.Ping? then s.(ping := t) else s.(pong := t)
  }

  // The flag value that lets a side print.
  function Turn(side: Side): int { if side.Ping? then 0 else 1 }

  predicate CanAct(s: State, a: Act) {
    match a
    case Step(side) =>
      Of(s, side).pc != Finished && (Of(s, side).pc == Arrived ==> s.arrived == 3)
    case MainStep =>
      s.main != MDone && (s.main == MArrived ==> s.arrived == 3)
  }

  function ThreadStep(k: nat, s: State, side: Side): State {
    var t := Of(s, side);
    match t.pc
    case Start => With(s, side, t.(pc := Arrived)).(arrived := s.arrived + 1)
    case Arrived => With(s, side, t.(pc := Test))
    case Test => With(s, side, t.(pc := if t.printed < k then Read else Finished))
    case Read => With(s, side, t.(pc := if s.flag == Turn(side) then Printing else Test))
    case Printing => With(s, side, t.(pc := Counting)).(trace := s.trace + [Print(side)])
    case Counting => With(s, side, Thread(Signal, t.printed + 1))
    case Signal => With(s, side, t.(pc := Test)).(flag := if side.Ping? then s.flag + 1 else s.flag - 1)
    case Finished => s
  }

  function DoAct(k: nat, s: State, a: Act): State {
    match a
    case Step(side) => ThreadStep(k, s, side)
    case MainStep =>
      match s.main
      case MStart => s.(main := MArrived, arrived := s.arrived + 1)
      case MArrived => s.(main := MWaiting)
      case MWaiting =>
        if s.ping.pc == Finished && s.pong.pc == Finished then s.(main := MDone, trace := s.trace + [Done]) else s
      case MDone => s
  }

  ghost function Exec(k: nat, acts: seq<Act>): Option<State> {
    if acts == [] then Some(Init())
    else
      match Exec(k, acts[..|acts| - 1])
      case None => None
      case Some(s) => if CanAct(s, acts[|acts| - 1]) then Some(DoAct(k, s, acts[|acts| - 1])) else None
  }

  ghost predicate Reachable(k: nat, s: State) {
    exists acts :: Exec(k, acts) == Some(s)
  }

  // ---------- the invariant ----------

  // The first n lines of Ping, Pong, Ping, Pong, ...
  function Alternating(n: nat): seq<Line> {
    seq(n, i => Print(if i % 2 == 0 then Ping else Pong))
  }

  // Lines a side has printed, also when it has not counted the last one yet.
  function Lines(t: Thread): nat { t.printed + if t.pc == Counting then 1 else 0 }

  predicate InSection(t: Thread) { t.pc == Printing || t.pc == Counting || t.pc == Signal }

  // A side is one line ahead from its print until its signal.
  function Ahead(t: Thread): nat { if t.pc == Counting || t.pc == Signal then 1 else 0 }

  ghost predicate SideInv(k: nat, s: State, side: Side) {
    var t := Of(s, side);
    && (InSection(t) ==> s.flag == Turn(side))
    && t.printed <= k
    && (t.pc in {Start, Arrived} ==> t.printed == 0)
    && (t.pc in {Read, Printing, Counting} ==> t.printed < k)
    && (t.pc == Finished ==> t.printed == k)
    && (t.pc !in {Start, Arrived} ==> s.arrived == 3)
  }

  ghost predicate Inv(k: nat, s: State) {
    && (s.flag == 0 || s.flag == 1)
    && SideInv(k, s, Ping) && SideInv(k, s, Pong)
    && Lines(s.ping) == Lines(s.pong) + (if s.flag == 0 then Ahead(s.ping) else 1 - Ahead(s.pong))
    && s.trace == Alternating(Lines(s.ping) + Lines(s.pong)) + (if s.main == MDone then [Done] else [])
    && (s.main == MDone ==> s.ping.pc == Finished && s.pong.pc == Finished)
    && s.arrived == (if s.ping.pc == Start then 0 else 1) + (if s.pong.pc == Start then 0 else 1) +
                    (if s.main == MStart then 0 else 1)
  }

  lemma NextLine(p: nat, q: nat)
    ensures p == q ==> Alternating(p + q) + [Print(Ping)] == Alternating(p + q + 1)
    ensures p == q + 1 ==> Alternating(p + q) + [Print(Pong)] == Alternating(p + q + 1)
  {
  }

  lemma StepInv(k: nat, s: State, a: Act)
    requires Inv(k, s) && CanAct(s, a)
    ensures Inv(k, DoAct(k, s, a))
  {
    hide Inv, CanAct, ThreadStep;
    match a {
      case Step(Ping) => PingInv(k, s);
      case Step(Pong) => PongInv(k, s);
      case MainStep => MainInv(k, s);
    }
  }

  lemma PingInv(k: nat, s: State)
    requires Inv(k, s) && CanAct(s, Step(Ping))
    ensures Inv(k, ThreadStep(k, s, Ping))
  {
    hide Alternating;
    NextLine(Lines(s.ping), Lines(s.pong));
    match s.ping.pc { case Printing => case Signal => case Test => case Read => case _ => }
  }

  lemma PongInv(k: nat, s: State)
    requires Inv(k, s) && CanAct(s, Step(Pong))
    ensures Inv(k, ThreadStep(k, s, Pong))
  {
    hide Alternating;
    NextLine(Lines(s.ping), Lines(s.pong));
    match s.pong.pc { case Printing => case Signal => case Test => case Read => case _ => }
  }

  lemma MainInv(k: nat, s: State)
    requires Inv(k, s) && CanAct(s, MainStep)
    ensures Inv(k, DoAct(k, s, MainStep))
  {
    hide Alternating;
  }

  lemma {:induction false} ExecInv(k: nat, acts: seq<Act>)
    ensures Exec(k, acts).Some? ==> Inv(k, Exec(k, acts).value)
  {
    hide Inv, CanAct, DoAct;
    if acts == [] {
      assert Inv(k, Init()) by {
        StartInv(k);
      }
    } else if Exec(k, acts).Some? {
      ExecInv(k, acts[..|acts| - 1]);
      StepInv(k, Exec(k, acts[..|acts| - 1]).value, acts[|acts| - 1]);
    }
  }

  lemma StartInv(k: nat)
    ensures Inv(k, Init())
  {
  }

  lemma ReachableInv(k: nat, s: State)
    requires Reachable(k, s)
    ensures Inv(k, s)
  {
    var acts :| Exec(k, acts) == Some(s);
    ExecInv(k, acts);
  }

  // ---------- over every run ----------

  // What is printed is always a beginning of k times Ping Pong followed by Done, and it is all of it
  // as soon as Done is printed or main is through.
  lemma TraceAlternates(k: nat, s: State)
    requires Reachable(k, s)
    ensures |s.trace| <= 2 * k + 1
    ensures forall i | 0 <= i < |s.trace| ::
              s.trace[i] == if i == 2 * k then Done else if i % 2 == 0 then Print(Ping) else Print(Pong)
    ensures Done in s.trace || s.main == MDone ==> |s.trace| == 2 * k + 1
  {
    ReachableInv(k, s);
    var n := Lines(s.ping) + Lines(s.pong);
    assert n <= 2 * k;
    if s.main == MDone {
      assert n == 2 * k;
    }
  }

  // Nobody prints before both threads and main have come to the barrier.
  lemma BarrierHolds(k: nat, s: State)
    requires Reachable(k, s)
    ensures s.trace != [] ==> s.ping.pc != Start && s.pong.pc != Start && s.main != MStart && s.arrived == 3
  {
    ReachableInv(k, s);
  }

  // The two sections from the flag test to the signal exclude each other, and the thread that is in
  // one has the flag.
  lemma SectionsExclude(k: nat, s: State)
    requires Reachable(k, s)
    ensures !(s.ping.pc in {Printing, Counting, Signal} && s.pong.pc in {Printing, Counting, Signal})
    ensures s.ping.pc in {Printing, Counting, Signal} ==> s.flag == 0
    ensures s.pong.pc in {Printing, Counting, Signal} ==> s.flag == 1
  {
    ReachableInv(k, s);
  }

  // A step that only goes round a waiting loop.
  predicate Spins(k: nat, s: State, a: Act) {
    match a
    case Step(side) =>
      var t := Of(s, side);
      s.flag != Turn(side) && ((t.pc == Test && t.printed < k) || t.pc == Read)
    case MainStep => s.main == MWaiting && !(s.ping.pc == Finished && s.pong.pc == Finished)
  }

  // Until main is done some thread can take a step that does not spin.
  lemma ProgressIsPossible(k: nat, s: State)
    requires Reachable(k, s) && s.main != MDone
    ensures exists a :: CanAct(s, a) && !Spins(k, s, a)
  {
    ReachableInv(k, s);
    var turn := if s.flag == 0 then Ping else Pong;
    var other := if s.flag == 0 then Pong else Ping;
    if s.main == MStart {
      assert CanAct(s, MainStep) && !Spins(k, s, MainStep);
    } else if s.ping.pc == Start {
      assert CanAct(s, Step(Ping)) && !Spins(k, s, Step(Ping));
    } else if s.pong.pc == Start {
      assert CanAct(s, Step(Pong)) && !Spins(k, s, Step(Pong));
    } else if Of(s, turn).pc != Finished {
      assert CanAct(s, Step(turn)) && !Spins(k, s, Step(turn));
    } else if Of(s, other).pc != Finished {
      assert CanAct(s, Step(other)) && !Spins(k, s, Step(other));
    } else {
      assert CanAct(s, MainStep) && !Spins(k, s, MainStep);
    }
  }

  // ---------- how many steps are left ----------

  function Weight(k: nat, s: State, side: Side): int {
    var t := Of(s, side);
    var rest := 10 * (k - t.printed) + 1;
    match t.pc
    case Start => rest + 7
    case Arrived => rest + 6
    case Test => rest + if s.flag == Turn(side) then 2 else 0
    case Read => rest + if s.flag == Turn(side) then 1 else 0
    case Printing => rest - 1
    case Counting => rest - 2
    case Signal => rest + 4
    case Finished => 0
  }

  function MainWeight(m: MainPc): nat {
    match m case MStart => 3 case MArrived => 2 case MWaiting => 1 case MDone => 0
  }

  function Measure(k: nat, s: State): int {
    Weight(k, s, Ping) + Weight(k, s, Pong) + MainWeight(s.main)
  }

  lemma StepDrops(k: nat, s: State, a: Act)
    requires Inv(k, s) && CanAct(s, a)
    ensures Measure(k, DoAct(k, s, a)) <= Measure(k, s) - if Spins(k, s, a) then 0 else 1
  {
    hide Inv, CanAct, ThreadStep, Measure, Spins;
    match a {
      case Step(side) => SideDrops(k, s, side);
      case MainStep => MainDrops(k, s);
    }
  }

  lemma SideDrops(k: nat, s: State, side: Side)
    requires Inv(k, s) && CanAct(s, Step(side))
    ensures Measure(k, ThreadStep(k, s, side)) <= Measure(k, s) - if Spins(k, s, Step(side)) then 0 else 1
  {
    hide Alternating;
    var s' := ThreadStep(k, s, side);
    OtherGains(k, s, side);
    assert Weight(k, s', side) <= Weight(k, s, side) - (if Of(s, side).pc == Signal then 4 else 0) -
             if Spins(k, s, Step(side)) then 0 else if Of(s, side).pc == Signal then 0 else 1;
  }

  // The other side gains at most 2, and only from a signal.
  lemma OtherGains(k: nat, s: State, side: Side)
    requires Inv(k, s) && CanAct(s, Step(side))
    ensures var other := if side.Ping? then Pong else Ping;
            Weight(k, ThreadStep(k, s, side), other) <=
              Weight(k, s, other) + if Of(s, side).pc == Signal then 2 else 0
  {
    hide Alternating;
  }

  lemma MainDrops(k: nat, s: State)
    requires Inv(k, s) && CanAct(s, MainStep)
    ensures Measure(k, DoAct(k, s, MainStep)) <= Measure(k, s) - if Spins(k, s, MainStep) then 0 else 1
  {
    hide Alternating;
  }

  // The steps of a schedule that do not spin.
  ghost function Moves(k: nat, acts: seq<Act>): nat {
    if acts == [] then 0
    else
      var before := Exec(k, acts[..|acts| - 1]);
      Moves(k, acts[..|acts| - 1]) +
      if before.Some? && !Spins(k, before.value, acts[|acts| - 1]) then 1 else 0
  }

  // However long the threads spin, a run has only so many other steps.
  lemma {:induction false} MovesAreBounded(k: nat, acts: seq<Act>)
    requires Exec(k, acts).Some?
    ensures Moves(k, acts) + Measure(k, Exec(k, acts).value) <= 20 * k + 19
    ensures Moves(k, acts) <= 20 * k + 19
  {
    hide Inv, CanAct, DoAct, Spins;
    ExecInv(k, acts);
    if acts != [] {
      var before := acts[..|acts| - 1];
      MovesAreBounded(k, before);
      ExecInv(k, before);
      StepDrops(k, Exec(k, before).value, acts[|acts| - 1]);
    }
    NeverNegative(k, Exec(k, acts).value);
  }

  lemma NeverNegative(k: nat, s: State)
    requires Inv(k, s)
    ensures Measure(k, s) >= 0
  {
  }
}
