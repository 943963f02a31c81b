/**
 * The bounded control in front of the admission ledger: a shared semaphore slot is taken before
 * an acquirer may even ask the ledger, and is given back only after the permit (or the refused or
 * abandoned acquisition) it stands for is gone.
 */
module BoundedDispatch {
  import opened Prelude
  import opened Admission
  import opened AdmissionRuns

  const MAX_CONCURRENT_DISPATCHES: nat := 8

  /** `returning` counts semaphore permits whose holder is gone but which are not yet released. */
  datatype Bounded = Bounded(core: State, free: nat, returning: nat)

  datatype Move = TakeSlot | Inner(action: Action) | ReturnSlot

  predicate Possible(b: Bounded, m: Move) {
    match m
    case TakeSlot => b.free > 0
    case Inner(a) => !a.Arrive? && Enabled(b.core, a)
    case ReturnSlot => b.returning > 0
  }

  /** Whether this ledger step ends the thing that holds a semaphore slot. */
  predicate Frees(s: State, a: Action) {
    a.DropPermit? || a.Abandon? || (a.Check? && Decide(s.ledger, s.Late()).Refuse?)
  }

  function Make(b: Bounded, m: Move): Bounded
    requires Possible(b, m)
  {
    match m
    case TakeSlot => b.(core := Step(b.core, Arrive), free := b.free - 1)
    case Inner(a) => b.(core := Step(b.core, a), returning := b.returning + if Frees(b.core, a) then 1 else 0)
    case ReturnSlot => b.(free := b.free + 1, returning := b.returning - 1)
  }

  predicate CanMake(b: Bounded, moves: seq<Move>)
    decreases |moves|
  {
    moves == [] || (Possible(b, moves[0]) && CanMake(Make(b, moves[0]), moves[1..]))
  }

  function Made(b: Bounded, moves: seq<Move>): Bounded
    requires CanMake(b, moves)
    decreases |moves|
  {
    if moves == [] then b else Made(Make(b, moves[0]), moves[1..])
  }

  /** The ledger's own view of a bounded run. */
  function Project(moves: seq<Move>): seq<Action> {
    if moves == [] then []
    else
      (match moves[0]
       case TakeSlot => [Arrive]
       case Inner(a) => [a]
       case ReturnSlot => []) + Project(moves[1..])
  }

  /** The wrapper only ever restricts: each of its runs is a run of the ledger beneath it. */
  lemma {:induction false} BoundedRunIsALedgerRun(b: Bounded, moves: seq<Move>)
    requires CanMake(b, moves)
    ensures Runs(b.core, Project(moves)) && After(b.core, Project(moves)) == Made(b, moves).core
    ensures |Project(moves)| <= |moves|
    decreases |moves|
  {
    if moves != [] {
      BoundedRunIsALedgerRun(Make(b, moves[0]), moves[1..]);
      if !moves[0].ReturnSlot? {
        var a := if moves[0].TakeSlot? then Arrive else moves[0].action;
        assert Project(moves) == [a] + Project(moves[1..]);
      } else {
        assert Project(moves) == Project(moves[1..]);
      }
    }
  }

  function Pending(waiter: Waiter): int {
    if waiter.phase in {Checking, Parked} then 1 else 0
  }

  function Undropped(slot: Slot): int {
    if slot.dropped then 0 else 1
  }

  /** Every semaphore slot is free, on its way back, or held by one acquisition or one permit. */
  ghost predicate SlotsConserved(b: Bounded) {
    b.free + b.returning + Sum(b.core.waiters, Pending) + Sum(b.core.slots, Undropped)
      == MAX_CONCURRENT_DISPATCHES
  }

  lemma PendingMoves(s: State, a: Action)
    requires Enabled(s, a) && !a.Arrive?
    ensures Sum(Step(s, a).waiters, Pending) == Sum(s.waiters, Pending)
      - if a.Abandon? || (a.Check? && Decide(s.ledger, s.Late()) != Wait) then 1 else 0
  {
    var t := Step(s, a);
    match a {
      case Check(w) => SumUpdate(s.waiters, w, t.waiters[w], Pending);
      case Wake(w) => SumUpdate(s.waiters, w, t.waiters[w], Pending);
      case TimeOut(w) => SumUpdate(s.waiters, w, t.waiters[w], Pending);
      case Abandon(w) => SumUpdate(s.waiters, w, t.waiters[w], Pending);
      case _ =>
    }
  }

  lemma UndroppedMoves(s: State, a: Action)
    requires Enabled(s, a)
    ensures Sum(Step(s, a).slots, Undropped) == Sum(s.slots, Undropped)
      + (if a.Check? && Decide(s.ledger, s.Late()).Admit? then 1 else 0)
      - if a.DropPermit? then 1 else 0
  {
    StepMovesSums(s, a, Undropped);
  }

  lemma MoveConservesSlots(b: Bounded, m: Move)
    requires SlotsConserved(b) && Possible(b, m)
    ensures SlotsConserved(Make(b, m))
  {
    match m {
      case TakeSlot => SumAppend(b.core.waiters, Waiter(Checking, b.core.generation), Pending);
      case ReturnSlot =>
      case Inner(a) =>
        PendingMoves(b.core, a);
        UndroppedMoves(b.core, a);
    }
  }

  lemma {:induction false} PendingNonNegative(waiters: seq<Waiter>)
    ensures 0 <= Sum(waiters, Pending)
  {
    if waiters != [] {
      PendingNonNegative(waiters[..|waiters| - 1]);
    }
  }

  /** With the slots conserved, no more calls are reserved than there are slots. */
  lemma FewAreHeld(b: Bounded)
    requires SlotsConserved(b) && ReservedIsHeld(b.core)
    ensures Sum(b.core.slots, Undropped) <= MAX_CONCURRENT_DISPATCHES
    ensures b.core.ledger.reserved <= MAX_CONCURRENT_DISPATCHES
  {
    PendingNonNegative(b.core.waiters);
    SumMonotone(b.core.slots, Held, Undropped);
  }

  lemma MoveKeepsReserved(b: Bounded, m: Move)
    requires SlotsConserved(b) && ReservedIsHeld(b.core) && Possible(b, m)
    ensures ReservedIsHeld(Make(b, m).core)
  {
    FewAreHeld(b);
    match m {
      case TakeSlot => StepKeepsReserved(b.core, Arrive);
      case Inner(a) => StepKeepsReserved(b.core, a);
      case ReturnSlot =>
    }
  }

  lemma {:induction false} RunConservesSlots(b: Bounded, moves: seq<Move>)
    requires SlotsConserved(b) && ReservedIsHeld(b.core) && CanMake(b, moves)
    ensures SlotsConserved(Made(b, moves)) && ReservedIsHeld(Made(b, moves).core)
    decreases |moves|
  {
    hide SlotsConserved, ReservedIsHeld;
    if moves != [] {
      MoveConservesSlots(b, moves[0]);
      MoveKeepsReserved(b, moves[0]);
      RunConservesSlots(Make(b, moves[0]), moves[1..]);
    }
  }

  /** A job behind its bounded control, before anything has happened. */
  function Fresh(maxCalls: Option<word>, clock: nat, deadline: nat): Bounded {
    Bounded(Initial(maxCalls, clock, deadline), MAX_CONCURRENT_DISPATCHES, 0)
  }

  /**
   * Through the bounded control at most eight permits are ever outstanding, whether or not the job
   * has a call ceiling and however long it runs: the reserved calls are exactly the uncommitted
   * ones among them, nobody loses a wake-up, and a ceiling it started with still holds. A newcomer
   * is let through exactly while fewer than eight permits and acquisitions are live or on their way back.
   */
  lemma AtMostEightOutstanding(maxCalls: Option<word>, clock: nat, deadline: nat, moves: seq<Move>)
    requires CanMake(Fresh(maxCalls, clock, deadline), moves)
    ensures var b := Made(Fresh(maxCalls, clock, deadline), moves);
      var s := b.core;
      && Sum(s.slots, Undropped) <= 8
      && s.ledger.reserved == Sum(s.slots, Held) <= 8
      && (Possible(b, TakeSlot) <==> Sum(s.slots, Undropped) + Sum(s.waiters, Pending) + b.returning < 8)
      && NoLostWakeUp(s)
      && (maxCalls.Some? ==> Sum(s.slots, Sends) <= s.ledger.committed <= Load(s) <= maxCalls.value)
  {
    hide NoLostWakeUp;
    var start := Fresh(maxCalls, clock, deadline);
    RunConservesSlots(start, moves);
    FewAreHeld(Made(start, moves));
    BoundedRunIsALedgerRun(start, moves);
    ReachableStatesAreSound(maxCalls, clock, deadline, Project(moves));
    if maxCalls.Some? {
      CappedJobStaysUnderItsCap(maxCalls.value, clock, deadline, Project(moves));
    }
  }
}
