/**
 * Every interleaving of acquirers, permits, the owner and the clock over one admission ledger.
 * A critical section is one step. The wake-up that follows it is a later step of its own, so
 * `owed` counts the tasks that have left the lock and not yet bumped the generation.
 */
module AdmissionRuns {
  import opened Prelude
  import opened Admission

  /** A permit and whether its owner has dropped it. */
  datatype Slot = Slot(permit: Permit, dropped: bool)

  /** `Checking` is between subscribing (or waking) and the lock; `Parked` is inside the select. */
  datatype Phase = Checking | Parked | Admitted | Turned(refusal: Refusal) | Gone

  datatype Waiter = Waiter(phase: Phase, seen: nat)

  datatype State = State(
    ledger: Ledger, slots: seq<Slot>, waiters: seq<Waiter>,
    generation: nat, owed: nat, clock: nat, deadline: nat)
  {
    predicate Late() { clock >= deadline }
  }

  datatype Action =
    | Arrive                        // acquire() is called and subscribes
    | Check(waiter: nat)            // one pass under the lock
    | Wake(waiter: nat)             // the select sees a newer generation
    | TimeOut(waiter: nat)          // the select's deadline timer fires
    | Abandon(waiter: nat)          // the caller drops the acquire future
    | MarkDispatched(slot: nat)
    | MarkAttempt(slot: nat)
    | DropPermit(slot: nat)
    | Bump                          // a task pays the wake-up it owes
    | Cancel
    | Restrict(limit: word)
    | Tick(now: nat)

  predicate Live(s: State, slot: nat) {
    slot < |s.slots| && !s.slots[slot].dropped
  }

  predicate InPhase(s: State, waiter: nat, phase: Phase) {
    waiter < |s.waiters| && s.waiters[waiter].phase == phase
  }

  predicate Enabled(s: State, a: Action) {
    match a
    case Arrive => true
    case Check(w) => InPhase(s, w, Checking)
    case Wake(w) => InPhase(s, w, Parked) && s.waiters[w].seen < s.generation
    case TimeOut(w) => InPhase(s, w, Parked) && s.Late()
    case Abandon(w) => InPhase(s, w, Checking) || InPhase(s, w, Parked)
    case MarkDispatched(p) => Live(s, p)
    case MarkAttempt(p) => Live(s, p)
    case DropPermit(p) => Live(s, p)
    case Bump => s.owed > 0
    case Cancel => true
    case Restrict(_) => true
    case Tick(now) => now >= s.clock
  }

  function Owing(s: State, bump: bool): nat {
    s.owed + if bump then 1 else 0
  }

  function Settle(s: State, slot: nat, outcome: Outcome, dropped: bool): State
    requires slot < |s.slots|
  {
    s.(ledger := outcome.ledger,
       slots := s.slots[slot := Slot(outcome.permit, dropped)],
       owed := Owing(s, outcome.bump))
  }

  function Resolve(s: State, w: nat): State
    requires w < |s.waiters|
  {
    var decision := Decide(s.ledger, s.Late());
    var phase := match decision
      case Admit => Admitted
      case Refuse(r) => Turned(r)
      case Wait => Parked;
    s.(ledger := AfterDecision(s.ledger, decision),
       slots := if decision.Admit? then s.slots + [Slot(Permit(Reserved, 0), false)] else s.slots,
       waiters := s.waiters[w := s.waiters[w].(phase := phase)])
  }

  function Step(s: State, a: Action): State
    requires Enabled(s, a)
  {
    match a
    case Arrive => s.(waiters := s.waiters + [Waiter(Checking, s.generation)])
    case Check(w) => Resolve(s, w)
    case Wake(w) => s.(waiters := s.waiters[w := Waiter(Checking, s.generation)])
    case TimeOut(w) => s.(waiters := s.waiters[w := s.waiters[w].(phase := Checking)])
    case Abandon(w) => s.(waiters := s.waiters[w := s.waiters[w].(phase := Gone)])
    case MarkDispatched(p) => Settle(s, p, Dispatch(s.ledger, s.slots[p].permit, s.Late()), false)
    case MarkAttempt(p) => Settle(s, p, Attempt(s.ledger, s.slots[p].permit, s.Late()), false)
    case DropPermit(p) => Settle(s, p, Retire(s.ledger, s.slots[p].permit), true)
    case Bump => s.(owed := s.owed - 1, generation := s.generation + 1)
    case Cancel => s.(ledger := s.ledger.(cancelled := true), owed := Owing(s, !s.ledger.cancelled))
    case Restrict(limit) =>
      var tightened := Tighten(s.ledger, limit);
      s.(ledger := tightened, owed := Owing(s, tightened.maxCalls != s.ledger.maxCalls))
    case Tick(now) => s.(clock := now)
  }

  function Initial(maxCalls: Option<word>, clock: nat, deadline: nat): State {
    State(Ledger(0, 0, false, maxCalls), [], [], 0, 0, clock, deadline)
  }

  /** `run` can be taken from `s`, one enabled step after another. */
  predicate Runs(s: State, run: seq<Action>)
    decreases |run|
  {
    run == [] || (Enabled(s, run[0]) && Runs(Step(s, run[0]), run[1..]))
  }

  function After(s: State, run: seq<Action>): State
    requires Runs(s, run)
    decreases |run|
  {
    if run == [] then s else After(Step(s, run[0]), run[1..])
  }

  lemma {:induction false} RunsCompose(s: State, first: seq<Action>, second: seq<Action>)
    requires Runs(s, first) && Runs(After(s, first), second)
    ensures Runs(s, first + second) && After(s, first + second) == After(After(s, first), second)
    decreases |first|
  {
    if first == [] {
      assert first + second == second;
    } else {
      RunsCompose(Step(s, first[0]), first[1..], second);
      assert (first + second)[1..] == first[1..] + second;
    }
  }

  lemma OneStep(s: State, a: Action)
    requires Enabled(s, a)
    ensures Runs(s, [a]) && After(s, [a]) == Step(s, a)
  {
    assert [a][1..] == [];
    assert After(Step(s, a), []) == Step(s, a);
  }

  // ----- What every reachable state satisfies -----

  /** The reservation a slot still holds. */
  function Held(slot: Slot): int {
    if !slot.dropped && slot.permit.tag != Committed then 1 else 0
  }

  /** What a slot has spent: one for the dispatch, one more for each physical send past the first. */
  function Charge(slot: Slot): int {
    if slot.permit.tag == Committed then Max(1, slot.permit.attempts) else 0
  }

  function Sends(slot: Slot): int {
    slot.permit.attempts
  }

  ghost predicate ReservedIsHeld(s: State) {
    s.ledger.reserved == Sum(s.slots, Held)
  }

  ghost predicate CommittedIsCharged(s: State) {
    s.ledger.committed == Sum(s.slots, Charge)
  }

  /** The ledger's two counters are what the permits say they are. */
  ghost predicate Conserved(s: State) {
    ReservedIsHeld(s) && CommittedIsCharged(s) && TagsHonest(s)
  }

  predicate TagsHonest(s: State) {
    forall p :: 0 <= p < |s.slots| ==>
      && (s.slots[p].permit.tag != Committed ==> s.slots[p].permit.attempts == 0)
      && (s.slots[p].permit.tag == Released ==> s.slots[p].dropped)
  }

  /**
   * Nobody sleeps through a change that concerns them: a parked acquirer whose next pass would
   * admit or refuse it has a newer generation to see, a bump still owed to it, or its timer due.
   */
  predicate NoLostWakeUp(s: State) {
    forall w :: 0 <= w < |s.waiters| && s.waiters[w].phase == Parked ==>
      || s.waiters[w].seen < s.generation
      || s.owed > 0
      || s.Late()
      || Decide(s.ledger, s.Late()) == Wait
  }

  predicate SeenThePast(s: State) {
    forall w :: 0 <= w < |s.waiters| ==> s.waiters[w].seen <= s.generation
  }

  function Load(s: State): nat {
    s.ledger.committed + s.ledger.reserved
  }

  /** A live uncommitted slot is counted, so the refund below it cannot saturate. */
  lemma {:induction false} SlotCounts(slots: seq<Slot>, p: nat)
    requires p < |slots|
    ensures Held(slots[p]) <= Sum(slots, Held) && Charge(slots[p]) <= Sum(slots, Charge)
    ensures 0 <= Sum(slots, Held) && 0 <= Sum(slots, Charge)
  {
    SumNonNegative(slots[..|slots| - 1]);
    if p < |slots| - 1 {
      SlotCounts(slots[..|slots| - 1], p);
    }
  }

  lemma {:induction false} SumNonNegative(slots: seq<Slot>)
    ensures 0 <= Sum(slots, Held) && 0 <= Sum(slots, Charge)
  {
    if slots != [] {
      SumNonNegative(slots[..|slots| - 1]);
    }
  }

  /** One step changes at most the slot it names, or adds one. */
  lemma StepMovesSums(s: State, a: Action, weight: Slot -> int)
    requires Enabled(s, a)
    ensures var t := Step(s, a);
      match a
      case Check(w) => Sum(t.slots, weight) == Sum(s.slots, weight)
        + (if Decide(s.ledger, s.Late()).Admit? then weight(Slot(Permit(Reserved, 0), false)) else 0)
      case MarkDispatched(p) => Sum(t.slots, weight) == Sum(s.slots, weight) - weight(s.slots[p]) + weight(t.slots[p])
      case MarkAttempt(p) => Sum(t.slots, weight) == Sum(s.slots, weight) - weight(s.slots[p]) + weight(t.slots[p])
      case DropPermit(p) => Sum(t.slots, weight) == Sum(s.slots, weight) - weight(s.slots[p]) + weight(t.slots[p])
      case _ => t.slots == s.slots
  {
    var t := Step(s, a);
    match a {
      case Check(w) => SumAppend(s.slots, Slot(Permit(Reserved, 0), false), weight);
      case MarkDispatched(p) => SumUpdate(s.slots, p, t.slots[p], weight);
      case MarkAttempt(p) => SumUpdate(s.slots, p, t.slots[p], weight);
      case DropPermit(p) => SumUpdate(s.slots, p, t.slots[p], weight);
      case _ =>
    }
  }

  /** Under a cap no reservation can saturate the counter; without one there must be room. */
  lemma StepKeepsReserved(s: State, a: Action)
    requires ReservedIsHeld(s) && Enabled(s, a)
    requires s.ledger.maxCalls.Some? || s.ledger.reserved < WORD_MAX
    ensures ReservedIsHeld(Step(s, a))
  {
    StepMovesSums(s, a, Held);
    match a {
      case MarkDispatched(p) => SlotCounts(s.slots, p);
      case DropPermit(p) => SlotCounts(s.slots, p);
      case _ =>
    }
  }

  lemma StepKeepsTags(s: State, a: Action)
    requires TagsHonest(s) && Enabled(s, a)
    ensures TagsHonest(Step(s, a))
  {
  }

  /** What a slot's own step adds to the ledger is what it adds to the slot's charge. */
  lemma SlotPaysItsWay(ledger: Ledger, slot: Slot, late: bool)
    requires slot.permit.tag != Committed ==> slot.permit.attempts == 0
    requires Charge(slot) <= ledger.committed && (ledger.maxCalls.Some? || ledger.committed < WORD_MAX)
    ensures var o := Dispatch(ledger, slot.permit, late);
      o.ledger.committed - ledger.committed == Charge(Slot(o.permit, false)) - Charge(slot)
    ensures var o := Attempt(ledger, slot.permit, late);
      o.ledger.committed - ledger.committed == Charge(Slot(o.permit, false)) - Charge(slot)
    ensures var o := Retire(ledger, slot.permit);
      o.ledger.committed - ledger.committed == Charge(Slot(o.permit, true)) - Charge(slot)
  {
  }

  lemma SettleKeepsCommitted(s: State, p: nat, outcome: Outcome, dropped: bool)
    requires p < |s.slots| && CommittedIsCharged(s)
    requires outcome.ledger.committed - s.ledger.committed == Charge(Slot(outcome.permit, dropped)) - Charge(s.slots[p])
    ensures CommittedIsCharged(Settle(s, p, outcome, dropped))
  {
    hide Charge;
    SumUpdate(s.slots, p, Slot(outcome.permit, dropped), Charge);
  }

  lemma ResolveKeepsCommitted(s: State, w: nat)
    requires w < |s.waiters| && CommittedIsCharged(s)
    ensures CommittedIsCharged(Resolve(s, w))
  {
    SumAppend(s.slots, Slot(Permit(Reserved, 0), false), Charge);
  }

  /** The same for what is spent. */
  lemma StepKeepsCommitted(s: State, a: Action)
    requires CommittedIsCharged(s) && TagsHonest(s) && Enabled(s, a)
    requires s.ledger.maxCalls.Some? || s.ledger.committed < WORD_MAX
    ensures CommittedIsCharged(Step(s, a))
  {
    hide Dispatch, Attempt, Retire, Charge, Settle, Resolve;
    match a {
      case Check(w) => ResolveKeepsCommitted(s, w);
      case MarkDispatched(p) =>
        SlotCounts(s.slots, p);
        SlotPaysItsWay(s.ledger, s.slots[p], s.Late());
        SettleKeepsCommitted(s, p, Dispatch(s.ledger, s.slots[p].permit, s.Late()), false);
      case MarkAttempt(p) =>
        SlotCounts(s.slots, p);
        SlotPaysItsWay(s.ledger, s.slots[p], s.Late());
        SettleKeepsCommitted(s, p, Attempt(s.ledger, s.slots[p].permit, s.Late()), false);
      case DropPermit(p) =>
        SlotCounts(s.slots, p);
        SlotPaysItsWay(s.ledger, s.slots[p], s.Late());
        SettleKeepsCommitted(s, p, Retire(s.ledger, s.slots[p].permit), true);
      case _ =>
    }
  }

  lemma StepConserves(s: State, a: Action)
    requires Conserved(s) && Enabled(s, a)
    requires s.ledger.maxCalls.Some? || Load(s) < WORD_MAX
    ensures Conserved(Step(s, a))
  {
    hide ReservedIsHeld, CommittedIsCharged;
    StepKeepsReserved(s, a);
    StepKeepsCommitted(s, a);
    StepKeepsTags(s, a);
  }

  lemma StepLoadsOneMore(s: State, a: Action)
    requires Enabled(s, a) && Conserved(s)
    ensures Load(Step(s, a)) <= Load(s) + 1
  {
    match a {
      case MarkDispatched(p) => SlotCounts(s.slots, p);
      case DropPermit(p) => SlotCounts(s.slots, p);
      case _ =>
    }
  }

  lemma StepKeepsWakeUps(s: State, a: Action)
    requires NoLostWakeUp(s) && SeenThePast(s) && Enabled(s, a)
    ensures NoLostWakeUp(Step(s, a)) && SeenThePast(Step(s, a))
  {
  }

  /** No run, however long, loses a wake-up. */
  lemma {:induction false} RunKeepsWakeUps(s: State, run: seq<Action>)
    requires NoLostWakeUp(s) && SeenThePast(s) && Runs(s, run)
    ensures NoLostWakeUp(After(s, run)) && SeenThePast(After(s, run))
    decreases |run|
  {
    if run != [] {
      StepKeepsWakeUps(s, run[0]);
      RunKeepsWakeUps(Step(s, run[0]), run[1..]);
    }
  }

  /** The steps a run takes before it has a cap. */
  function UncappedSteps(s: State, run: seq<Action>): (steps: nat)
    requires Runs(s, run)
    ensures steps <= |run| && (s.ledger.maxCalls.Some? ==> steps == 0)
    decreases |run|
  {
    if run == [] || s.ledger.maxCalls.Some? then 0 else 1 + UncappedSteps(Step(s, run[0]), run[1..])
  }

  /**
   * Conservation survives every run. Under a cap no counter can saturate; before there is one, a
   * word-sized counter can saturate only after more steps than the word can count.
   */
  lemma {:induction false} RunConserves(s: State, run: seq<Action>)
    requires Conserved(s) && Runs(s, run)
    requires s.ledger.maxCalls.Some? || Load(s) + UncappedSteps(s, run) <= WORD_MAX
    ensures Conserved(After(s, run))
    decreases |run|
  {
    hide Conserved;
    if run != [] {
      StepConserves(s, run[0]);
      StepLoadsOneMore(s, run[0]);
      RunConserves(Step(s, run[0]), run[1..]);
    }
  }

  lemma StartsSound(maxCalls: Option<word>, clock: nat, deadline: nat)
    ensures var s := Initial(maxCalls, clock, deadline);
      Conserved(s) && NoLostWakeUp(s) && SeenThePast(s)
  {
  }

  /**
   * In every state any interleaving can reach nobody has lost a wake-up; and both counters are
   * exact, unless the job made more steps without a cap than a word can count.
   */
  lemma ReachableStatesAreSound(maxCalls: Option<word>, clock: nat, deadline: nat, run: seq<Action>)
    requires Runs(Initial(maxCalls, clock, deadline), run)
    ensures NoLostWakeUp(After(Initial(maxCalls, clock, deadline), run))
    ensures UncappedSteps(Initial(maxCalls, clock, deadline), run) <= WORD_MAX ==>
      var s := After(Initial(maxCalls, clock, deadline), run);
      s.ledger.reserved == Sum(s.slots, Held) && s.ledger.committed == Sum(s.slots, Charge)
  {
    hide NoLostWakeUp, SeenThePast;
    var start := Initial(maxCalls, clock, deadline);
    StartsSound(maxCalls, clock, deadline);
    RunKeepsWakeUps(start, run);
    if UncappedSteps(start, run) <= WORD_MAX {
      RunConserves(start, run);
    }
  }

  // ----- A parked acquirer can always finish once its turn has come -----

  function Bumps(count: nat): seq<Action> {
    seq(count, _ => Bump)
  }

  lemma {:induction false} PayAllBumps(s: State)
    ensures Runs(s, Bumps(s.owed))
    ensures After(s, Bumps(s.owed)) == s.(owed := 0, generation := s.generation + s.owed)
    decreases s.owed
  {
    if s.owed > 0 {
      PayAllBumps(Step(s, Bump));
      assert Bumps(s.owed)[1..] == Bumps(s.owed - 1);
    }
  }

  /** The steps that finish a parked acquirer: the bumps already owed, then its own two steps. */
  function Awaken(s: State, w: nat): seq<Action> {
    if s.Late() then [TimeOut(w), Check(w)] else Bumps(s.owed) + [Wake(w), Check(w)]
  }

  /**
   * No step of any other acquirer, permit or owner is needed: paying the wake-ups already owed
   * lets the sleeper run, and its next pass is final.
   */
  lemma ParkedAcquirerCanFinish(s: State, w: nat)
    requires NoLostWakeUp(s) && SeenThePast(s)
    requires InPhase(s, w, Parked) && Decide(s.ledger, s.Late()) != Wait
    ensures Runs(s, Awaken(s, w))
    ensures var decision := Decide(s.ledger, s.Late());
      InPhase(After(s, Awaken(s, w)), w, if decision.Refuse? then Turned(decision.refusal) else Admitted)
  {
    var own := if s.Late() then TimeOut(w) else Wake(w);
    PayAllBumps(s);
    var paid := if s.Late() then s else After(s, Bumps(s.owed));
    var woken := Step(paid, own);
    OneStep(paid, own);
    OneStep(woken, Check(w));
    RunsCompose(paid, [own], [Check(w)]);
    assert [own] + [Check(w)] == [own, Check(w)];
    if !s.Late() {
      RunsCompose(s, Bumps(s.owed), [own, Check(w)]);
    }
  }

  /** Somebody is being waited for: a waiting decision means a permit neither spent nor dropped. */
  lemma WaitingIsForSomebody(s: State) returns (p: nat)
    requires Conserved(s) && Decide(s.ledger, s.Late()) == Wait
    ensures Live(s, p) && s.slots[p].permit.tag != Committed
  {
    p := HeldByOne(s.slots);
  }

  lemma {:induction false} HeldByOne(slots: seq<Slot>) returns (p: nat)
    requires Sum(slots, Held) > 0
    ensures p < |slots| && !slots[p].dropped && slots[p].permit.tag != Committed
  {
    p := |slots| - 1;
    if Held(slots[p]) == 0 {
      p := HeldByOne(slots[..p]);
    }
  }

  /** So no acquirer waits once every permit is spent or dropped: it is answered. */
  lemma NobodyWaitsForNothing(s: State)
    requires Conserved(s)
    requires forall p :: 0 <= p < |s.slots| ==> s.slots[p].dropped || s.slots[p].permit.tag == Committed
    ensures Decide(s.ledger, s.Late()) != Wait
  {
    if Decide(s.ledger, s.Late()) == Wait {
      var p := WaitingIsForSomebody(s);
      assert false;
    }
  }

  // ----- The ceiling over whole runs -----

  lemma StepRespectsCeiling(s: State, a: Action)
    requires Conserved(s) && Enabled(s, a) && s.ledger.maxCalls.Some?
    ensures var t := Step(s, a).ledger;
      && t.maxCalls.Some? && t.maxCalls.value <= s.ledger.maxCalls.value
      && t.committed <= Max(s.ledger.maxCalls.value, s.ledger.committed)
      && t.committed + t.reserved <= Max(s.ledger.maxCalls.value, Load(s))
  {
    match a {
      case MarkDispatched(p) => SlotCounts(s.slots, p);
      case DropPermit(p) => SlotCounts(s.slots, p);
      case _ =>
    }
  }

  /**
   * From any conserved state on, and for runs of any length, the cap never rises, and neither the
   * spent calls nor the spent and reserved calls together ever pass the cap or what was already
   * there.
   */
  lemma {:induction false} CeilingHoldsOverRuns(s: State, run: seq<Action>)
    requires Conserved(s) && Runs(s, run) && s.ledger.maxCalls.Some?
    ensures var t := After(s, run).ledger;
      && t.maxCalls.Some? && t.maxCalls.value <= s.ledger.maxCalls.value
      && t.committed <= Max(s.ledger.maxCalls.value, s.ledger.committed)
      && t.committed + t.reserved <= Max(s.ledger.maxCalls.value, Load(s))
    ensures Conserved(After(s, run))
    decreases |run|
  {
    hide Conserved;
    if run != [] {
      StepConserves(s, run[0]);
      StepRespectsCeiling(s, run[0]);
      CeilingHoldsOverRuns(Step(s, run[0]), run[1..]);
    }
  }

  /** Every physical send any permit ever admitted was paid for. */
  lemma SendsAreCommitted(s: State)
    requires CommittedIsCharged(s) && TagsHonest(s)
    ensures Sum(s.slots, Sends) <= s.ledger.committed
  {
    SumMonotone(s.slots, Sends, Charge);
  }

  /** A job that starts under a cap never sends, spends or reserves past it. */
  lemma CappedJobStaysUnderItsCap(cap: word, clock: nat, deadline: nat, run: seq<Action>)
    requires Runs(Initial(Some(cap), clock, deadline), run)
    ensures var s := After(Initial(Some(cap), clock, deadline), run);
      Sum(s.slots, Sends) <= s.ledger.committed <= Load(s) <= cap
  {
    var start := Initial(Some(cap), clock, deadline);
    StartsSound(Some(cap), clock, deadline);
    CeilingHoldsOverRuns(start, run);
    SendsAreCommitted(After(start, run));
  }

  lemma {:induction false} RunsSplit(s: State, first: seq<Action>, second: seq<Action>)
    requires Runs(s, first + second)
    ensures Runs(s, first) && Runs(After(s, first), second)
    ensures After(s, first + second) == After(After(s, first), second)
    ensures UncappedSteps(s, first) <= UncappedSteps(s, first + second)
    decreases |first|
  {
    if first == [] {
      assert first + second == second;
    } else {
      assert (first + second)[1..] == first[1..] + second;
      RunsSplit(Step(s, first[0]), first[1..], second);
    }
  }

  /**
   * The way a large review gets its cap: the job starts with none, or with another, and `limit` is
   * put on it mid-way. With C calls spent by then, the calls and the sends of the whole job stay
   * within max(limit, C), and with the reservations within max(limit, what was held by then).
   */
  lemma TightenedJobStaysUnderItsCap(
      maxCalls: Option<word>, clock: nat, deadline: nat, before: seq<Action>, limit: word, later: seq<Action>)
    requires Runs(Initial(maxCalls, clock, deadline), before + ([Restrict(limit)] + later))
    requires Runs(Initial(maxCalls, clock, deadline), before)
    requires UncappedSteps(Initial(maxCalls, clock, deadline), before) <= WORD_MAX
    ensures var start := Initial(maxCalls, clock, deadline);
      var tightened, s := After(start, before), After(start, before + ([Restrict(limit)] + later));
      && s.ledger.maxCalls.Some? && s.ledger.maxCalls.value <= limit
      && Sum(s.slots, Sends) <= s.ledger.committed <= Max(limit, tightened.ledger.committed)
      && Load(s) <= Max(limit, Load(tightened))
  {
    hide Conserved;
    var start := Initial(maxCalls, clock, deadline);
    StartsSound(maxCalls, clock, deadline);
    RunsSplit(start, before, [Restrict(limit)] + later);
    RunConserves(start, before);
    var capped := After(start, before);
    RunsSplit(capped, [Restrict(limit)], later);
    OneStep(capped, Restrict(limit));
    RestrictCaps(capped, limit);
    CeilingHoldsOverRuns(Step(capped, Restrict(limit)), later);
    SpentWithinLoad(After(start, before + ([Restrict(limit)] + later)));
  }

  lemma RestrictCaps(s: State, limit: word)
    requires Conserved(s)
    ensures var t := Step(s, Restrict(limit));
      && Conserved(t) && t.ledger.maxCalls.Some? && t.ledger.maxCalls.value <= limit
      && t.ledger.committed == s.ledger.committed && Load(t) == Load(s)
  {
  }

  lemma SpentWithinLoad(s: State)
    requires Conserved(s)
    ensures Sum(s.slots, Sends) <= s.ledger.committed <= Load(s)
  {
    SendsAreCommitted(s);
  }

  // ----- The fence -----

  predicate Closed(s: State) {
    s.ledger.cancelled || s.Late()
  }

  lemma StepBehindTheFence(s: State, a: Action)
    requires Enabled(s, a) && Closed(s)
    ensures Closed(Step(s, a))
    ensures Step(s, a).ledger.committed == s.ledger.committed
    ensures Step(s, a).ledger.reserved <= s.ledger.reserved
    ensures |Step(s, a).slots| == |s.slots|
    ensures forall p :: 0 <= p < |s.slots| ==>
      && Step(s, a).slots[p].permit.attempts == s.slots[p].permit.attempts
      && (Step(s, a).slots[p].permit.tag == Committed <==> s.slots[p].permit.tag == Committed)
  {
  }

  /**
   * After a cancellation or the soft deadline no run, however long, spends a call, admits a
   * permit, commits one or lets a permit send again.
   */
  lemma {:induction false} NothingPassesTheFence(s: State, run: seq<Action>)
    requires Runs(s, run) && Closed(s)
    ensures Closed(After(s, run))
    ensures After(s, run).ledger.committed == s.ledger.committed
    ensures After(s, run).ledger.reserved <= s.ledger.reserved
    ensures |After(s, run).slots| == |s.slots|
    ensures forall p :: 0 <= p < |s.slots| ==>
      && After(s, run).slots[p].permit.attempts == s.slots[p].permit.attempts
      && (After(s, run).slots[p].permit.tag == Committed <==> s.slots[p].permit.tag == Committed)
    decreases |run|
  {
    if run != [] {
      StepBehindTheFence(s, run[0]);
      NothingPassesTheFence(Step(s, run[0]), run[1..]);
    }
  }

  // ----- Sticky answers -----

  /** Tags only move forward: a slot is dropped for good, and a decided permit stays decided. */
  lemma {:induction false} SlotsOnlyMoveForward(s: State, run: seq<Action>, p: nat)
    requires Runs(s, run) && p < |s.slots|
    ensures p < |After(s, run).slots|
    ensures s.slots[p].dropped ==> After(s, run).slots[p].dropped
    ensures s.slots[p].permit.tag == Committed ==> After(s, run).slots[p].permit.tag == Committed
    ensures s.slots[p].permit.attempts <= After(s, run).slots[p].permit.attempts
    ensures Foregone(s.slots[p].permit.tag).Some? && !After(s, run).slots[p].dropped ==>
      After(s, run).slots[p].permit == s.slots[p].permit
    decreases |run|
  {
    if run != [] {
      SlotsOnlyMoveForward(Step(s, run[0]), run[1..], p);
    }
  }

  /**
   * `mark_dispatched` reads the state byte once before it takes the lock. Whatever happens in
   * between, a refusal that first read forces is the refusal the read under the lock gives, and
   * neither the ledger nor the permit would have changed.
   */
  lemma UnlockedReadAgreesWithLockedRead(s: State, between: seq<Action>, p: nat)
    requires Runs(s, between) && p < |s.slots| && Live(After(s, between), p)
    requires Foregone(s.slots[p].permit.tag).Some?
    ensures var t := After(s, between);
      Dispatch(t.ledger, t.slots[p].permit, t.Late())
        == Outcome(t.ledger, s.slots[p].permit, Foregone(s.slots[p].permit.tag), false)
  {
    SlotsOnlyMoveForward(s, between, p);
  }
}
