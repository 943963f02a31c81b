/**
 * What permits and acquirers are told, counted over runs by the answers alone. A send or a dispatch
 * is granted when its step is answered without a refusal.
 */
module AdmissionAnswers {
  import opened Prelude
  import opened Admission
  import opened AdmissionRuns

  /** The refusal a permit's own step is answered with, if it is a permit's step at all. */
  function Answer(s: State, a: Action): Option<Refusal>
    requires Enabled(s, a)
  {
    match a
    case MarkDispatched(p) => Dispatch(s.ledger, s.slots[p].permit, s.Late()).refusal
    case MarkAttempt(p) => Attempt(s.ledger, s.slots[p].permit, s.Late()).refusal
    case _ => None
  }

  predicate SendGranted(s: State, a: Action)
    requires Enabled(s, a)
  {
    a.MarkAttempt? && Answer(s, a).None?
  }

  predicate DispatchGranted(s: State, a: Action)
    requires Enabled(s, a)
  {
    a.MarkDispatched? && Answer(s, a).None?
  }

  /** How many sends the run was granted. */
  function GrantedSends(s: State, run: seq<Action>): nat
    requires Runs(s, run)
    decreases |run|
  {
    if run == [] then 0
    else (if SendGranted(s, run[0]) then 1 else 0) + GrantedSends(Step(s, run[0]), run[1..])
  }

  /** How many of them went to permit `p`. */
  function GrantedTo(s: State, run: seq<Action>, p: nat): nat
    requires Runs(s, run)
    decreases |run|
  {
    if run == [] then 0
    else (if SendGranted(s, run[0]) && run[0].slot == p then 1 else 0) + GrantedTo(Step(s, run[0]), run[1..], p)
  }

  function GrantedDispatches(s: State, run: seq<Action>): nat
    requires Runs(s, run)
    decreases |run|
  {
    if run == [] then 0
    else (if DispatchGranted(s, run[0]) then 1 else 0) + GrantedDispatches(Step(s, run[0]), run[1..])
  }

  // ----- Every granted send is on the books -----

  /** The sends permit `p` has on record; none while it does not exist. */
  function SendsOf(s: State, p: nat): nat {
    if p < |s.slots| then s.slots[p].permit.attempts else 0
  }

  lemma AttemptsAreCommitted(s: State, p: nat)
    requires CommittedIsCharged(s) && TagsHonest(s) && p < |s.slots|
    ensures s.slots[p].permit.attempts <= s.ledger.committed
  {
    SlotCounts(s.slots, p);
  }

  lemma StepCountsItsSend(s: State, a: Action, p: nat)
    requires Conserved(s) && Enabled(s, a) && (s.ledger.maxCalls.Some? || Load(s) < WORD_MAX)
    ensures SendsOf(Step(s, a), p) == SendsOf(s, p) + if SendGranted(s, a) && a.slot == p then 1 else 0
    ensures Sum(Step(s, a).slots, Sends) == Sum(s.slots, Sends) + if SendGranted(s, a) then 1 else 0
  {
    StepMovesSums(s, a, Sends);
    if a.MarkAttempt? {
      AttemptsAreCommitted(s, a.slot);
      AttemptCountsItself(s.ledger, s.slots[a.slot].permit, s.Late());
    } else {
      hide Conserved, Decide;
      OnlyAttemptsSend(s, a, p);
    }
  }

  lemma AttemptCountsItself(ledger: Ledger, permit: Permit, late: bool)
    requires permit.attempts <= ledger.committed && (ledger.maxCalls.Some? || ledger.committed < WORD_MAX)
    ensures var o := Attempt(ledger, permit, late);
      o.permit.attempts == permit.attempts + if o.refusal.None? then 1 else 0
  {
  }

  lemma OnlyAttemptsSend(s: State, a: Action, p: nat)
    requires Enabled(s, a) && !a.MarkAttempt?
    ensures SendsOf(Step(s, a), p) == SendsOf(s, p)
    ensures forall k :: 0 <= k < |s.slots| ==> Step(s, a).slots[k].permit.attempts == s.slots[k].permit.attempts
    ensures |Step(s, a).slots| >= |s.slots|
  {
  }

  /** From any conserved state on, what is granted is what is recorded, permit by permit and in all. */
  lemma {:induction false} GrantedSendsAreRecorded(s: State, run: seq<Action>, p: nat)
    requires Conserved(s) && Runs(s, run)
    requires s.ledger.maxCalls.Some? || Load(s) + UncappedSteps(s, run) <= WORD_MAX
    ensures SendsOf(After(s, run), p) == SendsOf(s, p) + GrantedTo(s, run, p)
    ensures Sum(After(s, run).slots, Sends) == Sum(s.slots, Sends) + GrantedSends(s, run)
    decreases |run|
  {
    hide Conserved, SendsOf, SendGranted;
    if run != [] {
      StepCountsItsSend(s, run[0], p);
      StepConserves(s, run[0]);
      StepLoadsOneMore(s, run[0]);
      GrantedSendsAreRecorded(Step(s, run[0]), run[1..], p);
    }
  }

  /** Over a whole job no more sends are granted than calls are spent, and under a cap no more than it. */
  lemma GrantedSendsArePaidFor(maxCalls: Option<word>, clock: nat, deadline: nat, run: seq<Action>)
    requires Runs(Initial(maxCalls, clock, deadline), run)
    requires UncappedSteps(Initial(maxCalls, clock, deadline), run) <= WORD_MAX
    ensures var start := Initial(maxCalls, clock, deadline);
      && GrantedSends(start, run) == Sum(After(start, run).slots, Sends) <= After(start, run).ledger.committed
      && (maxCalls.Some? ==> GrantedSends(start, run) <= maxCalls.value)
  {
    var start := Initial(maxCalls, clock, deadline);
    StartsSound(maxCalls, clock, deadline);
    GrantedSendsAreRecorded(start, run, 0);
    RunConserves(start, run);
    SendsAreCommitted(After(start, run));
    if maxCalls.Some? {
      CappedJobStaysUnderItsCap(maxCalls.value, clock, deadline, run);
    }
  }

  lemma {:induction false} GrantsAddUp(s: State, first: seq<Action>, second: seq<Action>)
    requires Runs(s, first) && Runs(After(s, first), second) && Runs(s, first + second)
    ensures GrantedSends(s, first + second) == GrantedSends(s, first) + GrantedSends(After(s, first), second)
    decreases |first|
  {
    if first == [] {
      assert first + second == second;
    } else {
      assert (first + second)[1..] == first[1..] + second;
      GrantsAddUp(Step(s, first[0]), first[1..], second);
    }
  }

  /** Once a limit is put on a job, all the sends it is ever granted stay within it or what was spent by then. */
  lemma TightenedJobIsGrantedNoMore(
      maxCalls: Option<word>, clock: nat, deadline: nat, before: seq<Action>, limit: word, later: seq<Action>)
    requires Runs(Initial(maxCalls, clock, deadline), before + ([Restrict(limit)] + later))
    requires Runs(Initial(maxCalls, clock, deadline), before)
    requires UncappedSteps(Initial(maxCalls, clock, deadline), before) <= WORD_MAX
    ensures var start := Initial(maxCalls, clock, deadline);
      GrantedSends(start, before + ([Restrict(limit)] + later)) <= Max(limit, After(start, before).ledger.committed)
  {
    hide Conserved, SendGranted;
    var start, rest := Initial(maxCalls, clock, deadline), [Restrict(limit)] + later;
    StartsSound(maxCalls, clock, deadline);
    RunsSplit(start, before, rest);
    GrantsAddUp(start, before, rest);
    GrantedSendsAreRecorded(start, before, 0);
    RunConserves(start, before);
    var capped := After(start, before);
    RunsSplit(capped, [Restrict(limit)], later);
    OneStep(capped, Restrict(limit));
    RestrictCaps(capped, limit);
    assert rest[0] == Restrict(limit) && rest[1..] == later;
    assert !SendGranted(capped, Restrict(limit)) by {
      RestrictGrantsNothing(capped, limit);
    }
    GrantedSendsAreRecorded(Step(capped, Restrict(limit)), later, 0);
    TightenedJobStaysUnderItsCap(maxCalls, clock, deadline, before, limit, later);
  }

  lemma RestrictGrantsNothing(s: State, limit: word)
    ensures !SendGranted(s, Restrict(limit))
  {
  }

  // ----- Which sends and dispatches are granted -----

  /** There is room for a call beyond those spent and those reserved. */
  predicate HasRoom(s: State) {
    s.ledger.maxCalls.Some? ==> s.ledger.committed + s.ledger.reserved < s.ledger.maxCalls.value
  }

  /** Why the whole job turns permits away: a cancellation comes before the deadline. */
  function FenceOf(s: State): Option<Refusal> {
    if s.ledger.cancelled then Some(Cancelled) else if s.Late() then Some(SoftDeadline) else None
  }

  /**
   * A send is granted exactly to a committed permit before the fence whose first granted send in the
   * whole job it is, or when there is room for another call. A committed permit is otherwise told of
   * the fence, and before it of the cap.
   */
  lemma SendIsGrantedExactly(maxCalls: Option<word>, clock: nat, deadline: nat, run: seq<Action>, p: nat)
    requires Runs(Initial(maxCalls, clock, deadline), run)
    requires UncappedSteps(Initial(maxCalls, clock, deadline), run) <= WORD_MAX
    requires Live(After(Initial(maxCalls, clock, deadline), run), p)
    ensures var start := Initial(maxCalls, clock, deadline);
      var s := After(start, run);
      && (SendGranted(s, MarkAttempt(p)) <==>
            && s.slots[p].permit.tag == Committed && !Closed(s)
            && (GrantedTo(start, run, p) == 0 || HasRoom(s)))
      && (s.slots[p].permit.tag == Committed && !SendGranted(s, MarkAttempt(p)) ==>
            Answer(s, MarkAttempt(p)) == if Closed(s) then FenceOf(s) else Some(CallLimit))
      && (s.slots[p].permit.tag == Reserved ==> Answer(s, MarkAttempt(p)) == Some(SoftDeadline))
  {
    var start := Initial(maxCalls, clock, deadline);
    StartsSound(maxCalls, clock, deadline);
    GrantedSendsAreRecorded(start, run, p);
  }

  /**
   * A dispatch is granted before the fence exactly to a committed permit, again and free of charge,
   * or to a reserved one while the calls spent are below the cap. A reserved permit is then committed
   * and its reservation becomes a spent call; either is otherwise told of the fence or of the cap.
   */
  lemma DispatchIsGrantedExactly(s: State, p: nat)
    requires Conserved(s) && Live(s, p) && (s.ledger.maxCalls.Some? || Load(s) < WORD_MAX)
    ensures DispatchGranted(s, MarkDispatched(p)) <==>
      && !Closed(s)
      && (|| s.slots[p].permit.tag == Committed
          || (s.slots[p].permit.tag == Reserved
              && (s.ledger.maxCalls.Some? ==> s.ledger.committed < s.ledger.maxCalls.value)))
    ensures s.slots[p].permit.tag in {Reserved, Committed} && !DispatchGranted(s, MarkDispatched(p)) ==>
      Answer(s, MarkDispatched(p)) == if Closed(s) then FenceOf(s) else Some(CallLimit)
    ensures var t := Step(s, MarkDispatched(p));
      && (DispatchGranted(s, MarkDispatched(p)) ==> t.slots[p].permit.tag == Committed)
      && t.ledger.committed - s.ledger.committed
        == (if DispatchGranted(s, MarkDispatched(p)) && s.slots[p].permit.tag == Reserved then 1 else 0)
        == s.ledger.reserved - t.ledger.reserved
  {
    SlotCounts(s.slots, p);
  }

  /**
   * Every change of the ledger is announced, and nothing else is: a step owes the waiters one more
   * wake-up exactly when it changed a counter, the cap or the flag. Admitting somebody is no news.
   */
  lemma EveryChangeIsAnnounced(s: State, a: Action)
    requires Enabled(s, a) && !a.Check? && !a.Bump?
    requires Conserved(s) && Load(s) < WORD_MAX
    ensures Step(s, a).owed == s.owed + if Step(s, a).ledger != s.ledger then 1 else 0
  {
    if a.MarkDispatched? || a.MarkAttempt? || a.DropPermit? {
      SlotCounts(s.slots, match a case MarkDispatched(p) => p case MarkAttempt(p) => p case DropPermit(p) => p);
    }
  }

  /** A reserved permit that is refused once is given the same answer for good, to dispatches and to sends. */
  lemma RefusalsStick(s: State, p: nat, run: seq<Action>)
    requires Live(s, p) && s.slots[p].permit.tag == Reserved && Answer(s, MarkDispatched(p)).Some?
    requires Runs(Step(s, MarkDispatched(p)), run) && Live(After(Step(s, MarkDispatched(p)), run), p)
    ensures var t := After(Step(s, MarkDispatched(p)), run);
      Answer(t, MarkDispatched(p)) == Answer(t, MarkAttempt(p)) == Answer(s, MarkDispatched(p))
  {
    SlotsOnlyMoveForward(Step(s, MarkDispatched(p)), run, p);
  }

  /** Behind the fence no step of any run grants a send or a dispatch. */
  lemma {:induction false} NothingIsGrantedBehindTheFence(s: State, run: seq<Action>)
    requires Runs(s, run) && Closed(s)
    ensures GrantedSends(s, run) == 0 && GrantedDispatches(s, run) == 0
    decreases |run|
  {
    if run != [] {
      StepBehindTheFence(s, run[0]);
      NothingIsGrantedBehindTheFence(Step(s, run[0]), run[1..]);
    }
  }

  // ----- Which acquirers are admitted -----

  predicate EverCancelled(run: seq<Action>) {
    exists k :: 0 <= k < |run| && run[k].Cancel?
  }

  function Clock(clock: nat, run: seq<Action>): nat
    decreases |run|
  {
    if run == [] then clock
    else Clock(if run[0].Tick? then run[0].now else clock, run[1..])
  }

  /** The tightest limit the job was given, at its start or since. */
  function Tightest(limit: Option<word>, run: seq<Action>): Option<word>
    decreases |run|
  {
    if run == [] then limit
    else if !run[0].Restrict? then Tightest(limit, run[1..])
    else if limit.None? then Tightest(Some(run[0].limit), run[1..])
    else Tightest(Some(Min(limit.value, run[0].limit)), run[1..])
  }

  lemma {:induction false} RunDecidesTheTerms(s: State, run: seq<Action>)
    requires Runs(s, run)
    ensures var t := After(s, run);
      && (t.ledger.cancelled <==> s.ledger.cancelled || EverCancelled(run))
      && t.clock == Clock(s.clock, run) && t.deadline == s.deadline
      && t.ledger.maxCalls == Tightest(s.ledger.maxCalls, run)
    decreases |run|
  {
    if run != [] {
      RunDecidesTheTerms(Step(s, run[0]), run[1..]);
      assert EverCancelled(run) <==> run[0].Cancel? || EverCancelled(run[1..]) by {
        if k :| 0 <= k < |run| && run[k].Cancel? {
          assert k > 0 ==> run[1..][k - 1].Cancel?;
        }
        if k :| 0 <= k < |run[1..]| && run[1..][k].Cancel? {
          assert run[k + 1].Cancel?;
        }
      }
    }
  }

  /**
   * What an acquirer's pass under the lock comes to, from what the job has been through: turned away
   * for a cancellation, then for the deadline, then for a cap that is spent; admitted with a fresh
   * permit when there is room under the tightest limit; and left to wait otherwise.
   */
  lemma AcquirerIsAnsweredExactly(maxCalls: Option<word>, clock: nat, deadline: nat, run: seq<Action>, w: nat)
    requires Runs(Initial(maxCalls, clock, deadline), run)
    requires InPhase(After(Initial(maxCalls, clock, deadline), run), w, Checking)
    ensures var s := After(Initial(maxCalls, clock, deadline), run);
      var t, limit, spent := Step(s, Check(w)), Tightest(maxCalls, run), s.ledger.committed;
      if EverCancelled(run) then t == s.(waiters := s.waiters[w := s.waiters[w].(phase := Turned(Cancelled))])
      else if Clock(clock, run) >= deadline then
        t == s.(waiters := s.waiters[w := s.waiters[w].(phase := Turned(SoftDeadline))])
      else if limit.Some? && spent >= limit.value then
        t == s.(waiters := s.waiters[w := s.waiters[w].(phase := Turned(CallLimit))])
      else if limit.Some? && spent + s.ledger.reserved >= limit.value then
        t == s.(waiters := s.waiters[w := s.waiters[w].(phase := Parked)])
      else t.waiters[w].phase == Admitted && t.slots == s.slots + [Slot(Permit(Reserved, 0), false)]
  {
    RunDecidesTheTerms(Initial(maxCalls, clock, deadline), run);
  }
}
