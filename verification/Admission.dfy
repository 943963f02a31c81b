/**
 * One review's admission ledger and its dispatch permits: the decisions taken inside each
 * critical section, as functions, and the objects whose methods take them.
 */
module Admission {
  import opened Prelude

  datatype Refusal = CallLimit | SoftDeadline | Cancelled

  /** The permit's state byte. */
  datatype Tag = Reserved | Committed | Refused | Released | Fenced | OverLimit

  /** The counters behind the execution lock. */
  datatype Ledger = Ledger(committed: word, reserved: word, cancelled: bool, maxCalls: Option<word>)

  /** One permit: its state byte and how many physical sends it has admitted. */
  datatype Permit = Permit(tag: Tag, attempts: word)

  datatype Admitting = Admit | Refuse(refusal: Refusal) | Wait

  /** What a permit operation leaves behind, and whether it owes the waiters a wake-up. */
  datatype Outcome = Outcome(ledger: Ledger, permit: Permit, refusal: Option<Refusal>, bump: bool)

  predicate Exhausted(ledger: Ledger) {
    ledger.maxCalls.Some? && ledger.committed >= ledger.maxCalls.value
  }

  predicate Occupied(ledger: Ledger) {
    ledger.maxCalls.Some? && SatAdd(ledger.committed, ledger.reserved) >= ledger.maxCalls.value
  }

  /** The decision one pass of the acquire loop takes under the lock. */
  function Decide(ledger: Ledger, late: bool): Admitting {
    if ledger.cancelled then Refuse(Cancelled)
    else if late then Refuse(SoftDeadline)
    else if Exhausted(ledger) then Refuse(CallLimit)
    else if Occupied(ledger) then Wait
    else Admit
  }

  function AfterDecision(ledger: Ledger, decision: Admitting): Ledger {
    if decision.Admit? then ledger.(reserved := SatAdd(ledger.reserved, 1)) else ledger
  }

  /** The preflight for optional work, which reserves nothing. */
  function Preflight(ledger: Ledger, late: bool): Option<Refusal> {
    if ledger.cancelled then Some(Cancelled)
    else if late then Some(SoftDeadline)
    else if Exhausted(ledger) then Some(CallLimit)
    else None
  }

  /** The answer a permit's state byte alone already forces, read without or under the lock. */
  function Foregone(tag: Tag): Option<Refusal> {
    match tag
    case Committed => None
    case Reserved => None
    case Refused => Some(SoftDeadline)
    case Fenced => Some(Cancelled)
    case OverLimit => Some(CallLimit)
    case Released => Some(SoftDeadline)
  }

  function Stamp(permit: Permit, tag: Tag): Permit {
    if permit.tag == Committed then permit else permit.(tag := tag)
  }

  function Dispatch(ledger: Ledger, permit: Permit, late: bool): Outcome {
    if Foregone(permit.tag).Some? then Outcome(ledger, permit, Foregone(permit.tag), false)
    else if ledger.cancelled then Outcome(ledger, Stamp(permit, Fenced), Some(Cancelled), false)
    else if late then Outcome(ledger, Stamp(permit, Refused), Some(SoftDeadline), false)
    else if permit.tag == Committed then Outcome(ledger, permit, None, false)
    else if Exhausted(ledger) then Outcome(ledger, permit.(tag := OverLimit), Some(CallLimit), false)
    else
      var spent := ledger.(reserved := SatSub(ledger.reserved, 1), committed := SatAdd(ledger.committed, 1));
      Outcome(spent, permit.(tag := Committed), None, true)
  }

  function Attempt(ledger: Ledger, permit: Permit, late: bool): Outcome {
    if permit.tag == Fenced then Outcome(ledger, permit, Some(Cancelled), false)
    else if permit.tag == OverLimit then Outcome(ledger, permit, Some(CallLimit), false)
    else if permit.tag != Committed then Outcome(ledger, permit, Some(SoftDeadline), false)
    else if ledger.cancelled then Outcome(ledger, permit, Some(Cancelled), false)
    else if late then Outcome(ledger, permit, Some(SoftDeadline), false)
    else if permit.attempts == 0 then Outcome(ledger, permit.(attempts := 1), None, false)
    else if Occupied(ledger) then Outcome(ledger, permit, Some(CallLimit), false)
    else
      var spent := ledger.(committed := SatAdd(ledger.committed, 1));
      Outcome(spent, permit.(attempts := SatAdd(permit.attempts, 1)), None, true)
  }

  /** Dropping a permit: an uncommitted one gives its reservation back. */
  function Retire(ledger: Ledger, permit: Permit): Outcome {
    if permit.tag == Committed then Outcome(ledger, permit, None, false)
    else Outcome(ledger.(reserved := SatSub(ledger.reserved, 1)), permit.(tag := Released), None, true)
  }

  function Tighten(ledger: Ledger, limit: word): Ledger {
    match ledger.maxCalls
    case Some(existing) => ledger.(maxCalls := Some(Min(existing, limit)))
    case None => ledger.(maxCalls := Some(limit))
  }

  /** The preflight refuses exactly when an acquisition would, with the same reason. */
  lemma PreflightAgreesWithAcquire(ledger: Ledger, late: bool, refusal: Refusal)
    ensures Preflight(ledger, late) == Some(refusal) <==> Decide(ledger, late) == Refuse(refusal)
    ensures Preflight(ledger, late) == None ==> Decide(ledger, late) in {Admit, Wait}
  {
    match Decide(ledger, late)
    case Admit =>
    case Refuse(_) =>
    case Wait =>
  }

  /** The state every clone of a review's execution scope shares. */
  class ExecutionInner {
    const softDeadline: nat
    var committedCalls: word
    var reservedCalls: word
    var cancelled: bool
    var maxCalls: Option<word>
    var generation: nat

    constructor (softDeadline: nat, maxCalls: Option<word>)
      ensures this.softDeadline == softDeadline && generation == 0
      ensures Value() == Ledger(0, 0, false, maxCalls)
    {
      this.softDeadline := softDeadline;
      committedCalls, reservedCalls, cancelled, generation := 0, 0, false, 0;
      this.maxCalls := maxCalls;
    }

    function Value(): Ledger
      reads this
    {
      Ledger(committedCalls, reservedCalls, cancelled, maxCalls)
    }

    method Bump()
      modifies this`generation
      ensures generation == old(generation) + 1
    {
      generation := generation + 1;
    }

    /** One pass of the acquire loop: a permit, a refusal, or null to park. */
    method TryAcquire(now: nat) returns (permit: ReviewDispatchPermit?, refusal: Option<Refusal>)
      modifies this
      ensures var decision := Decide(old(Value()), now >= softDeadline);
        && Value() == AfterDecision(old(Value()), decision)
        && generation == old(generation)
        && (permit != null <==> decision == Admit)
        && (refusal == if decision.Refuse? then Some(decision.refusal) else None)
      ensures permit != null ==> fresh(permit) && permit.inner == this && permit.Value() == Permit(Reserved, 0)
    {
      permit, refusal := null, None;
      if cancelled {
        return null, Some(Cancelled);
      }
      if now >= softDeadline {
        return null, Some(SoftDeadline);
      }
      if maxCalls.Some? && committedCalls >= maxCalls.value {
        return null, Some(CallLimit);
      }
      var capacityIsReserved := maxCalls.Some? && SatAdd(committedCalls, reservedCalls) >= maxCalls.value;
      if !capacityIsReserved {
        reservedCalls := SatAdd(reservedCalls, 1);
        permit := new ReviewDispatchPermit(this);
      }
    }

    method RestrictToLarge(limit: word)
      modifies this
      ensures Value() == Tighten(old(Value()), limit)
      ensures generation == old(generation) + if maxCalls != old(maxCalls) then 1 else 0
    {
      var tightened := if maxCalls.Some? then Min(maxCalls.value, limit) else limit;
      if maxCalls == Some(tightened) {
        return;
      }
      maxCalls := Some(tightened);
      Bump();
    }

    method Cancel()
      modifies this
      ensures Value() == old(Value()).(cancelled := true)
      ensures generation == old(generation) + if old(cancelled) then 0 else 1
    {
      if !cancelled {
        cancelled := true;
        Bump();
      }
    }

    /** Answers for optional work what an acquisition would be answered, and leaves waiting to the acquisition. */
    method RefusalForNewWork(now: nat) returns (refusal: Option<Refusal>)
      ensures refusal == Preflight(Value(), now >= softDeadline)
      ensures refusal == match Decide(Value(), now >= softDeadline)
        case Refuse(answer) => Some(answer)
        case Admit => None
        case Wait => None
    {
      if cancelled {
        refusal := Some(Cancelled);
      } else if now >= softDeadline {
        refusal := Some(SoftDeadline);
      } else if maxCalls.Some? && committedCalls >= maxCalls.value {
        refusal := Some(CallLimit);
      } else {
        refusal := None;
      }
    }
  }

  /** One reserved slot. `inner` is the shared scope, so two permits may alias it. */
  class ReviewDispatchPermit {
    const inner: ExecutionInner
    var tag: Tag
    var physicalAttempts: word

    constructor (inner: ExecutionInner)
      ensures this.inner == inner && Value() == Permit(Reserved, 0)
    {
      this.inner := inner;
      tag, physicalAttempts := Reserved, 0;
    }

    function Value(): Permit
      reads this
    {
      Permit(tag, physicalAttempts)
    }

    /** `outcome` is exactly what this call left in the ledger, the permit and the generation. */
    twostate predicate Leaves(new outcome: Outcome, new refusal: Option<Refusal>)
      reads this, inner
    {
      && inner.Value() == outcome.ledger
      && Value() == outcome.permit
      && refusal == outcome.refusal
      && inner.generation == old(inner.generation) + if outcome.bump then 1 else 0
    }

    method MarkDispatched(now: nat) returns (refusal: Option<Refusal>)
      modifies this, inner
      ensures Leaves(Dispatch(old(inner.Value()), old(Value()), now >= inner.softDeadline), refusal)
    {
      refusal := Foregone(tag);
      if refusal.Some? {
        return;
      }
      if inner.cancelled {
        if tag != Committed {
          tag := Fenced;
        }
        return Some(Cancelled);
      }
      if now >= inner.softDeadline {
        if tag != Committed {
          tag := Refused;
        }
        return Some(SoftDeadline);
      }
      if tag == Committed {
        return None;
      }
      if inner.maxCalls.Some? && inner.committedCalls >= inner.maxCalls.value {
        tag := OverLimit;
        return Some(CallLimit);
      }
      inner.reservedCalls := SatSub(inner.reservedCalls, 1);
      inner.committedCalls := SatAdd(inner.committedCalls, 1);
      tag := Committed;
      inner.Bump();
      return None;
    }

    method MarkPhysicalAttempt(now: nat) returns (refusal: Option<Refusal>)
      modifies this, inner
      ensures Leaves(Attempt(old(inner.Value()), old(Value()), now >= inner.softDeadline), refusal)
    {
      match tag {
        case Committed =>
        case Fenced => return Some(Cancelled);
        case OverLimit => return Some(CallLimit);
        case _ => return Some(SoftDeadline);
      }
      if inner.cancelled {
        return Some(Cancelled);
      }
      if now >= inner.softDeadline {
        return Some(SoftDeadline);
      }
      var attempts := physicalAttempts;
      if attempts == 0 {
        physicalAttempts := 1;
        return None;
      }
      if inner.maxCalls.Some? && SatAdd(inner.committedCalls, inner.reservedCalls) >= inner.maxCalls.value {
        return Some(CallLimit);
      }
      inner.committedCalls := SatAdd(inner.committedCalls, 1);
      physicalAttempts := SatAdd(attempts, 1);
      inner.Bump();
      return None;
    }

    method Drop()
      modifies this, inner
      ensures Leaves(Retire(old(inner.Value()), old(Value())), None)
    {
      if tag != Committed {
        inner.reservedCalls := SatSub(inner.reservedCalls, 1);
        tag := Released;
        inner.Bump();
      }
    }
  }
}
