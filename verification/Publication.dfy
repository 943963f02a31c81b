/** Publishing one reviewed proposal, and what stands on the forge and in the receipt afterwards. */
module Publication {
  import opened Prelude
  import opened ReviewHistory

  /** A lane's part of the verdict. `blocking` is absent on proposals written by older binaries. */
  datatype Lane = Lane(blocks: bool, unanswered: bool, highest: Option<nat>, blocking: Option<set<string>>)

  datatype Proposal = Proposal(
    head: string, currentVersion: bool, skipped: bool, unreviewed: bool, lanes: seq<Lane>)
  {
    predicate Blocked() {
      exists k :: 0 <= k < |lanes| && lanes[k].blocks
    }

    predicate Answered() {
      forall k :: 0 <= k < |lanes| ==> !lanes[k].unanswered
    }

    predicate Complete() {
      currentVersion && !skipped && !unreviewed && Answered()
    }

    predicate HasSeverityAtOrAbove(threshold: nat) {
      exists k :: 0 <= k < |lanes| && lanes[k].highest.Some? && lanes[k].highest.value >= threshold
    }

    /** Incomplete although nobody asked for the pull request to be skipped. */
    predicate Unvouched() {
      !Complete() && !skipped
    }

    predicate MustSay() {
      !Answered() || !currentVersion
    }
  }

  datatype Config = Config(requestChangesAt: Option<nat>, approveWhenClean: bool)

  predicate RequestsChanges(config: Config, p: Proposal) {
    config.requestChangesAt.Some? && p.Blocked() && p.HasSeverityAtOrAbove(config.requestChangesAt.value)
  }

  function ReviewEvent(config: Config, p: Proposal, previous: Option<Event>, draft: bool): Event {
    if RequestsChanges(config, p) then RequestChanges
    else if !draft && !p.Blocked() && p.Complete() && config.approveWhenClean then Approve
    else if previous == Some(RequestChanges) && p.Complete() then Approve
    else Comment
  }

  function BlockingFindings(lanes: seq<Lane>): Option<set<string>> {
    if lanes == [] then Some({})
    else
      var rest := BlockingFindings(lanes[..|lanes| - 1]);
      var last := lanes[|lanes| - 1].blocking;
      if rest.None? || last.None? then None else Some(rest.value + last.value)
  }

  /** What the store keeps of the latest review that was submitted with known blocking findings. */
  datatype Receipt = Receipt(
    event: Event, head: string, blocking: set<string>, standing: Option<OwnReview>, coverage: Option<bool>)

  predicate SameDecision(receipt: Option<Receipt>, event: Event, blocking: Option<set<string>>) {
    receipt.Some? && blocking.Some? && receipt.value.event == event && receipt.value.blocking == blocking.value
  }

  predicate SameStanding(receipt: Option<Receipt>, event: Event, previous: Option<OwnReview>, known: bool) {
    && known && receipt.Some? && previous.Some?
    && if event != Comment then previous.value == OwnReview(event, Some(receipt.value.head))
       else if receipt.value.standing.Some? then receipt.value.standing == previous
       else previous.value == OwnReview(Comment, Some(receipt.value.head))
  }

  predicate RedundantApproval(event: Event, p: Proposal, previous: Option<OwnReview>, postable: bool) {
    event == Approve && previous == Some(OwnReview(Approve, Some(p.head))) && !postable
  }

  predicate RedundantDecision(
    receipt: Option<Receipt>, event: Event, p: Proposal, previous: Option<OwnReview>, known: bool)
  {
    && SameDecision(receipt, event, BlockingFindings(p.lanes))
    && SameStanding(receipt, event, previous, known)
    && match event
       case Approve => p.Complete()
       case RequestChanges => true
       case Comment => receipt.value.coverage == Some(p.Complete())
  }

  function StandingAfterSuccess(
    event: Event, p: Proposal, previous: Option<OwnReview>, known: bool, withdrawalFailed: bool): Option<OwnReview>
  {
    if event == Comment && !known then None
    else if event == Comment && previous.Some?
        && (previous.value.event == RequestChanges
            || (previous.value.event == Approve && (!p.Unvouched() || withdrawalFailed)))
    then previous
    else Some(OwnReview(event, Some(p.head)))
  }

  /** The pull request and the store, between one publication and the next. */
  datatype World = World(
    head: string, open: bool, merged: bool, draft: bool, history: seq<Review>,
    hasStore: bool, receipt: Option<Receipt>)

  /** Which calls answer this time, and whether any finding has a line to be posted on. */
  datatype Weather = Weather(
    checks: bool, reviews: bool, files: bool, dismissal: bool, submission: bool, triage: bool,
    storeRead: bool, storeWrite: bool, postable: bool)

  datatype Disposition = Published | Superseded | Shut | Failed

  function Known(w: World, x: Weather): Option<OwnReview> {
    if x.reviews then Standing(w.history) else None
  }

  function EventFor(w: World, p: Proposal, c: Config, x: Weather): Event {
    ReviewEvent(c, p, if Known(w, x).Some? then Some(Known(w, x).value.event) else None, w.draft)
  }

  function ReceiptFor(w: World, x: Weather): Option<Receipt> {
    if w.hasStore && x.storeRead then w.receipt else None
  }

  predicate Withdraws(w: World, p: Proposal, c: Config, x: Weather) {
    && p.Unvouched() && EventFor(w, p, c, x) == Comment
    && (!x.reviews || (Known(w, x).Some? && Known(w, x).value.event == Approve))
  }

  predicate Submits(w: World, p: Proposal, c: Config, x: Weather) {
    var event := EventFor(w, p, c, x);
    && !RedundantApproval(event, p, Known(w, x), x.postable)
    && !RedundantDecision(ReceiptFor(w, x), event, p, Known(w, x), x.reviews)
    && (x.postable || event != Comment || p.MustSay())
  }

  predicate Current(w: World, p: Proposal) {
    w.open && !w.merged && w.head == p.head
  }

  function HistoryAfter(w: World, p: Proposal, c: Config, x: Weather): seq<Review> {
    var withdrawn := if Withdraws(w, p, c, x) && x.dismissal then Dismiss(w.history) else w.history;
    if Submits(w, p, c, x) && x.submission then Submit(withdrawn, EventFor(w, p, c, x), p.head) else withdrawn
  }

  function ReceiptAfter(w: World, p: Proposal, c: Config, x: Weather): Option<Receipt> {
    var blocking := BlockingFindings(p.lanes);
    if Submits(w, p, c, x) && x.submission && blocking.Some? && w.hasStore && x.storeWrite then
      var event := EventFor(w, p, c, x);
      Some(Receipt(event, p.head, blocking.value,
                   StandingAfterSuccess(event, p, Known(w, x), x.reviews, Withdraws(w, p, c, x) && !x.dismissal),
                   Some(p.Complete())))
    else w.receipt
  }

  function Outcome(w: World, p: Proposal, c: Config, x: Weather): Disposition {
    if !w.open || w.merged then Shut
    else if w.head != p.head then Superseded
    else if !x.checks || !x.files then Failed
    else if Submits(w, p, c, x) && !x.submission then Failed
    else if !x.triage then Failed
    else if Withdraws(w, p, c, x) && !x.dismissal then Failed
    else Published
  }

  function Publish(w: World, p: Proposal, c: Config, x: Weather): World {
    if !Current(w, p) || !x.checks || !x.files then w
    else w.(history := HistoryAfter(w, p, c, x), receipt := ReceiptAfter(w, p, c, x))
  }

  method BlockingFindingSet(p: Proposal) returns (identities: Option<set<string>>)
    ensures identities == BlockingFindings(p.lanes)
  {
    var found := {};
    for k := 0 to |p.lanes|
      invariant BlockingFindings(p.lanes[..k]) == Some(found)
    {
      assert p.lanes[..k + 1][..k] == p.lanes[..k];
      if p.lanes[k].blocking.None? {
        NoneIsContagious(p.lanes, k);
        return None;
      }
      found := found + p.lanes[k].blocking.value;
    }
    assert p.lanes[..|p.lanes|] == p.lanes;
    return Some(found);
  }

  lemma {:induction false} NoneIsContagious(lanes: seq<Lane>, k: nat)
    requires k < |lanes| && lanes[k].blocking.None?
    ensures BlockingFindings(lanes).None?
  {
    if k < |lanes| - 1 {
      NoneIsContagious(lanes[..|lanes| - 1], k);
    }
  }

  /** One pull request on the forge, with the receipt kept for it in the store. */
  class PullRequest {
    var head: string
    var open: bool
    var merged: bool
    var draft: bool
    var history: seq<Review>
    const hasStore: bool
    var receipt: Option<Receipt>

    constructor (head: string, draft: bool, hasStore: bool)
      ensures Value() == World(head, true, false, draft, [], hasStore, None)
    {
      this.head, open, merged, this.draft := head, true, false, draft;
      history, this.hasStore, receipt := [], hasStore, None;
    }

    function Value(): World
      reads this
    {
      World(head, open, merged, draft, history, hasStore, receipt)
    }

    method DismissOwnApproval()
      modifies this`history
      ensures history == Dismiss(old(history))
    {
      var standing := OwnStandingApproval(history);
      if standing.Some? {
        history := history[standing.value := history[standing.value].(mark := Dismissed)];
      }
    }

    method RecordApplyState(event: Event, p: Proposal, blocking: set<string>, standing: Option<OwnReview>, x: Weather)
      modifies this`receipt
      ensures receipt == if hasStore && x.storeWrite
        then Some(Receipt(event, p.head, blocking, standing, Some(p.Complete()))) else old(receipt)
    {
      if hasStore && x.storeWrite {
        receipt := Some(Receipt(event, p.head, blocking, standing, Some(p.Complete())));
      }
    }

    /** Dismiss an approval of ours that stands, unless the call fails. */
    method Withdraw(x: Weather) returns (failed: bool)
      modifies this`history
      ensures history == if x.dismissal then Dismiss(old(history)) else old(history)
      ensures failed == !x.dismissal
    {
      if x.dismissal {
        DismissOwnApproval();
      }
      return !x.dismissal;
    }

    /** Read what stands, then decide; nothing is written yet. */
    method Decide(p: Proposal, c: Config, x: Weather)
      returns (event: Event, previousReview: Option<OwnReview>, submits: bool, withdraws: bool)
      ensures event == EventFor(Value(), p, c, x) && previousReview == Known(Value(), x)
      ensures submits == Submits(Value(), p, c, x) && withdraws == Withdraws(Value(), p, c, x)
    {
      hide ReviewEvent, Standing, SameDecision, SameStanding;
      previousReview := None;
      if x.reviews {
        previousReview := OwnReviewState(history);
      }
      var previousKnown := x.reviews;
      var previous := if previousReview.Some? then Some(previousReview.value.event) else None;
      event := ReviewEvent(c, p, previous, draft);
      var publishedBefore := if hasStore && x.storeRead then receipt else None;
      var redundantApproval := RedundantApproval(event, p, previousReview, x.postable);
      var redundantDecision := RedundantDecision(publishedBefore, event, p, previousReview, previousKnown);
      withdraws := p.Unvouched() && event == Comment && (previous == Some(Approve) || !previousKnown);
      submits := !redundantApproval && !redundantDecision
        && (x.postable || event == Approve || event == RequestChanges || p.MustSay());
    }

    method Apply(p: Proposal, c: Config, x: Weather) returns (disposition: Disposition)
      modifies this`history, this`receipt
      ensures Value() == Publish(old(Value()), p, c, x)
      ensures disposition == Outcome(old(Value()), p, c, x)
    {
      hide EventFor, Known, Submits, Withdraws, StandingAfterSuccess, Submit, Dismiss, BlockingFindings;
      if !open || merged {
        return Shut;
      }
      if head != p.head {
        return Superseded;
      }
      if !x.checks || !x.files {
        return Failed;
      }
      var event, previousReview, submits, withdraws := Decide(p, c, x);
      var blocking := BlockingFindingSet(p);
      var withdrawalFailed := false;
      if withdraws {
        withdrawalFailed := Withdraw(x);
      }
      if submits {
        if !x.submission {
          return Failed;
        }
        history := Submit(history, event, p.head);
        if blocking.Some? {
          var standing := StandingAfterSuccess(event, p, previousReview, x.reviews, withdrawalFailed);
          RecordApplyState(event, p, blocking.value, standing, x);
        }
      }
      if !x.triage || withdrawalFailed {
        return Failed;
      }
      return Published;
    }
  }

  // ----- What stands after one publication -----

  /** A push nobody could vouch for never keeps an approval, whether or not the history could be read. */
  lemma UnvouchedKeepsNoApproval(w: World, p: Proposal, c: Config, x: Weather)
    requires Outcome(w, p, c, x) == Published && !p.Complete() && !p.skipped
    ensures StandingEvent(Publish(w, p, c, x).history) != Some(Approve)
  {
    hide Submit, Dismiss, Standing, BlockingFindings, RequestsChanges;
    var withdrawn := if Withdraws(w, p, c, x) then Dismiss(w.history) else w.history;
    DismissEmptiesTheApproval(w.history);
    SubmitMovesTheSlot(withdrawn, EventFor(w, p, c, x), p.head);
  }

  /** A fully reviewed push that draws no objection is never left behind an old one. */
  lemma CleanPushIsUnblocked(w: World, p: Proposal, c: Config, x: Weather)
    requires Outcome(w, p, c, x) == Published && x.reviews && p.Complete() && !RequestsChanges(c, p)
    ensures StandingEvent(Publish(w, p, c, x).history) != Some(RequestChanges)
  {
    SubmitMovesTheSlot(w.history, EventFor(w, p, c, x), p.head);
  }

  /** A decisive verdict stands after publication, submitted or already there. */
  lemma VerdictStands(w: World, p: Proposal, c: Config, x: Weather)
    requires Outcome(w, p, c, x) == Published && EventFor(w, p, c, x) != Comment
    ensures StandingEvent(Publish(w, p, c, x).history) == Some(EventFor(w, p, c, x))
    ensures Standing(Publish(w, p, c, x).history).value.head in {Some(p.head)} +
      (if ReceiptFor(w, x).Some? then {Some(ReceiptFor(w, x).value.head)} else {})
  {
    SubmitMovesTheSlot(w.history, EventFor(w, p, c, x), p.head);
  }

  /** With a known history, what the receipt says should stand is what stands. */
  lemma ReceiptMatchesTheForge(w: World, p: Proposal, c: Config, x: Weather)
    requires Current(w, p) && x.checks && x.files && x.reviews && x.submission && Submits(w, p, c, x)
    requires w.hasStore && x.storeWrite && BlockingFindings(p.lanes).Some?
    ensures var t := Publish(w, p, c, x);
      t.receipt.Some? && t.receipt.value.standing == Standing(t.history)
  {
    hide Submits, Submit, Dismiss, Standing, BlockingFindings, ReviewEvent;
    var withdrawn := if Withdraws(w, p, c, x) && x.dismissal then Dismiss(w.history) else w.history;
    DismissEmptiesTheApproval(w.history);
    SubmitMovesTheSlot(withdrawn, EventFor(w, p, c, x), p.head);
  }

  /** What the receipt says should stand is what stands. */
  predicate InStep(w: World) {
    w.receipt.Some? && w.receipt.value.standing == Standing(w.history)
  }

  /**
   * Exactly when a record that was in step stays so: the call submits, or takes nothing back. A
   * withdrawal with nothing to submit changes the forge and records nothing.
   */
  lemma RecordStaysInStepExactly(w: World, p: Proposal, c: Config, x: Weather)
    requires Current(w, p) && x.checks && x.files && x.reviews && w.hasStore && x.storeWrite
    requires BlockingFindings(p.lanes).Some? && InStep(w)
    ensures InStep(Publish(w, p, c, x)) <==>
      (Submits(w, p, c, x) && x.submission) || !(Withdraws(w, p, c, x) && x.dismissal)
  {
    hide Submits, Submit, Dismiss, BlockingFindings;
    if Submits(w, p, c, x) && x.submission {
      ReceiptMatchesTheForge(w, p, c, x);
    } else if Withdraws(w, p, c, x) && x.dismissal {
      DismissEmptiesTheApproval(w.history);
    }
  }

  /** A withheld file over a standing approval: the call succeeds and leaves the record stale. */
  lemma RecordCanGoStale(w: World, p: Proposal, c: Config)
    requires w == World("new", true, false, false, [Review(true, Approved, Some("old"))], true,
                        Some(Receipt(Approve, "old", {}, Some(OwnReview(Approve, Some("old"))), Some(true))))
    requires p == Proposal("new", true, false, true, []) && c == Config(None, true)
    ensures InStep(w) && Outcome(w, p, c, Fair(false)) == Published && !InStep(Publish(w, p, c, Fair(false)))
  {
    assert w.history[..0] == [];
    assert ReadAll(w.history) == Read(ReadAll([]), w.history[0]);
    assert Standing(w.history) == Some(OwnReview(Approve, Some("old")));
    RecordStaysInStepExactly(w, p, c, Fair(false));
  }

  function Fair(postable: bool): Weather {
    Weather(true, true, true, true, true, true, true, true, postable)
  }

  /**
   * Exactly when an approval stands after publication, over a readable history: one was decided, or
   * one stood before and a comment was decided by a review that vouched for the push or was skipped.
   */
  lemma WhenAnApprovalStands(w: World, p: Proposal, c: Config, x: Weather)
    requires Outcome(w, p, c, x) == Published && x.reviews
    ensures StandingEvent(Publish(w, p, c, x).history) == Some(Approve) <==>
      || EventFor(w, p, c, x) == Approve
      || (EventFor(w, p, c, x) == Comment && StandingEvent(w.history) == Some(Approve) && !p.Unvouched())
  {
    hide Submit, Dismiss, BlockingFindings, RequestsChanges;
    var withdrawn := if Withdraws(w, p, c, x) then Dismiss(w.history) else w.history;
    DismissEmptiesTheApproval(w.history);
    SubmitMovesTheSlot(withdrawn, EventFor(w, p, c, x), p.head);
  }

  /**
   * What that leaves: a complete review of a new head in which a lane fails, below the merge gate.
   * The call succeeds, and the approval of the old head still stands over the failing one.
   */
  lemma AnOldApprovalCanStandOverAFailingLane(w: World, p: Proposal, c: Config)
    requires w == World("new", true, false, false, [Review(true, Approved, Some("old"))], false, None)
    requires p == Proposal("new", true, false, false, [Lane(true, false, None, Some({}))]) && c == Config(None, true)
    ensures Outcome(w, p, c, Fair(false)) == Published && p.Blocked() && p.Complete()
    ensures Standing(Publish(w, p, c, Fair(false)).history) == Some(OwnReview(Approve, Some("old")))
  {
    assert p.lanes[0].blocks;
    assert w.history[..0] == [];
    assert ReadAll(w.history) == Read(ReadAll([]), w.history[0]);
    assert EventFor(w, p, c, Fair(false)) == Comment;
  }

  // ----- Approving a blocked proposal -----

  /**
   * An approval always covers a complete review that draws no changes request. It does not always
   * mean that no lane blocks: a blocked proposal is approved exactly when it is complete, its
   * findings stay under the merge gate, and the bot's own changes request still stands.
   */
  lemma WhenABlockedProposalIsApproved(c: Config, p: Proposal, previous: Option<Event>, draft: bool)
    ensures ReviewEvent(c, p, previous, draft) == Approve ==> p.Complete() && !RequestsChanges(c, p)
    ensures p.Blocked() ==>
      (ReviewEvent(c, p, previous, draft) == Approve <==>
       p.Complete() && !RequestsChanges(c, p) && previous == Some(RequestChanges))
  {
    if p.Blocked() && p.Complete() && previous == Some(RequestChanges) {
      assert ReviewEvent(c, p, previous, draft) in {Approve, RequestChanges};
    }
  }

  /** With the merge gate off, a failing lane is endorsed in order to lift an earlier objection. */
  lemma ABlockedProposalCanBeApproved()
    ensures exists c: Config, p: Proposal ::
      p.Blocked() && c.requestChangesAt.None? && ReviewEvent(c, p, Some(RequestChanges), false) == Approve
  {
    var c := Config(None, false);
    var p := Proposal("h", true, false, false, [Lane(true, false, None, Some({}))]);
    assert p.lanes[0].blocks;
    assert p.Blocked() && ReviewEvent(c, p, Some(RequestChanges), false) == Approve;
  }

  // ----- One review per unchanged decision -----

  /** One push and what its review came to, with whatever other people said before it. */
  datatype Turn = Turn(proposal: Proposal, draft: bool, postable: bool, others: seq<Review>)

  function Pushed(w: World, t: Turn): World {
    w.(head := t.proposal.head, draft := t.draft, history := w.history + t.others)
  }

  function TakeTurn(w: World, t: Turn, c: Config): World {
    Publish(Pushed(w, t), t.proposal, c, Fair(t.postable))
  }

  /** The turn reaches this decision, and only other people have spoken since the last one. */
  predicate Decides(w: World, t: Turn, c: Config, event: Event, blocking: set<string>, complete: bool) {
    && (forall k :: 0 <= k < |t.others| ==> !t.others[k].own)
    && EventFor(Pushed(w, t), t.proposal, c, Fair(t.postable)) == event
    && BlockingFindings(t.proposal.lanes) == Some(blocking)
    && t.proposal.Complete() == complete
  }

  predicate SameDecisionThroughout(
    w: World, turns: seq<Turn>, c: Config, event: Event, blocking: set<string>, complete: bool)
    decreases |turns|
  {
    turns == [] ||
      (Decides(w, turns[0], c, event, blocking, complete)
       && SameDecisionThroughout(TakeTurn(w, turns[0], c), turns[1..], c, event, blocking, complete))
  }

  function TakeTurns(w: World, turns: seq<Turn>, c: Config): World
    decreases |turns|
  {
    if turns == [] then w else TakeTurns(TakeTurn(w, turns[0], c), turns[1..], c)
  }

  /** The forge and the receipt agree that this decision has been published. */
  predicate Recorded(w: World, event: Event, blocking: set<string>, complete: bool) {
    && w.receipt.Some? && Standing(w.history).Some?
    && w.receipt.value.event == event
    && w.receipt.value.blocking == blocking
    && w.receipt.value.coverage == Some(complete)
    && w.receipt.value.standing == Standing(w.history)
    && (event != Comment ==> Standing(w.history) == Some(OwnReview(event, Some(w.receipt.value.head))))
    && (event == Comment && !complete ==> StandingEvent(w.history) != Some(Approve))
  }

  /** Once published, the decision is not published again, and its record stays true. */
  lemma RecordedDecisionIsSilent(
      w: World, t: Turn, c: Config, event: Event, blocking: set<string>, complete: bool)
    requires w.open && !w.merged && w.hasStore
    requires Recorded(w, event, blocking, complete) && Decides(w, t, c, event, blocking, complete)
    ensures !Submits(Pushed(w, t), t.proposal, c, Fair(t.postable))
    ensures Recorded(TakeTurn(w, t, c), event, blocking, complete)
    ensures OwnCount(TakeTurn(w, t, c).history) == OwnCount(w.history)
  {
    OthersDoNotMoveTheSlot(w.history, t.others);
  }

  /** A turn that does submit leaves its decision on record. */
  lemma SubmittingRecordsTheDecision(
      w: World, t: Turn, c: Config, event: Event, blocking: set<string>, complete: bool)
    requires w.open && !w.merged && w.hasStore && Decides(w, t, c, event, blocking, complete)
    requires Submits(Pushed(w, t), t.proposal, c, Fair(t.postable)) && (event != Comment || complete)
    ensures Recorded(TakeTurn(w, t, c), event, blocking, complete)
    ensures OwnCount(TakeTurn(w, t, c).history) == OwnCount(w.history) + 1
  {
    var before := Pushed(w, t);
    OthersDoNotMoveTheSlot(w.history, t.others);
    ReceiptMatchesTheForge(before, t.proposal, c, Fair(t.postable));
    SubmitMovesTheSlot(before.history, event, t.proposal.head);
    SubmitCounts(before.history, event, t.proposal.head);
  }

  lemma SilentTurnCountsNothing(w: World, t: Turn, c: Config)
    requires !Submits(Pushed(w, t), t.proposal, c, Fair(t.postable))
    requires forall k :: 0 <= k < |t.others| ==> !t.others[k].own
    ensures OwnCount(TakeTurn(w, t, c).history) == OwnCount(w.history)
  {
    OthersDoNotMoveTheSlot(w.history, t.others);
    DismissCountsNothing(Pushed(w, t).history);
  }

  lemma {:induction false} RecordedDecisionStaysSilent(
      w: World, turns: seq<Turn>, c: Config, event: Event, blocking: set<string>, complete: bool)
    requires w.open && !w.merged && w.hasStore && Recorded(w, event, blocking, complete)
    requires SameDecisionThroughout(w, turns, c, event, blocking, complete)
    ensures OwnCount(TakeTurns(w, turns, c).history) == OwnCount(w.history)
    decreases |turns|
  {
    hide Recorded, Decides;
    if turns != [] {
      RecordedDecisionIsSilent(w, turns[0], c, event, blocking, complete);
      RecordedDecisionStaysSilent(TakeTurn(w, turns[0], c), turns[1..], c, event, blocking, complete);
    }
  }

  /** A decided approval or changes request, or a comment on a complete review, is left once. */
  lemma {:induction false} OneReviewWhenVouchedFor(
      w: World, turns: seq<Turn>, c: Config, event: Event, blocking: set<string>, complete: bool)
    requires w.open && !w.merged && w.hasStore && (event != Comment || complete)
    requires SameDecisionThroughout(w, turns, c, event, blocking, complete)
    ensures OwnCount(TakeTurns(w, turns, c).history) <= OwnCount(w.history) + 1
    decreases |turns|
  {
    hide Recorded, Submits;
    if turns != [] {
      var next := TakeTurn(w, turns[0], c);
      if Submits(Pushed(w, turns[0]), turns[0].proposal, c, Fair(turns[0].postable)) {
        SubmittingRecordsTheDecision(w, turns[0], c, event, blocking, complete);
        RecordedDecisionStaysSilent(next, turns[1..], c, event, blocking, complete);
      } else {
        SilentTurnCountsNothing(w, turns[0], c);
        OneReviewWhenVouchedFor(next, turns[1..], c, event, blocking, complete);
      }
    }
  }

  // ----- Comments on incomplete reviews -----

  predicate Speaks(t: Turn) {
    t.postable || t.proposal.MustSay()
  }

  predicate ApprovalStands(w: World) {
    StandingEvent(w.history) == Some(Approve)
  }

  /** The receipt holds this comment on an incomplete review, and what it left standing still stands. */
  predicate CommentOnRecord(w: World, blocking: set<string>) {
    && SameDecision(w.receipt, Comment, Some(blocking))
    && SameStanding(w.receipt, Comment, Standing(w.history), true)
    && w.receipt.value.coverage == Some(false)
  }

  predicate Comments(w: World, t: Turn, c: Config, blocking: set<string>) {
    w.open && !w.merged && w.hasStore && Decides(w, t, c, Comment, blocking, false)
  }

  lemma CommentTurnActs(w: World, t: Turn, c: Config, blocking: set<string>)
    requires Comments(w, t, c, blocking)
    ensures var before, x := Pushed(w, t), Fair(t.postable);
      && Standing(before.history) == Standing(w.history) && OwnCount(before.history) == OwnCount(w.history)
      && (Submits(before, t.proposal, c, x) <==> Speaks(t) && !CommentOnRecord(w, blocking))
      && (Withdraws(before, t.proposal, c, x) <==> !t.proposal.skipped && ApprovalStands(w))
  {
    hide Standing, OwnCount, ReviewEvent, BlockingFindings;
    OthersDoNotMoveTheSlot(w.history, t.others);
  }

  lemma SpokenComment(w: World, t: Turn, c: Config, blocking: set<string>)
    requires Comments(w, t, c, blocking) && Submits(Pushed(w, t), t.proposal, c, Fair(t.postable))
    ensures var next := TakeTurn(w, t, c);
      && OwnCount(next.history) == OwnCount(w.history) + 1
      && (ApprovalStands(next) <==> ApprovalStands(w) && t.proposal.skipped)
      && CommentOnRecord(next, blocking)
  {
    hide Standing, OwnCount, ReviewEvent, BlockingFindings, Submits, Withdraws, Submit, Dismiss;
    var before, p := Pushed(w, t), t.proposal;
    CommentTurnActs(w, t, c, blocking);
    var kept := if Withdraws(before, p, c, Fair(t.postable)) then Dismiss(before.history) else before.history;
    DismissEmptiesTheApproval(before.history);
    DismissCountsNothing(before.history);
    SubmitMovesTheSlot(kept, Comment, p.head);
    SubmitCounts(kept, Comment, p.head);
    ReceiptMatchesTheForge(before, p, c, Fair(t.postable));
  }

  lemma SilentComment(w: World, t: Turn, c: Config, blocking: set<string>)
    requires Comments(w, t, c, blocking) && !Submits(Pushed(w, t), t.proposal, c, Fair(t.postable))
    ensures var next := TakeTurn(w, t, c);
      && OwnCount(next.history) == OwnCount(w.history)
      && (ApprovalStands(next) <==> ApprovalStands(w) && t.proposal.skipped)
      && (t.proposal.skipped || !ApprovalStands(w) ==>
            (CommentOnRecord(next, blocking) <==> CommentOnRecord(w, blocking)))
      && (!t.proposal.skipped && ApprovalStands(w) && CommentOnRecord(w, blocking) ==>
            !CommentOnRecord(next, blocking))
  {
    hide Standing, OwnCount, ReviewEvent, BlockingFindings, Submits, Withdraws, Submit, Dismiss;
    CommentTurnActs(w, t, c, blocking);
    DismissEmptiesTheApproval(Pushed(w, t).history);
    DismissCountsNothing(Pushed(w, t).history);
  }

  // ----- How many comments a block leaves -----

  predicate AllComment(w: World, turns: seq<Turn>, c: Config, blocking: set<string>) {
    w.open && !w.merged && w.hasStore && SameDecisionThroughout(w, turns, c, Comment, blocking, false)
  }

  predicate SomeSpeaks(turns: seq<Turn>) {
    exists k :: 0 <= k < |turns| && Speaks(turns[k])
  }

  /** A skipped stretch ends in a turn that was not skipped, and some turn after that one speaks. */
  predicate SpeaksAfterSkips(turns: seq<Turn>) {
    turns != [] && if turns[0].proposal.skipped then SpeaksAfterSkips(turns[1..]) else SomeSpeaks(turns[1..])
  }

  /** The same, with a turn that speaks inside the skipped stretch. */
  predicate SpeaksTwice(turns: seq<Turn>) {
    && turns != [] && turns[0].proposal.skipped
    && if Speaks(turns[0]) then SpeaksAfterSkips(turns[1..]) else SpeaksTwice(turns[1..])
  }

  lemma OneTurn(w: World, turns: seq<Turn>, c: Config, blocking: set<string>)
    requires turns != [] && AllComment(w, turns, c, blocking)
    ensures Comments(w, turns[0], c, blocking) && AllComment(TakeTurn(w, turns[0], c), turns[1..], c, blocking)
    ensures Submits(Pushed(w, turns[0]), turns[0].proposal, c, Fair(turns[0].postable))
      <==> Speaks(turns[0]) && !CommentOnRecord(w, blocking)
    ensures TakeTurns(w, turns, c) == TakeTurns(TakeTurn(w, turns[0], c), turns[1..], c)
    ensures SomeSpeaks(turns) <==> Speaks(turns[0]) || SomeSpeaks(turns[1..])
  {
    hide Submits, Decides, Speaks, CommentOnRecord, HistoryAfter, ReceiptAfter;
    CommentTurnActs(w, turns[0], c, blocking);
    if k :| 0 <= k < |turns| && Speaks(turns[k]) {
      assert k > 0 ==> turns[1..][k - 1] == turns[k];
    }
    if k :| 0 <= k < |turns[1..]| && Speaks(turns[1..][k]) {
      assert turns[1..][k] == turns[k + 1];
    }
  }

  /** With no approval standing, the first turn that speaks is the last, and not even that one if on record. */
  lemma {:induction false} CommentsOverNoApproval(w: World, turns: seq<Turn>, c: Config, blocking: set<string>)
    requires AllComment(w, turns, c, blocking) && !ApprovalStands(w)
    ensures OwnCount(TakeTurns(w, turns, c).history)
      == OwnCount(w.history) + if SomeSpeaks(turns) && !CommentOnRecord(w, blocking) then 1 else 0
    decreases |turns|
  {
    hide Submits, Speaks, CommentOnRecord, ApprovalStands, AllComment, Comments, OwnCount, TakeTurn;
    if turns != [] {
      OneTurn(w, turns, c, blocking);
      if Speaks(turns[0]) && !CommentOnRecord(w, blocking) {
        SpokenComment(w, turns[0], c, blocking);
      } else {
        SilentComment(w, turns[0], c, blocking);
      }
      CommentsOverNoApproval(TakeTurn(w, turns[0], c), turns[1..], c, blocking);
    }
  }

  /** A comment recorded over a standing approval holds until a silent turn dismisses the approval. */
  lemma {:induction false} CommentsOnRecordOverApproval(w: World, turns: seq<Turn>, c: Config, blocking: set<string>)
    requires AllComment(w, turns, c, blocking) && ApprovalStands(w) && CommentOnRecord(w, blocking)
    ensures OwnCount(TakeTurns(w, turns, c).history)
      == OwnCount(w.history) + if SpeaksAfterSkips(turns) then 1 else 0
    decreases |turns|
  {
    hide Submits, Speaks, CommentOnRecord, ApprovalStands, AllComment, Comments, OwnCount, SomeSpeaks, TakeTurn;
    if turns != [] {
      OneTurn(w, turns, c, blocking);
      SilentComment(w, turns[0], c, blocking);
      if turns[0].proposal.skipped {
        CommentsOnRecordOverApproval(TakeTurn(w, turns[0], c), turns[1..], c, blocking);
      } else {
        CommentsOverNoApproval(TakeTurn(w, turns[0], c), turns[1..], c, blocking);
      }
    }
  }

  lemma {:induction false} CommentsOverApproval(w: World, turns: seq<Turn>, c: Config, blocking: set<string>)
    requires AllComment(w, turns, c, blocking) && ApprovalStands(w) && !CommentOnRecord(w, blocking)
    ensures SpeaksTwice(turns) ==> OwnCount(TakeTurns(w, turns, c).history) == OwnCount(w.history) + 2
    ensures !SpeaksTwice(turns) ==> OwnCount(TakeTurns(w, turns, c).history) <= OwnCount(w.history) + 1
    decreases |turns|
  {
    hide Submits, Speaks, CommentOnRecord, ApprovalStands, AllComment, Comments, OwnCount, SomeSpeaks, TakeTurn;
    if turns != [] {
      OneTurn(w, turns, c, blocking);
      var next := TakeTurn(w, turns[0], c);
      if Speaks(turns[0]) {
        SpokenComment(w, turns[0], c, blocking);
        if turns[0].proposal.skipped {
          CommentsOnRecordOverApproval(next, turns[1..], c, blocking);
        } else {
          CommentsOverNoApproval(next, turns[1..], c, blocking);
        }
      } else {
        SilentComment(w, turns[0], c, blocking);
        if turns[0].proposal.skipped {
          CommentsOverApproval(next, turns[1..], c, blocking);
        } else {
          CommentsOverNoApproval(next, turns[1..], c, blocking);
        }
      }
    }
  }

  /**
   * The one way a block of equal decisions leaves two reviews: comments on incomplete reviews over
   * a standing approval. A skipped proposal speaks without withdrawing the approval, a later one
   * withdraws it in silence because the comment is on record, and the next one that speaks finds
   * its record out of step.
   */
  predicate TwoReviewsAreLeft(w: World, turns: seq<Turn>, event: Event, blocking: set<string>, complete: bool) {
    && event == Comment && !complete
    && ApprovalStands(w) && !CommentOnRecord(w, blocking) && SpeaksTwice(turns)
  }

  /**
   * However many heads are pushed, a block of consecutive proposals that reach the same decision
   * makes the bot leave at most one review, from any state of the forge and the receipt, if and
   * only if it is not that one case, which leaves two.
   */
  lemma OneReviewPerUnchangedDecision(
      w: World, turns: seq<Turn>, c: Config, event: Event, blocking: set<string>, complete: bool)
    requires w.open && !w.merged && w.hasStore
    requires SameDecisionThroughout(w, turns, c, event, blocking, complete)
    ensures OwnCount(TakeTurns(w, turns, c).history) <= OwnCount(w.history) + 1
      <==> !TwoReviewsAreLeft(w, turns, event, blocking, complete)
    ensures OwnCount(TakeTurns(w, turns, c).history) <= OwnCount(w.history) + 2
  {
    hide SameDecisionThroughout, ApprovalStands, CommentOnRecord, SpeaksTwice;
    if event != Comment || complete {
      OneReviewWhenVouchedFor(w, turns, c, event, blocking, complete);
    } else if !ApprovalStands(w) {
      CommentsOverNoApproval(w, turns, c, blocking);
    } else if CommentOnRecord(w, blocking) {
      CommentsOnRecordOverApproval(w, turns, c, blocking);
    } else {
      CommentsOverApproval(w, turns, c, blocking);
    }
  }

  lemma {:induction false} IncompleteReviewsComment(w: World, turns: seq<Turn>, c: Config)
    requires c.requestChangesAt.None?
    requires forall k :: 0 <= k < |turns| ==>
      turns[k].others == [] && !turns[k].proposal.Complete() && BlockingFindings(turns[k].proposal.lanes) == Some({})
    ensures SameDecisionThroughout(w, turns, c, Comment, {}, false)
    decreases |turns|
  {
    hide Publish, BlockingFindings, Known;
    if turns != [] {
      IncompleteReviewsComment(TakeTurn(w, turns[0], c), turns[1..], c);
    }
  }

  /** Such a run: a skipped proposal of another schema version, then two nobody answered. */
  lemma TwoReviewsCanBeLeft(w: World, odd: Turn, mute: Turn, c: Config)
    requires w == World("h", true, false, false, [Review(true, Approved, Some("old"))], true, None)
    requires odd == Turn(Proposal("h", false, true, false, []), false, false, [])
    requires mute == Turn(Proposal("h", true, false, false, [Lane(false, true, None, Some({}))]), false, false, [])
    requires c == Config(None, true)
    ensures SameDecisionThroughout(w, [odd, mute, mute], c, Comment, {}, false)
    ensures OwnCount(TakeTurns(w, [odd, mute, mute], c).history) == OwnCount(w.history) + 2
  {
    hide SameDecisionThroughout, TakeTurns, OwnCount, Standing, Publish;
    var turns := [odd, mute, mute];
    assert mute.proposal.lanes[..0] == [];
    assert BlockingFindings([]) == Some({});
    var none: set<string> := {};
    assert none + none == none;
    assert BlockingFindings(mute.proposal.lanes) == Some({});
    assert mute.proposal.lanes[0].unanswered;
    assert w.history[..0] == [];
    assert StandingApproval(w.history) == Some(0);
    ApprovalInForce(w.history);
    assert turns[1..] == [mute, mute] && [mute, mute][1..] == [mute];
    assert [mute][0] == mute && SomeSpeaks([mute]);
    assert SpeaksTwice(turns);
    IncompleteReviewsComment(w, turns, c);
    OneReviewPerUnchangedDecision(w, turns, c, Comment, {}, false);
  }
}
