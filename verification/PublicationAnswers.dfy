/**
 * What one publication decides and leaves behind, from the proposal's lanes and the configuration
 * alone.
 */
module PublicationAnswers {
  import opened Prelude
  import opened ReviewHistory
  import opened Publication

  predicate SomeLaneBlocks(p: Proposal) {
    exists k :: 0 <= k < |p.lanes| && p.lanes[k].blocks
  }

  /** The merge gate is on, a lane blocks, and a finding reaches the gate's severity. */
  predicate GateObjects(c: Config, p: Proposal) {
    && c.requestChangesAt.Some? && SomeLaneBlocks(p)
    && exists k | 0 <= k < |p.lanes| ::
      p.lanes[k].highest.Some? && p.lanes[k].highest.value >= c.requestChangesAt.value
  }

  /** A review of the current schema that was not skipped, saw every file and got every answer. */
  predicate SawEverything(p: Proposal) {
    p.currentVersion && !p.skipped && !p.unreviewed && forall k :: 0 <= k < |p.lanes| ==> !p.lanes[k].unanswered
  }

  /** The bot's own changes request stands, and the forge could be asked. */
  predicate ObjectionKnown(w: World, x: Weather) {
    x.reviews && StandingEvent(w.history) == Some(RequestChanges)
  }

  // ----- Which event is decided -----

  lemma DecidedEventExactly(w: World, p: Proposal, c: Config, x: Weather)
    ensures EventFor(w, p, c, x) == RequestChanges <==> GateObjects(c, p)
    ensures EventFor(w, p, c, x) == Approve <==>
      && !GateObjects(c, p) && SawEverything(p)
      && ((!w.draft && !SomeLaneBlocks(p) && c.approveWhenClean) || ObjectionKnown(w, x))
  {
    hide Standing;
    assert RequestsChanges(c, p) <==> GateObjects(c, p) by {
      assert p.Blocked() <==> SomeLaneBlocks(p);
      if c.requestChangesAt.Some? {
        assert p.HasSeverityAtOrAbove(c.requestChangesAt.value) <==>
          exists k :: 0 <= k < |p.lanes| && p.lanes[k].highest.Some?
            && p.lanes[k].highest.value >= c.requestChangesAt.value;
      }
    }
    assert p.Complete() <==> SawEverything(p);
  }

  // ----- What stands -----

  /** An objection of the gate always stands after a successful publication. */
  lemma ObjectionsStand(w: World, p: Proposal, c: Config, x: Weather)
    requires Outcome(w, p, c, x) == Published && GateObjects(c, p)
    ensures StandingEvent(Publish(w, p, c, x).history) == Some(RequestChanges)
  {
    hide Outcome, Publish, EventFor, GateObjects, StandingEvent;
    DecidedEventExactly(w, p, c, x);
    VerdictStands(w, p, c, x);
  }

  /** So does an approval of a clean and complete review of a pull request that is no draft, when those are approved. */
  lemma CleanReviewsAreApproved(w: World, p: Proposal, c: Config, x: Weather)
    requires Outcome(w, p, c, x) == Published
    requires !w.draft && !SomeLaneBlocks(p) && SawEverything(p) && c.approveWhenClean
    ensures StandingEvent(Publish(w, p, c, x).history) == Some(Approve)
  {
    hide Outcome, Publish, EventFor, StandingEvent;
    DecidedEventExactly(w, p, c, x);
    VerdictStands(w, p, c, x);
  }

  /** No objection stands that the gate did not make now, once the review saw everything. */
  lemma NoOtherObjectionStands(w: World, p: Proposal, c: Config, x: Weather)
    requires Outcome(w, p, c, x) == Published && x.reviews && SawEverything(p)
    ensures StandingEvent(Publish(w, p, c, x).history) == Some(RequestChanges) <==> GateObjects(c, p)
  {
    hide Outcome, Publish, EventFor, StandingEvent, GateObjects;
    DecidedEventExactly(w, p, c, x);
    assert p.Complete() <==> SawEverything(p);
    if GateObjects(c, p) {
      ObjectionsStand(w, p, c, x);
    } else {
      assert !RequestsChanges(c, p) by {
        assert EventFor(w, p, c, x) != RequestChanges;
        ObjectionIsDecided(w, p, c, x);
      }
      CleanPushIsUnblocked(w, p, c, x);
    }
  }

  lemma ObjectionIsDecided(w: World, p: Proposal, c: Config, x: Weather)
    ensures RequestsChanges(c, p) ==> EventFor(w, p, c, x) == RequestChanges
  {
  }

  // ----- What is said, and what is not said twice -----

  /** A question nobody answered, or a schema of another version, is always said, unless it is on record. */
  lemma UnansweredIsSaid(w: World, p: Proposal, c: Config, x: Weather)
    requires Outcome(w, p, c, x) == Published && !GateObjects(c, p) && ReceiptFor(w, x).None?
    requires !p.currentVersion || exists k :: 0 <= k < |p.lanes| && p.lanes[k].unanswered
    ensures OwnCount(Publish(w, p, c, x).history) == OwnCount(w.history) + 1
  {
    hide Standing, OwnCount, Submit, Dismiss, BlockingFindings, GateObjects;
    DecidedEventExactly(w, p, c, x);
    assert p.MustSay() && !p.Complete();
    SubmissionCounts(w, p, c, x);
  }

  lemma SubmissionCounts(w: World, p: Proposal, c: Config, x: Weather)
    ensures OwnCount(HistoryAfter(w, p, c, x))
      == OwnCount(w.history) + if Submits(w, p, c, x) && x.submission then 1 else 0
  {
    hide Submits, Withdraws, EventFor, OwnCount, Submit, Dismiss;
    DismissCountsNothing(w.history);
    SubmitCounts(w.history, EventFor(w, p, c, x), p.head);
    SubmitCounts(Dismiss(w.history), EventFor(w, p, c, x), p.head);
  }

  /** A comment with nothing to post and nothing unanswered is not made at all. */
  lemma NothingToSayIsNotSaid(w: World, p: Proposal, c: Config, x: Weather)
    requires EventFor(w, p, c, x) == Comment && !x.postable && p.currentVersion
    requires forall k :: 0 <= k < |p.lanes| ==> !p.lanes[k].unanswered
    ensures OwnCount(Publish(w, p, c, x).history) == OwnCount(w.history)
  {
    hide EventFor, OwnCount, HistoryAfter;
    assert !p.MustSay();
    SubmissionCounts(w, p, c, x);
  }

  /** An approval of this very head is not restated, store or no store, while there is nothing to post. */
  lemma ApprovalsAreNotRestated(w: World, p: Proposal, c: Config, x: Weather)
    requires Current(w, p) && x.reviews && !x.postable && EventFor(w, p, c, x) == Approve
    requires Standing(w.history) == Some(OwnReview(Approve, Some(p.head)))
    ensures Publish(w, p, c, x) == w
  {
    hide EventFor, Standing, BlockingFindings;
  }

  /** Findings with a line to be posted on are posted, unless the decision is on record. */
  lemma PostableIsPosted(w: World, p: Proposal, c: Config, x: Weather)
    requires Outcome(w, p, c, x) == Published && x.postable && ReceiptFor(w, x).None?
    ensures OwnCount(Publish(w, p, c, x).history) == OwnCount(w.history) + 1
  {
    hide Standing, OwnCount, EventFor, Withdraws, HistoryAfter;
    SubmissionCounts(w, p, c, x);
  }

  /** The record `r` says otherwise: another event, blocking set, coverage of a comment or standing review. */
  predicate Changed(w: World, p: Proposal, x: Weather, event: Event, r: Receipt) {
    || !x.reviews || r.event != event || BlockingFindings(p.lanes) != Some(r.blocking)
    || (event == Comment && r.coverage != Some(SawEverything(p)))
    || (if event != Comment then Standing(w.history) != Some(OwnReview(event, Some(r.head)))
        else if r.standing.Some? then Standing(w.history) != r.standing
        else Standing(w.history) != Some(OwnReview(Comment, Some(r.head))))
  }

  /** And a record keeps them back only while it says the same. */
  lemma ChangedDecisionsAreSaid(w: World, p: Proposal, c: Config, x: Weather)
    requires Outcome(w, p, c, x) == Published && x.postable && ReceiptFor(w, x).Some?
    ensures OwnCount(Publish(w, p, c, x).history)
      == OwnCount(w.history) + if Changed(w, p, x, EventFor(w, p, c, x), ReceiptFor(w, x).value) then 1 else 0
  {
    hide Standing, OwnCount, Withdraws, HistoryAfter, BlockingFindings, RequestsChanges, StandingEvent;
    SubmissionCounts(w, p, c, x);
    assert p.Complete() <==> SawEverything(p);
  }

  // ----- When it succeeds, and when it keeps its hands off -----

  /** When every call answers, an open pull request at the reviewed head is published to. */
  lemma FairWeatherPublishes(w: World, p: Proposal, c: Config, postable: bool)
    requires w.open && !w.merged && w.head == p.head
    ensures Outcome(w, p, c, Fair(postable)) == Published
  {
    hide Submits, Withdraws;
  }

  /** A closed, merged or moved pull request is reported as such and not touched. */
  lemma StaleReviewsTouchNothing(w: World, p: Proposal, c: Config, x: Weather)
    ensures Outcome(w, p, c, x) == Shut <==> !w.open || w.merged
    ensures Outcome(w, p, c, x) == Superseded <==> w.open && !w.merged && w.head != p.head
    ensures Outcome(w, p, c, x) in {Shut, Superseded} ==> Publish(w, p, c, x) == w
  {
    hide Submits, Withdraws, HistoryAfter, ReceiptAfter;
  }

  // ----- What is recorded -----

  lemma {:induction false} BlockingIsTheUnion(lanes: seq<Lane>)
    ensures BlockingFindings(lanes).Some? <==> forall k :: 0 <= k < |lanes| ==> lanes[k].blocking.Some?
    ensures BlockingFindings(lanes).Some? ==> forall id :: id in BlockingFindings(lanes).value <==>
      exists k :: 0 <= k < |lanes| && lanes[k].blocking.Some? && id in lanes[k].blocking.value
  {
    if lanes != [] {
      var n := |lanes| - 1;
      BlockingIsTheUnion(lanes[..n]);
      assert forall k :: 0 <= k < n ==> lanes[..n][k] == lanes[k];
      if BlockingFindings(lanes).Some? {
        forall id
          ensures id in BlockingFindings(lanes).value <==>
            exists k :: 0 <= k < |lanes| && lanes[k].blocking.Some? && id in lanes[k].blocking.value
        {
          if id in BlockingFindings(lanes[..n]).value {
            var k :| 0 <= k < n && lanes[..n][k].blocking.Some? && id in lanes[..n][k].blocking.value;
            assert lanes[k].blocking.Some? && id in lanes[k].blocking.value;
          }
          if k :| 0 <= k < |lanes| && lanes[k].blocking.Some? && id in lanes[k].blocking.value {
            assert k < n ==> lanes[..n][k].blocking.Some? && id in lanes[..n][k].blocking.value;
          }
        }
      }
    }
  }

  /**
   * The receipt says what was done. After a submission the store took, it holds the event and head of
   * the review that is now last on the forge, all the lanes' blocking findings, and whether the review
   * saw everything.
   */
  lemma ReceiptSaysWhatWasDone(w: World, p: Proposal, c: Config, x: Weather)
    requires Current(w, p) && x.checks && x.files && x.submission && Submits(w, p, c, x)
    requires w.hasStore && x.storeWrite && forall k :: 0 <= k < |p.lanes| ==> p.lanes[k].blocking.Some?
    ensures var t := Publish(w, p, c, x);
      && t.receipt.Some? && t.history != []
      && t.history[|t.history| - 1] == Review(true, MarkOf(t.receipt.value.event), Some(t.receipt.value.head))
      && t.receipt.value.head == p.head
      && t.receipt.value.coverage == Some(SawEverything(p))
      && forall id :: id in t.receipt.value.blocking <==>
        exists k :: 0 <= k < |p.lanes| && p.lanes[k].blocking.Some? && id in p.lanes[k].blocking.value
  {
    hide Submits, Withdraws, EventFor, Dismiss, BlockingFindings, StandingAfterSuccess;
    BlockingIsTheUnion(p.lanes);
    assert p.Complete() <==> SawEverything(p);
  }

  // ----- What stands, read off the history -----

  predicate Verdict(review: Review) {
    review.own && review.mark in {ChangesRequested, Approved, Dismissed}
  }

  predicate Remark(review: Review) {
    review.own && review.mark in {Commented, Dismissed}
  }

  /** `at` is the last review that passes the test. */
  predicate LastOf(history: seq<Review>, test: Review -> bool, at: nat) {
    at < |history| && test(history[at]) && forall k :: at < k < |history| ==> !test(history[k])
  }

  predicate NoneOf(history: seq<Review>, test: Review -> bool) {
    forall k :: 0 <= k < |history| ==> !test(history[k])
  }

  /**
   * The bot's last verdict stands, with the head it was left on. When that was dismissed, or there
   * is none, the last comment or dismissal stands as a comment, and otherwise nothing does.
   */
  lemma {:induction false} StandingIsTheLastVerdict(history: seq<Review>)
    ensures forall at: nat | LastOf(history, Verdict, at) && history[at].mark == Approved ::
      Standing(history) == Some(OwnReview(Approve, history[at].head)) && StandingApproval(history) == Some(at)
    ensures forall at: nat | LastOf(history, Verdict, at) && history[at].mark == ChangesRequested ::
      Standing(history) == Some(OwnReview(RequestChanges, history[at].head)) && StandingApproval(history) == None
    ensures forall at: nat, said: nat | LastOf(history, Remark, said) && LastOf(history, Verdict, at)
        && history[at].mark == Dismissed ::
      Standing(history) == Some(OwnReview(Comment, history[said].head)) && StandingApproval(history) == None
    ensures forall said: nat | LastOf(history, Remark, said) && NoneOf(history, Verdict) ::
      Standing(history) == Some(OwnReview(Comment, history[said].head)) && StandingApproval(history) == None
    ensures NoneOf(history, Verdict) && NoneOf(history, Remark) ==>
      Standing(history) == None && StandingApproval(history) == None
  {
    VerdictIsRead(history);
    RemarkIsRead(history);
  }

  /** An approval in force is dismissed where it stands, and no other review is touched. */
  lemma OnlyTheApprovalIsDismissed(history: seq<Review>)
    ensures |Dismiss(history)| == |history|
    ensures forall k: nat :: k < |history| ==>
      Dismiss(history)[k] == if LastOf(history, Verdict, k) && history[k].mark == Approved
        then history[k].(mark := Dismissed) else history[k]
  {
    hide LastOf, NoneOf, ReadAll;
    VerdictIsRead(history);
    if forall k: nat :: !LastOf(history, Verdict, k) {
      NoVerdict(history);
    } else {
      var at: nat :| LastOf(history, Verdict, at);
      forall k: nat | LastOf(history, Verdict, k) ensures k == at {
        OneLast(history, Verdict, at, k);
      }
      LastIsThere(history, Verdict, at);
    }
  }

  lemma LastIsThere(history: seq<Review>, test: Review -> bool, at: nat)
    requires LastOf(history, test, at)
    ensures at < |history|
  {
  }

  lemma OneLast(history: seq<Review>, test: Review -> bool, i: nat, j: nat)
    requires LastOf(history, test, i) && LastOf(history, test, j)
    ensures i == j
  {
  }

  lemma NoVerdict(history: seq<Review>)
    requires forall k: nat :: !LastOf(history, Verdict, k)
    ensures NoneOf(history, Verdict)
  {
    if k: nat :| k < |history| && Verdict(history[k]) {
      var last := LastFrom(history, Verdict, k);
      assert false;
    }
  }

  lemma {:induction false} LastFrom(history: seq<Review>, test: Review -> bool, from: nat) returns (at: nat)
    requires from < |history| && test(history[from])
    ensures LastOf(history, test, at)
    decreases |history| - from
  {
    if later: nat :| from < later < |history| && test(history[later]) {
      at := LastFrom(history, test, later);
    } else {
      at := from;
    }
  }

  /** A publication leaves at most one review more, and changes none but an approval its review cannot vouch for. */
  lemma NothingElseIsTouched(w: World, p: Proposal, c: Config, x: Weather)
    ensures var before, after := w.history, Publish(w, p, c, x).history;
      && |before| <= |after| <= |before| + 1
      && forall k: nat :: k < |before| ==>
        || after[k] == before[k]
        || (LastOf(before, Verdict, k) && before[k].mark == Approved && after[k] == before[k].(mark := Dismissed)
            && !p.skipped && !SawEverything(p))
  {
    hide LastOf, Submits, EventFor, Dismiss, ReceiptAfter, Known;
    OnlyTheApprovalIsDismissed(w.history);
    assert p.Complete() <==> SawEverything(p);
  }

  lemma {:induction false} VerdictIsRead(history: seq<Review>)
    ensures forall at: nat | LastOf(history, Verdict, at) ::
      && ReadAll(history).verdict == (match history[at].mark
          case Approved => Some(OwnReview(Approve, history[at].head))
          case ChangesRequested => Some(OwnReview(RequestChanges, history[at].head))
          case _ => None)
      && StandingApproval(history) == if history[at].mark == Approved then Some(at) else None
    ensures NoneOf(history, Verdict) ==> ReadAll(history).verdict == None && StandingApproval(history) == None
  {
    if history != [] {
      var n := |history| - 1;
      VerdictIsRead(history[..n]);
      hide LastOf, NoneOf;
      forall at: nat | LastOf(history, Verdict, at)
        ensures if Verdict(history[n]) then at == n else at < n && LastOf(history[..n], Verdict, at)
      {
        LastBefore(history, Verdict, at);
      }
      if NoneOf(history, Verdict) {
        NoneBefore(history, Verdict);
      }
    }
  }

  lemma {:induction false} RemarkIsRead(history: seq<Review>)
    ensures forall at: nat | LastOf(history, Remark, at) ::
      ReadAll(history).comment == Some(OwnReview(Comment, history[at].head))
    ensures NoneOf(history, Remark) ==> ReadAll(history).comment == None
  {
    if history != [] {
      var n := |history| - 1;
      RemarkIsRead(history[..n]);
      hide LastOf, NoneOf;
      forall at: nat | LastOf(history, Remark, at)
        ensures if Remark(history[n]) then at == n else at < n && LastOf(history[..n], Remark, at)
      {
        LastBefore(history, Remark, at);
      }
      if NoneOf(history, Remark) {
        NoneBefore(history, Remark);
      }
    }
  }

  lemma LastBefore(history: seq<Review>, test: Review -> bool, at: nat)
    requires history != [] && LastOf(history, test, at)
    ensures var n := |history| - 1;
      if test(history[n]) then at == n else at < n && LastOf(history[..n], test, at)
  {
  }

  lemma NoneBefore(history: seq<Review>, test: Review -> bool)
    requires history != [] && NoneOf(history, test)
    ensures !test(history[|history| - 1]) && NoneOf(history[..|history| - 1], test)
  {
  }
}
