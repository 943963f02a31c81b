/**
 * The bot's own standing review, read back from a pull request's review history. The forge keeps
 * every review ever left, oldest first; only a fold over them says which verdict stands.
 */
module ReviewHistory {
  import opened Prelude

  datatype Event = Approve | RequestChanges | Comment

  /** The state the forge reports for one past review. */
  datatype Mark = ChangesRequested | Approved | Dismissed | Commented | Pending

  /** `own` is whether the bot left it; `head` is the commit it is attached to, when known. */
  datatype Review = Review(own: bool, mark: Mark, head: Option<string>)

  datatype OwnReview = OwnReview(event: Event, head: Option<string>)

  datatype Reading = Reading(verdict: Option<OwnReview>, comment: Option<OwnReview>)

  function Read(reading: Reading, review: Review): Reading {
    if !review.own then reading
    else match review.mark
      case ChangesRequested => reading.(verdict := Some(OwnReview(RequestChanges, review.head)))
      case Approved => reading.(verdict := Some(OwnReview(Approve, review.head)))
      case Dismissed => Reading(None, Some(OwnReview(Comment, review.head)))
      case Commented => reading.(comment := Some(OwnReview(Comment, review.head)))
      case Pending => reading
  }

  function ReadAll(history: seq<Review>): Reading {
    if history == [] then Reading(None, None)
    else Read(ReadAll(history[..|history| - 1]), history[|history| - 1])
  }

  /** The verdict that stands, or else the last comment: `own_review_state`. */
  function Standing(history: seq<Review>): Option<OwnReview> {
    var reading := ReadAll(history);
    if reading.verdict.Some? then reading.verdict else reading.comment
  }

  function StandingEvent(history: seq<Review>): Option<Event> {
    if Standing(history).Some? then Some(Standing(history).value.event) else None
  }

  /** The position of the approval in force, if one is. */
  function StandingApproval(history: seq<Review>): (at: Option<nat>)
    ensures at.Some? ==> at.value < |history| && history[at.value].own && history[at.value].mark == Approved
  {
    if history == [] then None
    else
      var last := history[|history| - 1];
      if last.own && last.mark == Approved then Some(|history| - 1)
      else if last.own && last.mark in {ChangesRequested, Dismissed} then None
      else StandingApproval(history[..|history| - 1])
  }

  method OwnReviewState(history: seq<Review>) returns (standing: Option<OwnReview>)
    ensures standing == Standing(history)
  {
    var lastVerdict: Option<OwnReview>, lastComment: Option<OwnReview> := None, None;
    for k := 0 to |history|
      invariant Reading(lastVerdict, lastComment) == ReadAll(history[..k])
    {
      assert history[..k + 1][..k] == history[..k];
      var review := history[k];
      if review.own {
        match review.mark {
          case ChangesRequested => lastVerdict := Some(OwnReview(RequestChanges, review.head));
          case Approved => lastVerdict := Some(OwnReview(Approve, review.head));
          case Dismissed => lastVerdict, lastComment := None, Some(OwnReview(Comment, review.head));
          case Commented => lastComment := Some(OwnReview(Comment, review.head));
          case Pending =>
        }
      }
    }
    assert history[..|history|] == history;
    standing := if lastVerdict.Some? then lastVerdict else lastComment;
  }

  method OwnStandingApproval(history: seq<Review>) returns (standing: Option<nat>)
    ensures standing == StandingApproval(history)
  {
    standing := None;
    for k := 0 to |history|
      invariant standing == StandingApproval(history[..k])
    {
      assert history[..k + 1][..k] == history[..k];
      var review := history[k];
      if review.own {
        if review.mark == Approved {
          standing := Some(k);
        } else if review.mark == ChangesRequested || review.mark == Dismissed {
          standing := None;
        }
      }
    }
    assert history[..|history|] == history;
  }

  function MarkOf(event: Event): Mark {
    match event
    case Approve => Approved
    case RequestChanges => ChangesRequested
    case Comment => Commented
  }

  function Submit(history: seq<Review>, event: Event, head: string): seq<Review> {
    history + [Review(true, MarkOf(event), Some(head))]
  }

  /** Dismissal rewrites the approval in force where it stands in the history. */
  function Dismiss(history: seq<Review>): seq<Review> {
    var at := StandingApproval(history);
    if at.None? then history else history[at.value := history[at.value].(mark := Dismissed)]
  }

  predicate Decisive(review: Option<OwnReview>) {
    review.Some? && review.value.event != Comment
  }

  /** The dismissal and the read-back agree on whether an approval stands. */
  lemma {:induction false} ApprovalInForce(history: seq<Review>)
    ensures StandingApproval(history).Some? <==> StandingEvent(history) == Some(Approve)
    ensures ReadAll(history).verdict.Some? ==> ReadAll(history).verdict.value.event != Comment
    ensures ReadAll(history).comment.Some? ==> ReadAll(history).comment.value.event == Comment
  {
    if history != [] {
      ApprovalInForce(history[..|history| - 1]);
    }
  }

  /** As one slot: a verdict overwrites it, a comment fills it only over no verdict. */
  lemma SubmitMovesTheSlot(history: seq<Review>, event: Event, head: string)
    ensures Standing(Submit(history, event, head))
      == if event == Comment && Decisive(Standing(history)) then Standing(history)
         else Some(OwnReview(event, Some(head)))
  {
    ApprovalInForce(history);
    assert Submit(history, event, head)[..|history|] == history;
  }

  /** A dismissal leaves no verdict standing where an approval stood, and is otherwise nothing. */
  lemma DismissEmptiesTheApproval(history: seq<Review>)
    ensures StandingEvent(history) != Some(Approve) ==> Dismiss(history) == history
    ensures StandingEvent(history) == Some(Approve) ==> ReadAll(Dismiss(history)).verdict == None
    ensures StandingEvent(history) == Some(Approve) ==> !Decisive(Standing(Dismiss(history)))
    ensures StandingEvent(Dismiss(history)) != Some(Approve)
  {
    ApprovalInForce(history);
    if StandingApproval(history).Some? {
      DismissedAt(history);
      ApprovalInForce(Dismiss(history));
    }
  }

  lemma {:induction false} DismissedAt(history: seq<Review>)
    requires StandingApproval(history).Some?
    ensures ReadAll(Dismiss(history)).verdict == None && ReadAll(Dismiss(history)).comment.Some?
  {
    var n := |history| - 1;
    if history[n].own && history[n].mark == Approved {
    } else {
      DismissedAt(history[..n]);
      assert Dismiss(history)[..n] == Dismiss(history[..n]);
    }
  }

  /** Reviews other people leave never move the bot's slot. */
  lemma {:induction false} OthersDoNotMoveTheSlot(history: seq<Review>, others: seq<Review>)
    requires forall k :: 0 <= k < |others| ==> !others[k].own
    ensures Standing(history + others) == Standing(history)
    ensures ReadAll(history + others) == ReadAll(history)
    ensures OwnCount(history + others) == OwnCount(history)
  {
    if others == [] {
      assert history + others == history;
    } else {
      var n := |others| - 1;
      OthersDoNotMoveTheSlot(history, others[..n]);
      assert (history + others)[..|history| + n] == history + others[..n];
    }
  }

  /** How many reviews the bot itself has left. */
  function OwnCount(history: seq<Review>): nat {
    if history == [] then 0
    else OwnCount(history[..|history| - 1]) + if history[|history| - 1].own then 1 else 0
  }

  lemma SubmitCounts(history: seq<Review>, event: Event, head: string)
    ensures OwnCount(Submit(history, event, head)) == OwnCount(history) + 1
  {
    assert Submit(history, event, head)[..|history|] == history;
  }

  lemma DismissCountsNothing(history: seq<Review>)
    ensures OwnCount(Dismiss(history)) == OwnCount(history)
  {
    if StandingApproval(history).Some? {
      MarkDoesNotCount(history, StandingApproval(history).value, Dismissed);
    }
  }

  lemma {:induction false} MarkDoesNotCount(history: seq<Review>, at: nat, mark: Mark)
    requires at < |history|
    ensures OwnCount(history[at := history[at].(mark := mark)]) == OwnCount(history)
  {
    var n := |history| - 1;
    if at < n {
      MarkDoesNotCount(history[..n], at, mark);
      assert history[at := history[at].(mark := mark)][..n] == history[..n][at := history[at].(mark := mark)];
    } else {
      assert history[at := history[at].(mark := mark)][..n] == history[..n];
    }
  }
}
