/**
 * Who joins whom, said without the loop: how one more review is placed among the groups the earlier
 * ones have formed.
 */
module CouncilRounds {
  import opened Prelude
  import opened Agreement
  import opened Council
  import opened CouncilMerge

  /** For each finding of a review the group it joins, or none when it starts its own. */
  type Placement = seq<Option<nat>>

  /** One of the first `upto` findings joins group `k`. */
  predicate Taken(place: Placement, k: nat, upto: nat)
    requires upto <= |place|
  {
    exists j :: 0 <= j < upto && place[j] == Some(k)
  }

  /** Group `k` is open to finding `i`: its result corroborates it and no earlier finding took it. */
  predicate Open(settled: seq<seq<Entry>>, review: seq<Finding>, place: Placement, i: nat, k: nat)
    requires Proper(settled) && i < |review| == |place| && k < |settled|
  {
    Corroborates(Result(settled[k]), review[i]) && !Taken(place, k, i)
  }

  /** Every finding joins the first group open to it, and starts its own only when there is none. */
  predicate Greedy(settled: seq<seq<Entry>>, review: seq<Finding>, place: Placement)
    requires Proper(settled)
  {
    && |place| == |review|
    && forall i :: 0 <= i < |review| ==>
      match place[i]
      case None => forall k :: 0 <= k < |settled| ==> !Open(settled, review, place, i, k)
      case Some(k) =>
        && k < |settled| && Open(settled, review, place, i, k)
        && forall earlier :: 0 <= earlier < k ==> !Open(settled, review, place, i, earlier)
  }

  /** Each group has grown by the finding that joined it, if one did. */
  predicate Grown(
    settled: seq<seq<Entry>>, review: seq<Finding>, reviewer: nat, place: Placement, groups: seq<seq<Entry>>)
  {
    && |groups| == |settled| && |place| == |review|
    && (forall k, i | 0 <= k < |settled| && 0 <= i < |review| && place[i] == Some(k) ::
          groups[k] == settled[k] + [Entry(reviewer, review[i])])
    && (forall k :: 0 <= k < |settled| && !Taken(place, k, |place|) ==> groups[k] == settled[k])
  }

  /** The findings that start their own groups, in order. */
  function Newcomers(review: seq<Finding>, reviewer: nat, place: Placement): seq<Entry>
    requires |review| == |place|
    decreases |review|
  {
    if review == [] then []
    else
      var n := |review| - 1;
      Newcomers(review[..n], reviewer, place[..n]) + if place[n].None? then [Entry(reviewer, review[n])] else []
  }

  // ----- The rules fix the placement -----

  lemma TakenInBoth(p: Placement, q: Placement, k: nat, upto: nat)
    requires upto <= |p| && upto <= |q| && p[..upto] == q[..upto]
    ensures Taken(p, k, upto) <==> Taken(q, k, upto)
  {
    assert forall j :: 0 <= j < upto ==> p[j] == p[..upto][j] == q[..upto][j] == q[j];
  }

  /** There is only one way to place a review by those rules. */
  lemma {:induction false} PlacementIsUnique(
      settled: seq<seq<Entry>>, review: seq<Finding>, p: Placement, q: Placement, upto: nat)
    requires Proper(settled) && Greedy(settled, review, p) && Greedy(settled, review, q) && upto <= |review|
    ensures p[..upto] == q[..upto]
  {
    hide Corroborates, Result;
    if upto > 0 {
      var i := upto - 1;
      PlacementIsUnique(settled, review, p, q, i);
      forall k | 0 <= k < |settled| ensures Open(settled, review, p, i, k) <==> Open(settled, review, q, i, k) {
        TakenInBoth(p, q, k, i);
      }
      assert p[i] == q[i];
      assert p[..upto] == p[..i] + [p[i]] && q[..upto] == q[..i] + [q[i]];
    }
  }

  // ----- The round keeps to them -----

  /** What a round has come to, as a placement. */
  ghost predicate Follows(
    settled: seq<seq<Entry>>, review: seq<Finding>, reviewer: nat, place: Placement, round: Round)
  {
    && Proper(settled) && round.Valid() && |round.groups| == |settled|
    && Greedy(settled, review, place)
    && Grown(settled, review, reviewer, place, round.groups)
    && round.additions == Newcomers(review, reviewer, place)
    && forall k :: 0 <= k < |settled| ==> (round.claimed[k] <==> Taken(place, k, |place|))
  }

  lemma TakenOfMore(place: Placement, hit: Option<nat>, k: nat, upto: nat)
    requires upto <= |place|
    ensures Taken(place + [hit], k, upto) <==> Taken(place, k, upto)
    ensures Taken(place + [hit], k, |place| + 1) <==> Taken(place, k, |place|) || hit == Some(k)
  {
    var next := place + [hit];
    assert next[..upto] == place[..upto];
    TakenInBoth(next, place, k, upto);
    if j :| 0 <= j < |place| && place[j] == Some(k) {
      assert next[j] == Some(k);
    }
    if hit == Some(k) {
      assert next[|place|] == Some(k);
    }
  }

  lemma OpenOfMore(
      settled: seq<seq<Entry>>, review: seq<Finding>, place: Placement, finding: Finding, hit: Option<nat>,
      i: nat, k: nat)
    requires Proper(settled) && i < |review| == |place| && k < |settled|
    ensures Open(settled, review + [finding], place + [hit], i, k) <==> Open(settled, review, place, i, k)
  {
    hide Corroborates, Result, Taken;
    TakenOfMore(place, hit, k, i);
  }

  lemma GreedyOfMore(
      settled: seq<seq<Entry>>, review: seq<Finding>, place: Placement, finding: Finding, hit: Option<nat>)
    requires Proper(settled) && Greedy(settled, review, place)
    requires hit.Some? ==> hit.value < |settled|
    requires forall k: nat | k < |settled| && (hit.None? || k < hit.value) ::
      Taken(place, k, |place|) || !Corroborates(Result(settled[k]), finding)
    requires hit.Some? ==> !Taken(place, hit.value, |place|) && Corroborates(Result(settled[hit.value]), finding)
    ensures Greedy(settled, review + [finding], place + [hit])
  {
    hide Corroborates, Result, Taken;
    var more, next, n := review + [finding], place + [hit], |review|;
    forall i: nat, k: nat | i < n && k < |settled|
      ensures Open(settled, more, next, i, k) <==> Open(settled, review, place, i, k)
    {
      OpenOfMore(settled, review, place, finding, hit, i, k);
    }
    forall k: nat | k < |settled|
      ensures Open(settled, more, next, n, k) <==>
        Corroborates(Result(settled[k]), finding) && !Taken(place, k, n)
    {
      TakenOfMore(place, hit, k, n);
    }
  }

  lemma GrownOfMore(
      settled: seq<seq<Entry>>, review: seq<Finding>, reviewer: nat, place: Placement, groups: seq<seq<Entry>>,
      finding: Finding, hit: Option<nat>)
    requires Grown(settled, review, reviewer, place, groups)
    requires hit.Some? ==> hit.value < |settled| && !Taken(place, hit.value, |place|)
    ensures var after :=
        if hit.Some? then groups[hit.value := groups[hit.value] + [Entry(reviewer, finding)]] else groups;
      Grown(settled, review + [finding], reviewer, place + [hit], after)
  {
    var next := place + [hit];
    forall k: nat ensures Taken(next, k, |next|) <==> Taken(place, k, |place|) || hit == Some(k) {
      TakenOfMore(place, hit, k, 0);
    }
  }

  lemma PlacedIsGreedy(
      settled: seq<seq<Entry>>, review: seq<Finding>, reviewer: nat, place: Placement, round: Round, finding: Finding)
    returns (next: Placement)
    requires Follows(settled, review, reviewer, place, round)
    ensures Follows(settled, review + [finding], reviewer, next, Placed(round, Entry(reviewer, finding)))
  {
    hide Corroborates, Result, Hit, Greedy, Grown, Taken;
    var hit := Hit(round.groups, round.claimed, finding, 0);
    next := place + [hit];
    FreeGroupsAreUnchanged(settled, review, reviewer, place, round);
    assert |place| == |review| by {
      PlacesEach(settled, review, place);
    }
    GreedyOfMore(settled, review, place, finding, hit);
    GrownOfMore(settled, review, reviewer, place, round.groups, finding, hit);
    forall k: nat ensures Taken(next, k, |next|) <==> Taken(place, k, |place|) || hit == Some(k) {
      TakenOfMore(place, hit, k, 0);
    }
    assert (review + [finding])[..|review|] == review && next[..|place|] == place;
  }

  lemma PlacesEach(settled: seq<seq<Entry>>, review: seq<Finding>, place: Placement)
    requires Proper(settled) && Greedy(settled, review, place)
    ensures |place| == |review|
  {
  }

  lemma FreeGroupsAreUnchanged(
      settled: seq<seq<Entry>>, review: seq<Finding>, reviewer: nat, place: Placement, round: Round)
    requires Follows(settled, review, reviewer, place, round)
    ensures forall k :: 0 <= k < |settled| && !round.claimed[k] ==> round.groups[k] == settled[k]
  {
    hide Greedy, Taken, Newcomers;
  }

  lemma RoundStarts(settled: seq<seq<Entry>>, reviewer: nat)
    requires Proper(settled)
    ensures Follows(settled, [], reviewer, [], RoundOf(settled, [], reviewer))
  {
    hide Corroborates, Result, Proper;
  }

  lemma RoundOfMore(settled: seq<seq<Entry>>, review: seq<Finding>, reviewer: nat)
    requires Proper(settled) && review != []
    ensures var n := |review| - 1;
      RoundOf(settled, review, reviewer) == Placed(RoundOf(settled, review[..n], reviewer), Entry(reviewer, review[n]))
  {
    hide Placed;
  }

  lemma {:induction false} RoundIsGreedy(settled: seq<seq<Entry>>, review: seq<Finding>, reviewer: nat)
    returns (place: Placement)
    requires Proper(settled)
    ensures Follows(settled, review, reviewer, place, RoundOf(settled, review, reviewer))
    decreases |review|
  {
    hide *;
    if review == [] {
      place := [];
      RoundStarts(settled, reviewer);
    } else {
      var n := |review| - 1;
      var before := RoundIsGreedy(settled, review[..n], reviewer);
      var round := RoundOf(settled, review[..n], reviewer);
      place := PlacedIsGreedy(settled, review[..n], reviewer, before, round, review[n]);
      RoundOfMore(settled, review, reviewer);
      assert review[..n] + [review[n]] == review;
    }
  }

  // ----- What that means for the merge -----

  /**
   * How the groups change with one more review: by the only placement in which each of its findings
   * joins the first group open to it. The groups there were grow by at most one finding each, and
   * the findings open to none follow behind them in order, each in a group of its own.
   */
  lemma NextReviewIsPlacedGreedily(reviews: seq<seq<Finding>>, r: nat) returns (place: Placement)
    requires r < |reviews|
    ensures var settled, groups := Grouped(reviews[..r]), Grouped(reviews[..r + 1]);
      && Greedy(settled, reviews[r], place)
      && |groups| >= |settled| && Grown(settled, reviews[r], r, place, groups[..|settled|])
      && groups[|settled|..] == Singles(Newcomers(reviews[r], r, place))
  {
    hide Greedy, Grown, Newcomers, RoundOf;
    assert reviews[..r + 1][..r] == reviews[..r];
    var settled := Grouped(reviews[..r]);
    place := RoundIsGreedy(settled, reviews[r], r);
    var round := RoundOf(settled, reviews[r], r);
    assert Grouped(reviews[..r + 1]) == round.groups + Singles(round.additions);
  }

  /** No finding is kept apart from a group that agrees with it, unless its own reviewer had spoken there. */
  lemma NobodyIsKeptApart(reviews: seq<seq<Finding>>, r: nat, k: nat, group: nat)
    requires r < |reviews| && k < |Grouped(reviews[..r])|
    requires |Grouped(reviews[..r])| <= group < |Grouped(reviews[..r + 1])|
    ensures Grouped(reviews[..r + 1])[group] == [Entry(r, Grouped(reviews[..r + 1])[group][0].finding)]
    ensures Corroborates(Result(Grouped(reviews[..r])[k]), Grouped(reviews[..r + 1])[group][0].finding) ==>
      exists f :: Grouped(reviews[..r + 1])[k] == Grouped(reviews[..r])[k] + [Entry(r, f)]
  {
    hide Corroborates, Result, Grouped;
    var settled, groups, review := Grouped(reviews[..r]), Grouped(reviews[..r + 1]), reviews[r];
    var place := NextReviewIsPlacedGreedily(reviews, r);
    var at := group - |settled|;
    assert groups[|settled|..][at] == groups[group];
    var i := NewcomerIsUnplaced(review, r, place, at);
    if Corroborates(Result(settled[k]), review[i]) {
      assert !Open(settled, review, place, i, k);
      var j :| 0 <= j < i && place[j] == Some(k);
      assert groups[..|settled|][k] == groups[k];
      assert groups[k] == settled[k] + [Entry(r, review[j])];
    }
  }

  lemma {:induction false} NewcomerIsUnplaced(review: seq<Finding>, reviewer: nat, place: Placement, at: nat)
    returns (i: nat)
    requires |review| == |place| && at < |Newcomers(review, reviewer, place)|
    ensures i < |review| && place[i].None? && Newcomers(review, reviewer, place)[at] == Entry(reviewer, review[i])
    decreases |review|
  {
    var n := |review| - 1;
    if at < |Newcomers(review[..n], reviewer, place[..n])| {
      i := NewcomerIsUnplaced(review[..n], reviewer, place[..n], at);
    } else {
      i := n;
    }
  }

  lemma {:induction false} AllNewcomers(review: seq<Finding>, reviewer: nat, place: Placement)
    requires |review| == |place| && forall i :: 0 <= i < |place| ==> place[i].None?
    ensures Newcomers(review, reviewer, place) == Tagged(review, reviewer)
    decreases |review|
  {
    if review != [] {
      AllNewcomers(review[..|review| - 1], reviewer, place[..|place| - 1]);
    }
  }

  /** Two reviewers with one finding each: one finding comes out exactly when the two agree. */
  lemma TwoBecomeOneExactlyWhenTheyAgree(a: Finding, b: Finding)
    ensures Results(Grouped([[a], [b]])) == if Corroborates(a, b) then [Absorbed(a, b)] else [a, b]
  {
    hide Corroborates, Absorbed, Grouped;
    var reviews := [[a], [b]];
    assert reviews[..1] == [[a]] && reviews[..2] == reviews;
    AloneIsItself(a);
    var settled := [[Entry(0, a)]];
    var place := NextReviewIsPlacedGreedily(reviews, 1);
    var groups := Grouped(reviews);
    assert Result([Entry(0, a)]) == a;
    assert Open(settled, [b], place, 0, 0) <==> Corroborates(a, b);
    if Corroborates(a, b) {
      assert place[0] == Some(0);
      assert Newcomers([b], 1, place) == [];
      assert groups[..1][0] == groups[0] && |groups| == 1;
      ResultOfAppend([Entry(0, a)], Entry(1, b));
      assert Results(groups) == [Absorbed(a, b)];
    } else {
      assert place[0] == None;
      AllNewcomers([b], 1, place);
      assert groups[..1][0] == groups[0] && groups[1..][0] == groups[1] && |groups| == 2;
      assert Results(groups) == [a, b];
    }
  }

  lemma AloneIsItself(a: Finding)
    ensures Grouped([[a]]) == [[Entry(0, a)]]
  {
    AloneAddsEverything([a], 0);
    assert [[a]][..0] == [];
    assert Tagged([a], 0) == [Entry(0, a)];
    assert Singles([Entry(0, a)]) == [[Entry(0, a)]];
  }
}
