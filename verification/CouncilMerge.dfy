/** The merge itself: which findings of which reviewers are folded together. */
module CouncilMerge {
  import opened Prelude
  import opened Agreement
  import opened Council

  /** A finding and the position of the reviewer that made it. */
  datatype Entry = Entry(reviewer: nat, finding: Finding)

  predicate Proper(groups: seq<seq<Entry>>) {
    forall k :: 0 <= k < |groups| ==> groups[k] != []
  }

  function Findings(group: seq<Entry>): seq<Finding> {
    seq(|group|, i requires 0 <= i < |group| => group[i].finding)
  }

  function Result(group: seq<Entry>): Finding
    requires group != []
  {
    Fold(Findings(group))
  }

  function Results(groups: seq<seq<Entry>>): seq<Finding>
    requires Proper(groups)
  {
    seq(|groups|, k requires 0 <= k < |groups| => Result(groups[k]))
  }

  /** The first group from `from` on that is still free this round and corroborates the finding. */
  function Hit(groups: seq<seq<Entry>>, claimed: seq<bool>, finding: Finding, from: nat): (hit: Option<nat>)
    requires Proper(groups) && |claimed| == |groups|
    ensures hit.Some? ==>
      from <= hit.value < |groups| && !claimed[hit.value] && Corroborates(Result(groups[hit.value]), finding)
    ensures forall k | from <= k < |groups| && (hit.None? || k < hit.value) ::
      claimed[k] || !Corroborates(Result(groups[k]), finding)
    decreases |groups| - from
  {
    if from >= |groups| then None
    else if !claimed[from] && Corroborates(Result(groups[from]), finding) then Some(from)
    else Hit(groups, claimed, finding, from + 1)
  }

  /** One reviewer's round: the settled groups, which of them it has claimed, and what it added. */
  datatype Round = Round(groups: seq<seq<Entry>>, claimed: seq<bool>, additions: seq<Entry>) {
    predicate Valid() {
      Proper(groups) && |claimed| == |groups|
    }
  }

  function Placed(round: Round, entry: Entry): (next: Round)
    requires round.Valid()
    ensures next.Valid()
  {
    var hit := Hit(round.groups, round.claimed, entry.finding, 0);
    if hit.Some? then
      round.(groups := round.groups[hit.value := round.groups[hit.value] + [entry]],
             claimed := round.claimed[hit.value := true])
    else round.(additions := round.additions + [entry])
  }

  function RoundOf(settled: seq<seq<Entry>>, review: seq<Finding>, reviewer: nat): (round: Round)
    requires Proper(settled)
    ensures round.Valid()
    decreases |review|
  {
    if review == [] then Round(settled, seq(|settled|, _ => false), [])
    else Placed(RoundOf(settled, review[..|review| - 1], reviewer), Entry(reviewer, review[|review| - 1]))
  }

  function Singles(entries: seq<Entry>): (groups: seq<seq<Entry>>)
    ensures Proper(groups)
  {
    seq(|entries|, i requires 0 <= i < |entries| => [entries[i]])
  }

  function Grouped(reviews: seq<seq<Finding>>): (groups: seq<seq<Entry>>)
    ensures Proper(groups)
    decreases |reviews|
  {
    if reviews == [] then []
    else
      var last := |reviews| - 1;
      var round := RoundOf(Grouped(reviews[..last]), reviews[last], last);
      round.groups + Singles(round.additions)
  }

  lemma ResultOfAppend(group: seq<Entry>, entry: Entry)
    requires group != []
    ensures Result(group + [entry]) == Absorbed(Result(group), entry.finding)
  {
    var all := Findings(group + [entry]);
    assert all[..|all| - 1] == Findings(group);
  }

  lemma ResultOfSingle(entry: Entry)
    ensures Result([entry]) == entry.finding
  {
  }

  lemma ResultsOfAdditions(groups: seq<seq<Entry>>, additions: seq<Entry>)
    requires Proper(groups)
    ensures Results(groups + Singles(additions)) == Results(groups) + Findings(additions)
  {
    hide Result;
    forall k | 0 <= k < |additions| ensures Result(Singles(additions)[k]) == additions[k].finding {
      ResultOfSingle(additions[k]);
    }
  }

  lemma ResultsOfUpdate(groups: seq<seq<Entry>>, k: nat, entry: Entry)
    requires Proper(groups) && k < |groups|
    ensures Results(groups[k := groups[k] + [entry]])
      == Results(groups)[k := Absorbed(Results(groups)[k], entry.finding)]
  {
    hide Result, Absorbed;
    ResultOfAppend(groups[k], entry);
  }

  /** One reviewer's findings, each absorbed by the first free group that corroborates it. */
  method MergeReview(merged: seq<Finding>, review: seq<Finding>, ghost settled: seq<seq<Entry>>, ghost reviewer: nat)
    returns (next: seq<Finding>)
    requires Proper(settled) && merged == Results(settled)
    ensures var round := RoundOf(settled, review, reviewer);
      next == Results(round.groups + Singles(round.additions))
  {
    hide Corroborates, Absorbed, Result;
    next := merged;
    var claimed := new bool[|merged|](_ => false);
    var additions: seq<Finding> := [];
    assert claimed[..] == seq(|settled|, _ => false);
    for i := 0 to |review|
      invariant var round := RoundOf(settled, review[..i], reviewer);
        && next == Results(round.groups) && claimed[..] == round.claimed && additions == Findings(round.additions)
      invariant |next| == claimed.Length
    {
      ghost var round := RoundOf(settled, review[..i], reviewer);
      assert review[..i + 1][..i] == review[..i];
      var finding := review[i];
      var k := 0;
      while k < |next| && !(!claimed[k] && Corroborates(next[k], finding))
        invariant k <= |next|
        invariant Hit(round.groups, round.claimed, finding, k) == Hit(round.groups, round.claimed, finding, 0)
      {
        k := k + 1;
      }
      if k < |next| {
        claimed[k] := true;
        ResultsOfUpdate(round.groups, k, Entry(reviewer, finding));
        var absorbed := Absorb(next[k], finding);
        next := next[k := absorbed];
      } else {
        additions := additions + [finding];
      }
    }
    assert review[..|review|] == review;
    ghost var round := RoundOf(settled, review, reviewer);
    ResultsOfAdditions(round.groups, round.additions);
    next := next + additions;
  }

  method Merge(reviews: seq<seq<Finding>>) returns (merged: seq<Finding>)
    ensures merged == Results(Grouped(reviews))
  {
    merged := [];
    for r := 0 to |reviews|
      invariant merged == Results(Grouped(reviews[..r]))
    {
      assert reviews[..r + 1][..r] == reviews[..r];
      merged := MergeReview(merged, reviews[r], Grouped(reviews[..r]), r);
    }
    assert reviews[..|reviews|] == reviews;
  }

  // ----- The groups partition the input, one finding per reviewer at most -----

  function Flat(groups: seq<seq<Entry>>): seq<Entry>
    decreases |groups|
  {
    if groups == [] then [] else Flat(groups[..|groups| - 1]) + groups[|groups| - 1]
  }

  function Tagged(review: seq<Finding>, reviewer: nat): seq<Entry> {
    seq(|review|, i requires 0 <= i < |review| => Entry(reviewer, review[i]))
  }

  /** Every finding of every reviewer, in order. */
  function Entries(reviews: seq<seq<Finding>>): seq<Entry>
    decreases |reviews|
  {
    if reviews == [] then []
    else Entries(reviews[..|reviews| - 1]) + Tagged(reviews[|reviews| - 1], |reviews| - 1)
  }

  /** No two members come from one reviewer, and they were absorbed in reviewer order. */
  predicate Rising(group: seq<Entry>) {
    forall i, j :: 0 <= i < j < |group| ==> group[i].reviewer < group[j].reviewer
  }

  /** Each member corroborated the fold of those before it when it was absorbed. */
  predicate Chained(group: seq<Entry>) {
    forall i :: 0 < i < |group| ==> Corroborates(Result(group[..i]), group[i].finding)
  }

  predicate WellFormed(group: seq<Entry>, before: nat) {
    && group != [] && Rising(group) && Chained(group)
    && forall i :: 0 <= i < |group| ==> group[i].reviewer < before
  }

  lemma {:induction false} FlatUpdate(groups: seq<seq<Entry>>, k: nat, entry: Entry)
    requires k < |groups|
    ensures multiset(Flat(groups[k := groups[k] + [entry]])) == multiset(Flat(groups)) + multiset{entry}
    decreases |groups|
  {
    var n := |groups| - 1;
    var updated := groups[k := groups[k] + [entry]];
    if k < n {
      FlatUpdate(groups[..n], k, entry);
      assert updated[..n] == groups[..n][k := groups[..n][k] + [entry]];
    } else {
      assert updated[..n] == groups[..n];
    }
  }

  lemma {:induction false} FlatSingles(groups: seq<seq<Entry>>, additions: seq<Entry>)
    ensures Flat(groups + Singles(additions)) == Flat(groups) + additions
    decreases |additions|
  {
    if additions == [] {
      assert groups + Singles(additions) == groups;
    } else {
      var n := |additions| - 1;
      var all := groups + Singles(additions);
      FlatSingles(groups, additions[..n]);
      assert all[..|all| - 1] == groups + Singles(additions[..n]);
      assert all[|all| - 1] == [additions[n]];
      assert additions == additions[..n] + [additions[n]];
    }
  }

  /** Midway through a round nothing is lost: what is grouped or added is what there was to place. */
  predicate RoundConserves(round: Round, settled: seq<seq<Entry>>, review: seq<Finding>, reviewer: nat) {
    && multiset(Flat(round.groups) + round.additions) == multiset(Flat(settled) + Tagged(review, reviewer))
    && forall k :: 0 <= k < |round.additions| ==> round.additions[k].reviewer == reviewer
  }

  /** And a group this reviewer has not claimed holds none of its findings. */
  predicate RoundFormed(round: Round, reviewer: nat) {
    && round.Valid()
    && forall k :: 0 <= k < |round.groups| ==>
      WellFormed(round.groups[k], if round.claimed[k] then reviewer + 1 else reviewer)
  }

  lemma AppendStaysWellFormed(group: seq<Entry>, entry: Entry)
    requires WellFormed(group, entry.reviewer) && Corroborates(Result(group), entry.finding)
    ensures WellFormed(group + [entry], entry.reviewer + 1)
  {
    var all := group + [entry];
    forall i | 0 < i < |all| ensures Corroborates(Result(all[..i]), all[i].finding) {
      if i < |group| {
        assert all[..i] == group[..i];
      } else {
        assert all[..i] == group;
      }
    }
  }

  lemma PlacedConserves(round: Round, settled: seq<seq<Entry>>, review: seq<Finding>, reviewer: nat, finding: Finding)
    requires round.Valid() && RoundConserves(round, settled, review, reviewer)
    ensures RoundConserves(Placed(round, Entry(reviewer, finding)), settled, review + [finding], reviewer)
  {
    hide Hit, Flat;
    var entry := Entry(reviewer, finding);
    assert Tagged(review + [finding], reviewer) == Tagged(review, reviewer) + [entry];
    var was, now := Flat(settled) + Tagged(review, reviewer), Flat(settled) + Tagged(review + [finding], reviewer);
    assert now == was + [entry];
    assert multiset(now) == multiset(was) + multiset{entry};
    var hit, next := Hit(round.groups, round.claimed, finding, 0), Placed(round, entry);
    if hit.Some? {
      FlatUpdate(round.groups, hit.value, entry);
    } else {
      assert Flat(next.groups) + next.additions == (Flat(round.groups) + round.additions) + [entry];
    }
  }

  lemma PlacedStaysFormed(round: Round, entry: Entry)
    requires RoundFormed(round, entry.reviewer)
    ensures RoundFormed(Placed(round, entry), entry.reviewer)
  {
    hide WellFormed, Corroborates, Result;
    var hit := Hit(round.groups, round.claimed, entry.finding, 0);
    if hit.Some? {
      AppendStaysWellFormed(round.groups[hit.value], entry);
    }
  }

  lemma {:induction false} RoundIsSound(settled: seq<seq<Entry>>, review: seq<Finding>, reviewer: nat)
    requires Proper(settled) && forall k :: 0 <= k < |settled| ==> WellFormed(settled[k], reviewer)
    ensures RoundConserves(RoundOf(settled, review, reviewer), settled, review, reviewer)
    ensures RoundFormed(RoundOf(settled, review, reviewer), reviewer)
    decreases |review|
  {
    hide WellFormed, Placed, Flat;
    if review == [] {
      assert Flat(settled) + [] == Flat(settled) && Tagged([], reviewer) == [];
    } else {
      var n := |review| - 1;
      RoundIsSound(settled, review[..n], reviewer);
      PlacedConserves(RoundOf(settled, review[..n], reviewer), settled, review[..n], reviewer, review[n]);
      PlacedStaysFormed(RoundOf(settled, review[..n], reviewer), Entry(reviewer, review[n]));
      assert review[..n] + [review[n]] == review;
    }
  }

  lemma SingleIsWellFormed(entry: Entry)
    ensures WellFormed([entry], entry.reviewer + 1)
  {
  }

  lemma WellFormedLater(group: seq<Entry>, before: nat, later: nat)
    requires WellFormed(group, before) && before <= later
    ensures WellFormed(group, later)
  {
  }

  /** One reviewer's round, closed, partitions one reviewer's findings more than was settled before. */
  lemma RoundPartitions(settled: seq<seq<Entry>>, before: seq<Entry>, review: seq<Finding>, reviewer: nat)
    requires Proper(settled) && forall k :: 0 <= k < |settled| ==> WellFormed(settled[k], reviewer)
    requires multiset(Flat(settled)) == multiset(before)
    ensures var round := RoundOf(settled, review, reviewer);
      multiset(Flat(round.groups + Singles(round.additions))) == multiset(before + Tagged(review, reviewer))
  {
    hide WellFormed, Flat, RoundOf, Singles, Tagged;
    RoundIsSound(settled, review, reviewer);
    var round := RoundOf(settled, review, reviewer);
    FlatSingles(round.groups, round.additions);
  }

  lemma RoundStaysFormed(settled: seq<seq<Entry>>, review: seq<Finding>, reviewer: nat)
    requires Proper(settled) && forall k :: 0 <= k < |settled| ==> WellFormed(settled[k], reviewer)
    ensures var round := RoundOf(settled, review, reviewer);
      forall k :: 0 <= k < |round.groups + Singles(round.additions)| ==>
        WellFormed((round.groups + Singles(round.additions))[k], reviewer + 1)
  {
    hide WellFormed, Flat, RoundOf, Tagged;
    RoundIsSound(settled, review, reviewer);
    var round := RoundOf(settled, review, reviewer);
    var groups := round.groups + Singles(round.additions);
    forall k | 0 <= k < |groups| ensures WellFormed(groups[k], reviewer + 1) {
      if k < |round.groups| {
        WellFormedLater(round.groups[k], if round.claimed[k] then reviewer + 1 else reviewer, reviewer + 1);
      } else {
        SingleIsWellFormed(round.additions[k - |round.groups|]);
      }
    }
  }

  /**
   * The merge loses, duplicates and invents nothing: its groups are a partition of every finding
   * of every reviewer. No group holds two findings of one reviewer, and each member corroborated
   * what the group had come to before it.
   */
  lemma {:induction false} MergeIsAPartition(reviews: seq<seq<Finding>>)
    ensures multiset(Flat(Grouped(reviews))) == multiset(Entries(reviews))
    ensures forall k :: 0 <= k < |Grouped(reviews)| ==> WellFormed(Grouped(reviews)[k], |reviews|)
    decreases |reviews|
  {
    hide Corroborates, Result, WellFormed, RoundOf, Singles, Tagged;
    if reviews != [] {
      hide Flat;
      var last := |reviews| - 1;
      MergeIsAPartition(reviews[..last]);
      RoundPartitions(Grouped(reviews[..last]), Entries(reviews[..last]), reviews[last], last);
      RoundStaysFormed(Grouped(reviews[..last]), reviews[last], last);
    }
  }

  // ----- What that means for the output -----

  function Vote(entry: Entry): int {
    entry.finding.corroboration
  }

  function OneEach(entry: Entry): int {
    1
  }

  function By(reviewer: nat): Entry -> int {
    (entry: Entry) => if entry.reviewer == reviewer then 1 else 0
  }

  function GroupVotes(groups: seq<seq<Entry>>): int
    decreases |groups|
  {
    if groups == [] then 0
    else GroupVotes(groups[..|groups| - 1]) + Votes(Findings(groups[|groups| - 1]))
  }

  lemma {:induction false} VotesAreSums(group: seq<Entry>)
    ensures Votes(Findings(group)) == Sum(group, Vote)
  {
    if group != [] {
      VotesAreSums(group[..|group| - 1]);
      assert Findings(group)[..|group| - 1] == Findings(group[..|group| - 1]);
    }
  }

  lemma {:induction false} GroupVotesAreSums(groups: seq<seq<Entry>>)
    ensures GroupVotes(groups) == Sum(Flat(groups), Vote)
    decreases |groups|
  {
    if groups != [] {
      var n := |groups| - 1;
      GroupVotesAreSums(groups[..n]);
      VotesAreSums(groups[n]);
      SumConcat(Flat(groups[..n]), groups[n], Vote);
    }
  }

  /** Corroboration is conserved: the groups' votes add up to the inputs', before the byte clamp. */
  lemma VotesAreConserved(reviews: seq<seq<Finding>>)
    ensures GroupVotes(Grouped(reviews)) == Sum(Entries(reviews), Vote)
  {
    MergeIsAPartition(reviews);
    GroupVotesAreSums(Grouped(reviews));
    SumIgnoresOrder(Flat(Grouped(reviews)), Entries(reviews), Vote);
  }

  lemma {:induction false} RisingHasOneOfEach(group: seq<Entry>, reviewer: nat)
    requires Rising(group)
    ensures Sum(group, By(reviewer)) <= 1
    ensures (forall i :: 0 <= i < |group| ==> group[i].reviewer != reviewer) ==> Sum(group, By(reviewer)) == 0
    ensures |group| == Sum(group, OneEach)
  {
    if group != [] {
      RisingHasOneOfEach(group[..|group| - 1], reviewer);
    }
  }

  lemma {:induction false} GroupsBoundTheirMembers(groups: seq<seq<Entry>>, reviewer: nat)
    requires Proper(groups) && forall k :: 0 <= k < |groups| ==> Rising(groups[k])
    ensures Sum(Flat(groups), By(reviewer)) <= |groups| <= Sum(Flat(groups), OneEach)
    decreases |groups|
  {
    if groups != [] {
      var n := |groups| - 1;
      GroupsBoundTheirMembers(groups[..n], reviewer);
      RisingHasOneOfEach(groups[n], reviewer);
      SumConcat(Flat(groups[..n]), groups[n], By(reviewer));
      SumConcat(Flat(groups[..n]), groups[n], OneEach);
    }
  }

  lemma {:induction false} TaggedCounts(review: seq<Finding>, reviewer: nat, asked: nat)
    ensures Sum(Tagged(review, reviewer), By(asked)) == if asked == reviewer then |review| else 0
  {
    if review != [] {
      var n := |review| - 1;
      TaggedCounts(review[..n], reviewer, asked);
      assert Tagged(review, reviewer)[..n] == Tagged(review[..n], reviewer);
    }
  }

  lemma {:induction false} EntriesCount(reviews: seq<seq<Finding>>, asked: nat)
    ensures Sum(Entries(reviews), By(asked)) == if asked < |reviews| then |reviews[asked]| else 0
    decreases |reviews|
  {
    if reviews != [] {
      var n := |reviews| - 1;
      EntriesCount(reviews[..n], asked);
      TaggedCounts(reviews[n], n, asked);
      SumConcat(Entries(reviews[..n]), Tagged(reviews[n], n), By(asked));
    }
  }

  lemma {:induction false} OneEachIsLength(entries: seq<Entry>)
    ensures Sum(entries, OneEach) == |entries|
  {
    if entries != [] {
      OneEachIsLength(entries[..|entries| - 1]);
    }
  }

  /** The council reports at least as much as its most prolific member, at most all of it together. */
  lemma OutputSizeIsBounded(reviews: seq<seq<Finding>>, reviewer: nat)
    requires reviewer < |reviews|
    ensures |reviews[reviewer]| <= |Results(Grouped(reviews))| <= |Entries(reviews)|
  {
    MergeIsAPartition(reviews);
    GroupsBoundTheirMembers(Grouped(reviews), reviewer);
    SumIgnoresOrder(Flat(Grouped(reviews)), Entries(reviews), By(reviewer));
    SumIgnoresOrder(Flat(Grouped(reviews)), Entries(reviews), OneEach);
    EntriesCount(reviews, reviewer);
    OneEachIsLength(Entries(reviews));
  }

  lemma {:induction false} MemberOfFlat(groups: seq<seq<Entry>>, entry: Entry) returns (k: nat)
    requires entry in Flat(groups)
    ensures k < |groups| && entry in groups[k]
    decreases |groups|
  {
    var n := |groups| - 1;
    if entry in groups[n] {
      k := n;
    } else {
      k := MemberOfFlat(groups[..n], entry);
    }
  }

  lemma {:induction false} ChainedIsOneFile(group: seq<Entry>)
    requires group != [] && Chained(group)
    ensures OneFile(Findings(group))
    ensures Result(group).lane == group[0].finding.lane && Result(group).path == group[0].finding.path
  {
    var n := |group| - 1;
    if n > 0 {
      forall i | 0 < i < n ensures Corroborates(Result(group[..n][..i]), group[..n][i].finding) {
        assert group[..n][..i] == group[..i];
      }
      ChainedIsOneFile(group[..n]);
      assert group == group[..n] + [group[n]];
      ResultOfAppend(group[..n], group[n]);
      assert Corroborates(Result(group[..n]), group[n].finding);
      forall k | 0 <= k < |group|
        ensures Findings(group)[k].lane == Findings(group)[0].lane && Findings(group)[k].path == Findings(group)[0].path
      {
        if k < n {
          assert Findings(group[..n])[k] == Findings(group)[k];
        }
      }
    }
  }

  predicate AllProbable(reviews: seq<seq<Finding>>) {
    forall e :: e in Entries(reviews) ==> 0.0 <= e.finding.confidence <= 1.0
  }

  /** The output of `group` stands for `finding` at no loss to it. */
  predicate Represents(out: Finding, group: seq<Entry>, finding: Finding) {
    && group != []
    && out.lane == finding.lane && out.path == finding.path
    && out.severity >= finding.severity
    && out.confidence >= MinReal(finding.confidence, CEILING)
    && out.identity == group[0].finding.identity
    && out.corroboration == Min(U8_MAX, Votes(Findings(group)))
  }

  /**
   * Every finding that went in is represented: some output is at its place, at least as severe, at
   * least as confident up to the ceiling, and carries the identity its group was first seen with.
   */
  lemma NobodyIsWorseOff(reviews: seq<seq<Finding>>, entry: Entry)
    requires entry in Entries(reviews) && AllProbable(reviews)
    ensures exists k | 0 <= k < |Grouped(reviews)| ::
      entry in Grouped(reviews)[k] && Represents(Results(Grouped(reviews))[k], Grouped(reviews)[k], entry.finding)
  {
    MergeIsAPartition(reviews);
    var groups := Grouped(reviews);
    assert entry in multiset(Entries(reviews));
    var k := MemberOfFlat(groups, entry);
    var group := groups[k];
    var i :| 0 <= i < |group| && group[i] == entry;
    ChainedIsOneFile(group);
    FoldKeepsIdentityAndVotes(Findings(group));
    forall j | 0 <= j < |group| ensures 0.0 <= Findings(group)[j].confidence <= 1.0 {
      InFlat(groups, k, group[j]);
      assert group[j] in multiset(Entries(reviews));
    }
    FoldIsMonotone(Findings(group), i);
    assert Findings(group)[i] == entry.finding;
    assert Results(groups)[k] == Result(group);
    assert Represents(Results(groups)[k], group, entry.finding);
  }

  lemma {:induction false} InFlat(groups: seq<seq<Entry>>, k: nat, entry: Entry)
    requires k < |groups| && entry in groups[k]
    ensures entry in Flat(groups)
    decreases |groups|
  {
    if k < |groups| - 1 {
      InFlat(groups[..|groups| - 1], k, entry);
    }
  }

  /** A council of one changes nothing, not even for findings that corroborate each other. */
  lemma OneReviewerIsReturnedUnchanged(review: seq<Finding>)
    ensures Results(Grouped([review])) == review
  {
    assert [review][..0] == [];
    AloneAddsEverything(review, 0);
    ResultsOfAdditions([], Tagged(review, 0));
    assert Findings(Tagged(review, 0)) == review;
  }

  lemma {:induction false} AloneAddsEverything(review: seq<Finding>, reviewer: nat)
    ensures RoundOf([], review, reviewer) == Round([], [], Tagged(review, reviewer))
    decreases |review|
  {
    if review != [] {
      var n := |review| - 1;
      AloneAddsEverything(review[..n], reviewer);
      assert Tagged(review, reviewer) == Tagged(review[..n], reviewer) + [Entry(reviewer, review[n])];
    }
  }
}
