/**
 * What a group of findings amounts to once one of them has absorbed the others, one at a time: its
 * confidence, its severity, its votes and whose words it speaks in.
 */
module Council {
  import opened Prelude
  import opened Agreement

  const CEILING: real := 0.99
  const U8_MAX: nat := 255

  function Times(a: real, b: real): real {
    a * b
  }

  /** Confidence first, then severity. */
  predicate Outranks(c1: real, s1: nat, c2: real, s2: nat) {
    c1 > c2 || (c1 == c2 && s1 > s2)
  }

  function Absorbed(kept: Finding, other: Finding): Finding {
    var combined := 1.0 - Times(1.0 - kept.confidence, 1.0 - other.confidence);
    var best := if Outranks(other.confidence, other.severity, kept.confidence, kept.severity)
      then other.(identity := kept.identity) else kept;
    best.(confidence := MinReal(combined, CEILING),
          corroboration := Min(U8_MAX, kept.corroboration + other.corroboration),
          severity := Max(kept.severity, other.severity))
  }

  method Absorb(kept: Finding, other: Finding) returns (merged: Finding)
    ensures merged == Absorbed(kept, other)
  {
    var combined := 1.0 - (1.0 - kept.confidence) * (1.0 - other.confidence);
    var corroboration := Min(U8_MAX, kept.corroboration + other.corroboration);
    var severity := Max(kept.severity, other.severity);
    merged := kept;
    if Outranks(other.confidence, other.severity, kept.confidence, kept.severity) {
      merged := other.(identity := kept.identity);
    }
    merged := merged.(confidence := MinReal(combined, CEILING), corroboration := corroboration, severity := severity);
  }

  // ----- What a group of findings folds into -----

  function Fold(group: seq<Finding>): Finding
    requires group != []
  {
    if |group| == 1 then group[0] else Absorbed(Fold(group[..|group| - 1]), group[|group| - 1])
  }

  /** The chance that every member of the group is wrong, were they independent. */
  function Doubt(group: seq<Finding>): real {
    if group == [] then 1.0 else Times(Doubt(group[..|group| - 1]), 1.0 - group[|group| - 1].confidence)
  }

  predicate Probable(group: seq<Finding>) {
    forall k :: 0 <= k < |group| ==> 0.0 <= group[k].confidence <= 1.0
  }

  lemma {:induction false} DoubtIsAProbability(group: seq<Finding>)
    requires Probable(group)
    ensures 0.0 <= Doubt(group) <= 1.0
  {
    if group != [] {
      DoubtIsAProbability(group[..|group| - 1]);
      Shrinks(Doubt(group[..|group| - 1]), 1.0 - group[|group| - 1].confidence);
    }
  }

  lemma Shrinks(a: real, b: real)
    requires 0.0 <= a && 0.0 <= b <= 1.0
    ensures 0.0 <= Times(a, b) <= a && (a <= 1.0 ==> Times(a, b) <= b)
  {
    ProductIsNonNegative(a, b);
    ProductIsNonNegative(a, 1.0 - b);
    assert Times(a, 1.0 - b) == a - Times(a, b);
    if a <= 1.0 {
      ProductIsNonNegative(1.0 - a, b);
      assert Times(1.0 - a, b) == b - Times(a, b);
    }
  }

  lemma ProductIsNonNegative(a: real, b: real)
    requires a >= 0.0 && b >= 0.0
    ensures Times(a, b) >= 0.0
  {
  }

  /** The clamped noisy-or, applied one member at a time. */
  lemma ClampOnce(doubt: real, confidence: real)
    requires 0.0 <= doubt <= 1.0 && 0.0 <= confidence <= 1.0
    ensures MinReal(1.0 - Times(1.0 - MinReal(1.0 - doubt, CEILING), 1.0 - confidence), CEILING)
      == MinReal(1.0 - Times(doubt, 1.0 - confidence), CEILING)
  {
    hide Times;
    Shrinks(doubt, 1.0 - confidence);
    if 1.0 - doubt >= CEILING {
      Shrinks(1.0 - CEILING, 1.0 - confidence);
    }
  }

  /** Absorbing one more keeps the confidence in its closed form. */
  lemma AbsorbKeepsTheClosedForm(kept: Finding, other: Finding, doubt: real)
    requires 0.0 <= doubt <= 1.0 && 0.0 <= other.confidence <= 1.0
    requires kept.confidence == MinReal(1.0 - doubt, CEILING) || kept.confidence == 1.0 - doubt
    ensures Absorbed(kept, other).confidence == MinReal(1.0 - Times(doubt, 1.0 - other.confidence), CEILING)
  {
    ClampOnce(doubt, other.confidence);
  }

  lemma DoubtOfOne(finding: Finding)
    ensures Doubt([finding]) == 1.0 - finding.confidence
  {
    assert [finding][..0] == [];
  }

  /**
   * Clamping at every step is clamping once: a group of two or more is as confident as
   * min(0.99, 1 - product of (1 - c)).
   */
  lemma {:induction false} FoldedConfidence(group: seq<Finding>)
    requires |group| >= 2 && Probable(group)
    ensures Fold(group).confidence == MinReal(1.0 - Doubt(group), 0.99)
  {
    hide Absorbed, Times;
    var n := |group| - 1;
    DoubtIsAProbability(group[..n]);
    if n == 1 {
      assert group[..1] == [group[0]];
      DoubtOfOne(group[0]);
    } else {
      FoldedConfidence(group[..n]);
    }
    AbsorbKeepsTheClosedForm(Fold(group[..n]), group[n], Doubt(group[..n]));
  }

  lemma {:induction false} DoubtOfConcat(a: seq<Finding>, b: seq<Finding>)
    ensures Doubt(a + b) == Times(Doubt(a), Doubt(b))
  {
    hide Times;
    if b == [] {
      assert a + b == a;
      ProductLaws(Doubt(a), 1.0, 1.0);
    } else {
      var n := |b| - 1;
      DoubtOfConcat(a, b[..n]);
      assert (a + b)[..|a| + n] == a + b[..n];
      ProductLaws(Doubt(a), Doubt(b[..n]), 1.0 - b[n].confidence);
    }
  }

  lemma ProductLaws(a: real, b: real, c: real)
    ensures Times(Times(a, b), c) == Times(a, Times(b, c))
    ensures Times(Times(a, c), b) == Times(a, Times(b, c))
    ensures Times(a, 1.0) == a == Times(1.0, a)
  {
  }

  /** The product over a group does not depend on the order it was absorbed in. */
  lemma {:induction false} DoubtIgnoresOrder(a: seq<Finding>, b: seq<Finding>)
    requires multiset(a) == multiset(b)
    ensures Doubt(a) == Doubt(b)
    decreases |a|
  {
    hide Times;
    if a == [] {
      assert |multiset(b)| == 0;
    } else {
      var n := |a| - 1;
      assert a == a[..n] + [a[n]];
      assert a[n] in multiset(b);
      var before, after := TakeOut(b, a[n]);
      assert multiset(a) == multiset(a[..n]) + multiset{a[n]};
      CancelItem(multiset(a[..n]), multiset(before + after), a[n]);
      DoubtIgnoresOrder(a[..n], before + after);
      DoubtWithout(before, a[n], after);
    }
  }

  lemma DoubtWithout(before: seq<Finding>, member: Finding, after: seq<Finding>)
    ensures Doubt(before + ([member] + after)) == Times(Doubt(before + after), 1.0 - member.confidence)
  {
    hide Times, Doubt;
    DoubtOfConcat(before, after);
    DoubtOfConcat(before, [member] + after);
    DoubtOfConcat([member], after);
    DoubtOfOne(member);
    ProductLaws(Doubt(before), 1.0 - member.confidence, Doubt(after));
  }

  /** So neither does the folded confidence. */
  lemma ConfidenceIgnoresOrder(a: seq<Finding>, b: seq<Finding>)
    requires |a| >= 2 && Probable(a) && multiset(a) == multiset(b)
    ensures Fold(a).confidence == Fold(b).confidence
  {
    assert |a| == |multiset(a)| == |multiset(b)| == |b|;
    forall k | 0 <= k < |b| ensures 0.0 <= b[k].confidence <= 1.0 {
      assert b[k] in multiset(a);
    }
    DoubtIgnoresOrder(a, b);
    FoldedConfidence(a);
    FoldedConfidence(b);
  }

  function Votes(group: seq<Finding>): nat {
    if group == [] then 0 else Votes(group[..|group| - 1]) + group[|group| - 1].corroboration
  }

  predicate OneFile(group: seq<Finding>) {
    forall k :: 0 <= k < |group| ==> group[k].lane == group[0].lane && group[k].path == group[0].path
  }

  lemma AbsorbIsMonotone(kept: Finding, other: Finding)
    requires 0.0 <= kept.confidence <= 1.0 && 0.0 <= other.confidence <= 1.0
    ensures var merged := Absorbed(kept, other);
      && merged.severity == Max(kept.severity, other.severity)
      && merged.confidence >= MinReal(kept.confidence, CEILING)
      && merged.confidence >= MinReal(other.confidence, CEILING)
      && 0.0 <= merged.confidence <= 1.0
  {
    hide Times;
    Shrinks(1.0 - kept.confidence, 1.0 - other.confidence);
  }

  /** No member of a group is worse off for having been folded into it. */
  lemma {:induction false} FoldIsMonotone(group: seq<Finding>, k: nat)
    requires k < |group| && Probable(group)
    ensures Fold(group).severity >= group[k].severity
    ensures Fold(group).confidence >= MinReal(group[k].confidence, CEILING)
    ensures 0.0 <= Fold(group).confidence <= 1.0
    ensures exists i :: 0 <= i < |group| && group[i].severity == Fold(group).severity
  {
    hide Absorbed;
    var n := |group| - 1;
    if n > 0 {
      var before := Fold(group[..n]);
      FoldIsMonotone(group[..n], if k < n then k else 0);
      var i :| 0 <= i < |group[..n]| && group[..n][i].severity == before.severity;
      assert group[i].severity == before.severity;
      AbsorbIsMonotone(before, group[n]);
    } else {
      assert group[0].severity == Fold(group).severity;
    }
  }

  /** The fold keeps the place, the first-seen identity and, up to the byte it fits in, the vote. */
  lemma {:induction false} FoldKeepsIdentityAndVotes(group: seq<Finding>)
    requires group != [] && OneFile(group)
    ensures Fold(group).lane == group[0].lane && Fold(group).path == group[0].path
    ensures Fold(group).identity == group[0].identity
    ensures Fold(group).corroboration == Min(255, Votes(group))
  {
    var n := |group| - 1;
    if n > 0 {
      FoldKeepsIdentityAndVotes(group[..n]);
    } else {
      assert group[..0] == [];
    }
  }

  /**
   * Corroboration can lower a confidence, and only one: a member surer than the ceiling. Every
   * other member of a group ends at least as confident as it came.
   */
  lemma OnlyTheNearlyCertainLose(group: seq<Finding>, k: nat)
    requires |group| >= 2 && k < |group| && Probable(group)
    ensures Fold(group).confidence >= group[k].confidence <==> group[k].confidence <= CEILING
  {
    FoldIsMonotone(group, k);
    FoldedConfidence(group);
  }

  // ----- Whose words a group keeps -----

  function TopSeverity(group: seq<Finding>): nat {
    if group == [] then 0 else Max(TopSeverity(group[..|group| - 1]), group[|group| - 1].severity)
  }

  function Standing(group: seq<Finding>): real {
    if |group| == 1 then group[0].confidence else MinReal(1.0 - Doubt(group), CEILING)
  }

  /** The last member that outranked everything before it taken together. */
  function Speaker(group: seq<Finding>): (k: nat)
    requires group != []
    ensures k < |group|
  {
    var n := |group| - 1;
    if n == 0 then 0
    else if Outranks(group[n].confidence, group[n].severity, Standing(group[..n]), TopSeverity(group[..n]))
    then n else Speaker(group[..n])
  }

  /**
   * A group speaks in one member's words, whole: those of the last member to outrank the combined
   * confidence and top severity of all the members before it.
   */
  lemma {:induction false} RepresentativeIsTheSpeaker(group: seq<Finding>)
    requires group != [] && Probable(group)
    ensures Fold(group).words == group[Speaker(group)].words
    ensures Fold(group).rule == group[Speaker(group)].rule
    ensures Fold(group).line == group[Speaker(group)].line && Fold(group).endLine == group[Speaker(group)].endLine
    ensures Fold(group).severity == TopSeverity(group) && Fold(group).confidence == Standing(group)
  {
    var n := |group| - 1;
    if n > 0 {
      RepresentativeIsTheSpeaker(group[..n]);
      FoldedConfidence(group);
    } else {
      assert group[..0] == [];
    }
  }

  /** Member `k` outranks everything before it taken together. */
  predicate Leads(group: seq<Finding>, k: nat)
    requires k < |group|
  {
    k == 0 || Outranks(group[k].confidence, group[k].severity, Standing(group[..k]), TopSeverity(group[..k]))
  }

  /** The speaker leads, and nobody after it does. */
  lemma {:induction false} SpeakerLeadsLast(group: seq<Finding>, m: nat)
    requires m < |group|
    ensures Speaker(group) == m <==> Leads(group, m) && forall k :: m < k < |group| ==> !Leads(group, k)
  {
    hide Standing, TopSeverity, Outranks;
    var n := |group| - 1;
    if m < n {
      SpeakerLeadsLast(group[..n], m);
      forall k | 0 <= k < n ensures Leads(group[..n], k) <==> Leads(group, k) {
        assert group[..n][..k] == group[..k];
      }
      assert Speaker(group) == if Leads(group, n) then n else Speaker(group[..n]);
    }
  }

  /** The first of the members with the highest confidence and, among those, severity. */
  predicate Surest(group: seq<Finding>, m: nat) {
    && m < |group|
    && (forall k :: 0 <= k < |group| ==>
      !Outranks(group[k].confidence, group[k].severity, group[m].confidence, group[m].severity))
    && (forall k :: 0 <= k < m ==>
      Outranks(group[m].confidence, group[m].severity, group[k].confidence, group[k].severity))
  }

  lemma PrefixBounds(group: seq<Finding>, m: nat, k: nat)
    requires Probable(group) && m < k <= |group|
    ensures Standing(group[..k]) >= MinReal(group[m].confidence, CEILING)
    ensures TopSeverity(group[..k]) >= group[m].severity
    ensures k >= 2 ==> Standing(group[..k]) <= CEILING
  {
    FoldIsMonotone(group[..k], m);
    RepresentativeIsTheSpeaker(group[..k]);
  }

  /** Whether a member after the surest one leads depends on the ceiling alone. */
  lemma LaterLeaders(group: seq<Finding>, m: nat, k: nat)
    requires Probable(group) && Surest(group, m) && m < k < |group|
    ensures group[m].confidence <= CEILING ==> !Leads(group, k)
    ensures group[m].confidence > CEILING ==>
      (Leads(group, k) <==>
       k >= 2 && Outranks(group[k].confidence, group[k].severity, CEILING, TopSeverity(group[..k])))
  {
    PrefixBounds(group, m, k);
    if k == 1 {
      assert group[..1] == [group[0]];
    }
  }

  /**
   * Exactly when the surest member's words are the ones kept: it must outrank what the members
   * before it had come to together. A member surer than the ceiling must moreover be followed by
   * none that outranks the ceiling it is clamped to.
   */
  lemma WhenTheSurestSpeaks(group: seq<Finding>, m: nat)
    requires Probable(group) && Surest(group, m)
    ensures Speaker(group) == m <==>
      && (m == 0 || Outranks(group[m].confidence, group[m].severity, Standing(group[..m]), TopSeverity(group[..m])))
      && (group[m].confidence > CEILING ==>
            forall k | Max(m + 1, 2) <= k < |group| ::
              !Outranks(group[k].confidence, group[k].severity, CEILING, TopSeverity(group[..k])))
    ensures Speaker(group) == m ==> Fold(group).words == group[m].words
    ensures (forall k :: 0 <= k < |group| && k != m ==> group[k].words != group[m].words) ==>
      (Fold(group).words == group[m].words <==> Speaker(group) == m)
  {
    hide Standing, Fold;
    SpeakerLeadsLast(group, m);
    forall k | m < k < |group|
      ensures group[m].confidence <= CEILING ==> !Leads(group, k)
      ensures group[m].confidence > CEILING ==>
        (Leads(group, k) <==>
         k >= 2 && Outranks(group[k].confidence, group[k].severity, CEILING, TopSeverity(group[..k])))
    {
      LaterLeaders(group, m, k);
    }
    RepresentativeIsTheSpeaker(group);
  }

  /** Of two findings, the words kept are those of the higher confidence, then severity, then first. */
  lemma OfTwoTheStrongerSpeaks(a: Finding, b: Finding)
    ensures Fold([a, b]).words
      == if b.confidence > a.confidence || (b.confidence == a.confidence && b.severity > a.severity) then b.words
         else a.words
  {
    assert [a, b][..1] == [a];
  }

  /** Of three or more it need not be: a late, surer finding is measured against the combination. */
  lemma OfThreeTheSurestMayNotSpeak()
    ensures exists a: Finding, b: Finding, c: Finding ::
      && Probable([a, b, c]) && c.confidence > a.confidence && c.confidence > b.confidence
      && c.words != a.words && c.words != b.words
      && Fold([a, b, c]).words != c.words
  {
    var a := Finding(0, "p", Some(1), None, "r", 1, 0.5, None, 1, "first");
    var b, c := a.(words := "second"), a.(words := "third", confidence := 0.7);
    var group := [a, b, c];
    assert group[..2] == [a, b] && group[..2][..1] == [a];
    assert Fold([a, b]) == Absorbed(a, b);
    assert Fold([a, b]).confidence == 0.75;
    assert Fold(group) == Absorbed(Fold([a, b]), c);
    assert Fold(group).words == "first";
  }
}
