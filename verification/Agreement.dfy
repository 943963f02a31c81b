/** What a reviewer reports, and which pairs of reports the council treats as one. */
module Agreement {
  import opened Prelude

  type u8 = n: nat | n <= 255

  /**
   * One reviewer's finding. `words` stands for everything a representative brings with it whole:
   * its title, body and suggestion. Confidence is a real in place of a float.
   */
  datatype Finding = Finding(
    lane: nat, path: string, line: Option<word>, endLine: Option<word>, rule: string,
    severity: nat, confidence: real, identity: Option<string>, corroboration: u8, words: string)
  {
    function Range(): Option<(word, word)> {
      if line.None? then None
      else Some((line.value, if endLine.Some? then endLine.value else line.value))
    }
  }

  const LINE_TOLERANCE: word := 3

  predicate IsSpace(c: char) {
    SpacePoint(c as int)
  }

  function TrimStart(s: string): string {
    if s != [] && IsSpace(s[0]) then TrimStart(s[1..]) else s
  }

  function TrimEnd(s: string): string {
    if s != [] && IsSpace(s[|s| - 1]) then TrimEnd(s[..|s| - 1]) else s
  }

  function Trim(s: string): string {
    TrimEnd(TrimStart(s))
  }

  function Lower(c: char): char {
    if 'A' <= c <= 'Z' then c - 'A' + 'a' else c
  }

  predicate EqIgnoreAsciiCase(a: string, b: string) {
    |a| == |b| && forall k :: 0 <= k < |a| ==> Lower(a[k]) == Lower(b[k])
  }

  predicate SameRule(a: string, b: string) {
    Trim(a) != [] && Trim(b) != [] && EqIgnoreAsciiCase(Trim(a), Trim(b))
  }

  predicate Corroborates(a: Finding, b: Finding) {
    && a.lane == b.lane && a.path == b.path
    && (|| (a.identity.Some? && a.identity == b.identity)
        || (a.Range().Some? && b.Range().Some? &&
              var (aStart, aEnd), (bStart, bEnd) := a.Range().value, b.Range().value;
              aStart <= SatAdd(bEnd, LINE_TOLERANCE) && aEnd >= SatSub(bStart, LINE_TOLERANCE))
        || (a.Range().None? && b.Range().None? && SameRule(a.rule, b.rule)))
  }

  /** Which of two findings came first never matters to whether they agree. */
  lemma CorroborationIsSymmetric(a: Finding, b: Finding)
    ensures Corroborates(a, b) <==> Corroborates(b, a)
  {
    assert EqIgnoreAsciiCase(Trim(a.rule), Trim(b.rule)) <==> EqIgnoreAsciiCase(Trim(b.rule), Trim(a.rule));
  }

  /** A finding that carries a line covers at least that one, and its end comes from its own field. */
  predicate Covers(f: Finding, line: int) {
    f.line.Some? && f.line.value <= line <= (if f.endLine.Some? then f.endLine.value else f.line.value)
  }

  /** Two findings that carry well-ordered lines, and some line of one is within three of some line of the other. */
  predicate Near(a: Finding, b: Finding) {
    && a.line.Some? && b.line.Some?
    && a.line.value <= (if b.endLine.Some? then b.endLine.value else b.line.value) + 3
    && b.line.value <= (if a.endLine.Some? then a.endLine.value else a.line.value) + 3
  }

  lemma NearIsNear(a: Finding, b: Finding)
    requires exists line :: Covers(a, line)
    requires exists line :: Covers(b, line)
    ensures Near(a, b) <==> exists m: int, n: int :: Covers(a, m) && Covers(b, n) && -3 <= m - n <= 3
  {
    var aStart, bStart := a.line.value, b.line.value;
    var aEnd := if a.endLine.Some? then a.endLine.value else aStart;
    var bEnd := if b.endLine.Some? then b.endLine.value else bStart;
    if Near(a, b) {
      var m := if bStart <= aEnd then Max(aStart, bStart) else aEnd;
      var n := if aStart > bEnd then bEnd else Max(bStart, aStart);
      if bStart <= aEnd && aStart <= bEnd {
        assert Covers(a, m) && Covers(b, m);
      } else if aEnd < bStart {
        assert Covers(a, aEnd) && Covers(b, bStart);
      } else {
        assert Covers(a, aStart) && Covers(b, bEnd);
      }
    }
  }

  /**
   * When two findings are one. Only ever in one lane and one file; there, whenever both carry the same
   * identity; when both are placed, if their lines are within three of one another; and when neither
   * is, if both name a rule and it is the same one up to surrounding space and ASCII case.
   */
  lemma CorroborationExactly(a: Finding, b: Finding)
    ensures Corroborates(a, b) ==> a.lane == b.lane && a.path == b.path
    ensures a.lane == b.lane && a.path == b.path && a.identity.Some? && a.identity == b.identity ==> Corroborates(a, b)
    ensures a.lane == b.lane && a.path == b.path && !(a.identity.Some? && a.identity == b.identity) ==>
      (Corroborates(a, b) <==>
       if a.line.Some? && b.line.Some? then Near(a, b)
       else a.line.None? && b.line.None? && SameRule(a.rule, b.rule))
  {
  }

  lemma TrimStep(s: string)
    ensures TrimStart(s) == if s != [] && IsSpace(s[0]) then TrimStart(s[1..]) else s
    ensures TrimEnd(s) == if s != [] && IsSpace(s[|s| - 1]) then TrimEnd(s[..|s| - 1]) else s
  {
    hide IsSpace;
  }

  lemma {:induction false} TrimStartTakesSpaces(s: string)
    ensures var t := TrimStart(s);
      && |t| <= |s| && t == s[|s| - |t|..] && (t != [] ==> !IsSpace(t[0]))
      && forall k :: 0 <= k < |s| - |t| ==> IsSpace(s[k])
    decreases |s|
  {
    hide IsSpace, TrimStart;
    TrimStep(s);
    if s != [] && IsSpace(s[0]) {
      var rest, t := s[1..], TrimStart(s);
      TrimStartTakesSpaces(rest);
      assert t == rest[|rest| - |t|..] == s[|s| - |t|..];
      forall k | 0 <= k < |s| - |t| ensures IsSpace(s[k]) {
        assert k > 0 ==> s[k] == rest[k - 1];
      }
    }
  }

  lemma {:induction false} TrimEndTakesSpaces(s: string)
    ensures var t := TrimEnd(s);
      && t <= s && (t != [] ==> !IsSpace(t[|t| - 1]))
      && forall k :: |t| <= k < |s| ==> IsSpace(s[k])
    decreases |s|
  {
    hide IsSpace, TrimEnd;
    TrimStep(s);
    if s != [] && IsSpace(s[|s| - 1]) {
      var rest, t := s[..|s| - 1], TrimEnd(s);
      TrimEndTakesSpaces(rest);
      forall k | |t| <= k < |s| ensures IsSpace(s[k]) {
        assert k < |s| - 1 ==> s[k] == rest[k];
      }
    }
  }

  /** `words` is `s` without the white space around it. */
  predicate Trimmed(s: string, words: string) {
    && (words != [] ==> !IsSpace(words[0]) && !IsSpace(words[|words| - 1]))
    && (exists from: nat, to: nat | from <= to <= |s| ::
          && words == s[from..to]
          && (forall k :: 0 <= k < from ==> IsSpace(s[k]))
          && (forall k :: to <= k < |s| ==> IsSpace(s[k])))
  }

  lemma TrimTakesTheSpaceAround(s: string)
    ensures Trimmed(s, Trim(s))
  {
    hide IsSpace, TrimStart, TrimEnd;
    var inner := TrimStart(s);
    TrimStartTakesSpaces(s);
    TrimEndTakesSpaces(inner);
    var from: nat, to: nat := |s| - |inner|, |s| - |inner| + |Trim(s)|;
    assert s[from..to] == Trim(s);
    forall k | to <= k < |s| ensures IsSpace(s[k]) {
      assert s[k] == inner[k - from];
    }
  }

  /** Two rules are the same when, trimmed, both say something and match letter for letter, case aside. */
  lemma SameRuleExactly(a: string, b: string)
    ensures SameRule(a, b) <==>
      && Trim(a) != [] && Trim(b) != [] && |Trim(a)| == |Trim(b)|
      && forall k :: 0 <= k < |Trim(a)| ==>
        || Trim(a)[k] == Trim(b)[k]
        || ('A' <= Trim(a)[k] <= 'Z' && Trim(b)[k] as int == Trim(a)[k] as int + 32)
        || ('A' <= Trim(b)[k] <= 'Z' && Trim(a)[k] as int == Trim(b)[k] as int + 32)
  {
    hide Trim;
    forall k | 0 <= k < |Trim(a)| && |Trim(a)| == |Trim(b)|
      ensures Lower(Trim(a)[k]) == Lower(Trim(b)[k]) <==>
        || Trim(a)[k] == Trim(b)[k]
        || ('A' <= Trim(a)[k] <= 'Z' && Trim(b)[k] as int == Trim(a)[k] as int + 32)
        || ('A' <= Trim(b)[k] <= 'Z' && Trim(a)[k] as int == Trim(b)[k] as int + 32)
    {
      LowerExactly(Trim(a)[k], Trim(b)[k]);
    }
  }

  lemma LowerExactly(c: char, d: char)
    ensures Lower(c) == Lower(d) <==>
      || c == d
      || ('A' <= c <= 'Z' && d as int == c as int + 32)
      || ('A' <= d <= 'Z' && c as int == d as int + 32)
  {
  }

  /** Agreement chains do not collapse: the middle of three can agree with both ends alone. */
  lemma CorroborationIsNotTransitive()
    ensures exists a: Finding, b: Finding, c: Finding ::
      Corroborates(a, b) && Corroborates(b, c) && !Corroborates(a, c)
  {
    var a := Finding(0, "p", Some(10), None, "r", 0, 0.5, None, 1, "a");
    var b, c := a.(line := Some(13)), a.(line := Some(16));
    assert Corroborates(a, b) && Corroborates(b, c) && !Corroborates(a, c);
  }
}
