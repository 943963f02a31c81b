/** What the allow-list admits, as strings: itself, and any one segment for the star. */
module OverlayKeys {
  import opened Prelude
  import opened ConfigLayers
  import opened ConfigPaths
  import opened ConfigOverlay

  const ANY_LANE: Path := ["lanes", "*", "fail_on"]

  predicate Starless(section: Section) {
    "*" !in section.above && "*" !in section.settings
  }

  /** The star is listed once, between `lanes` and `fail_on`. */
  predicate StarsAreLanes(sections: seq<Section>) {
    forall k :: 0 <= k < |sections| ==> Starless(sections[k]) || sections[k] == Section(["lanes", "*"], ["fail_on"])
  }

  lemma ScopeStars()
    ensures StarsAreLanes(SCOPE + LANES)
  {
  }

  lemma PreviewStars()
    ensures StarsAreLanes(PREVIEW)
  {
  }

  lemma ReviewStars()
    ensures StarsAreLanes(REVIEW)
  {
  }

  lemma ReportStars()
    ensures StarsAreLanes(REPORT)
  {
  }

  lemma {:induction false} StarIsForLanes(sections: seq<Section>, k: nat)
    requires StarsAreLanes(sections) && k < |Patterns(sections)|
    ensures "*" in Patterns(sections)[k] ==> Patterns(sections)[k] == ANY_LANE
  {
    hide Starless;
    var here := |sections[0].settings|;
    if k >= here {
      StarIsForLanes(sections[1..], k - here);
    } else {
      StarOfSection(sections[0], k);
    }
  }

  lemma StarOfSection(section: Section, k: nat)
    requires Starless(section) || section == Section(["lanes", "*"], ["fail_on"])
    requires k < |section.settings|
    ensures "*" in section.above + [section.settings[k]] ==> section.above + [section.settings[k]] == ANY_LANE
  {
  }

  lemma AllStarsAreLanes()
    ensures StarsAreLanes(SECTIONS)
  {
    hide Starless;
    ScopeStars();
    PreviewStars();
    ReviewStars();
    ReportStars();
  }

  lemma AnyLaneIsListed() returns (k: nat)
    ensures k < |PATTERNS| && PATTERNS[k] == ANY_LANE
  {
    hide Patterns;
    k := SettingIsListed(SECTIONS, 2, 0);
  }

  lemma {:induction false} SplitIsInjective(a: string, b: string)
    requires Split(a) == Split(b)
    ensures a == b
  {
    if a != [] && b != [] {
      assert Split(a[1..]) != [] && Split(b[1..]) != [];
      if a[0] == '.' {
        assert Split(a)[1..] == Split(a[1..]);
        assert Split(a)[0] == [] && b[0] == '.';
        assert Split(b)[1..] == Split(b[1..]);
      } else {
        assert Split(a)[0] == [a[0]] + Split(a[1..])[0];
        assert b[0] != '.';
        assert Split(b)[0] == [b[0]] + Split(b[1..])[0];
        assert Split(a)[1..] == Split(a[1..])[1..] && Split(b)[1..] == Split(b[1..])[1..];
        assert Split(a)[0][1..] == Split(b)[0][1..];
        assert Split(a[1..]) == [Split(a[1..])[0]] + Split(a[1..])[1..];
        assert Split(b[1..]) == [Split(b[1..])[0]] + Split(b[1..])[1..];
      }
      SplitIsInjective(a[1..], b[1..]);
      assert a == [a[0]] + a[1..] && b == [b[0]] + b[1..];
    }
  }

  lemma LaneKeySplits(lane: string)
    ensures Split("lanes." + lane + ".fail_on") == ["lanes"] + Split(lane) + ["fail_on"]
  {
    hide Split;
    assert "lanes." + lane + ".fail_on" == "lanes" + "." + (lane + "." + "fail_on");
    SplitAppend("lanes", lane + "." + "fail_on");
    SplitAppend(lane, "fail_on");
    SplitKey("lanes", "");
    SplitKey("fail_on", "");
  }

  /** A star admits one segment of any text, and never more than one. */
  lemma AnyLaneMayFail(lane: string)
    ensures Overridable("lanes." + lane + ".fail_on") <==> '.' !in lane
  {
    hide Split, Patterns;
    var key := "lanes." + lane + ".fail_on";
    LaneKeySplits(lane);
    if '.' in lane {
      DotSplits(lane);
      if Overridable(key) {
        var k := OverridableIsShaped(key);
        assert false;
      }
    } else {
      SplitKey(lane, "");
      var k := AnyLaneIsListed();
      KeysAreShaped(k);
      assert SegmentsMatch(Split(OVERRIDABLE_KEYS[k]), Split(key));
    }
  }

  lemma StarlessMatchIsEqual(pattern: Path, segments: seq<string>)
    requires SegmentsMatch(pattern, segments) && "*" !in pattern
    ensures pattern == segments
  {
  }

  /** What the star does not admit has to be on the list letter for letter. */
  lemma ListMeansItself(key: string)
    ensures Overridable(key) <==>
      (key in OVERRIDABLE_KEYS || exists lane: string :: '.' !in lane && key == "lanes." + lane + ".fail_on")
  {
    hide Split, Patterns;
    if Overridable(key) {
      var k: nat :| k < |OVERRIDABLE_KEYS| && SegmentsMatch(Split(OVERRIDABLE_KEYS[k]), Split(key));
      KeysAreShaped(k);
      AllStarsAreLanes();
      StarIsForLanes(SECTIONS, k);
      if "*" in PATTERNS[k] {
        LaneIsAKey(key);
      } else {
        StarlessMatchIsEqual(PATTERNS[k], Split(key));
        SplitIsInjective(OVERRIDABLE_KEYS[k], key);
      }
    } else {
      forall lane: string | '.' !in lane ensures key != "lanes." + lane + ".fail_on" {
        AnyLaneMayFail(lane);
      }
    }
  }

  lemma LaneIsAKey(key: string)
    requires SegmentsMatch(ANY_LANE, Split(key))
    ensures exists lane: string :: '.' !in lane && key == "lanes." + lane + ".fail_on"
  {
    hide Split;
    var lane := Split(key)[1];
    PartsHaveNoDots(key);
    LaneKeySplits(lane);
    SplitKey(lane, "");
    assert Split(key) == ["lanes"] + [lane] + ["fail_on"];
    SplitIsInjective(key, "lanes." + lane + ".fail_on");
  }

  lemma {:induction false} PartsHaveNoDots(s: string)
    ensures forall k :: 0 <= k < |Split(s)| ==> '.' !in Split(s)[k]
  {
    if s != [] {
      PartsHaveNoDots(s[1..]);
    }
  }
}
