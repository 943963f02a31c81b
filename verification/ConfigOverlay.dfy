/**
 * The overlay a reviewed repository may put on the operator's configuration: an allow-list of
 * dotted keys, a filter that keeps only those leaves, and the merge of what was kept.
 */
module ConfigOverlay {
  import opened Prelude
  import opened ConfigLayers
  import opened ConfigPaths

  /** Settings that share the segments above them. In place of one segment, `*` admits any. */
  datatype Section = Section(above: Path, settings: seq<string>)

  const SCOPE: seq<Section> := [
    Section(["knowledge"], ["extract", "files"]),
    Section(["labels"], ["human_review", "manual_only"])]

  const LANES: seq<Section> := [
    Section(["lanes", "*"], ["fail_on"]),
    Section(["lanes", "e2e"], ["missing_harness", "paths", "workflows"])]

  const PREVIEW: seq<Section> := [
    Section(["paths"], ["ignore"]),
    Section(["preview"], ["enabled", "max_flows"])]

  const REVIEW: seq<Section> := [
    Section(["review"], [
      "confidence_min", "draft_prs", "incremental", "lanes", "max_comments", "note_confidence",
      "respect_agents_md", "severity_gate", "strictness"])]

  const REPORT: seq<Section> := [
    Section(["summary"], ["enabled", "history_entries", "max_features", "max_tests", "sections"]),
    Section(["wireframe"], ["enabled", "max_screens"])]

  /** Every section a repository may set something in. */
  const SECTIONS: seq<Section> := SCOPE + LANES + PREVIEW + REVIEW + REPORT

  function PatternsOf(section: Section): seq<Path> {
    seq(|section.settings|, k requires 0 <= k < |section.settings| => section.above + [section.settings[k]])
  }

  function Patterns(sections: seq<Section>): seq<Path> {
    if sections == [] then [] else PatternsOf(sections[0]) + Patterns(sections[1..])
  }

  /** The allow-list, one path of segments a pattern. */
  const PATTERNS: seq<Path> := Patterns(SECTIONS)

  /** The allow-list as the program holds it, one dotted string a pattern. */
  const OVERRIDABLE_KEYS: seq<string> := Spelled(PATTERNS)

  function Spelled(paths: seq<Path>): seq<string> {
    seq(|paths|, k requires 0 <= k < |paths| => Dotted(paths[k]))
  }

  predicate SegmentsMatch(pattern: seq<string>, key: seq<string>) {
    |pattern| == |key| && forall k :: 0 <= k < |key| ==> pattern[k] == "*" || pattern[k] == key[k]
  }

  predicate MatchesOneOf(patterns: seq<string>, key: string) {
    exists k :: 0 <= k < |patterns| && SegmentsMatch(Split(patterns[k]), Split(key))
  }

  predicate Overridable(key: string) {
    MatchesOneOf(OVERRIDABLE_KEYS, key)
  }

  method PatternMatches(pattern: string, key: string) returns (matches: bool)
    ensures matches == SegmentsMatch(Split(pattern), Split(key))
  {
    var patternSegments, keySegments := Split(pattern), Split(key);
    var n := 0;
    while true
      invariant n <= |patternSegments| && n <= |keySegments|
      invariant forall k :: 0 <= k < n ==> patternSegments[k] == "*" || patternSegments[k] == keySegments[k]
      decreases |keySegments| - n
    {
      if n == |patternSegments| && n == |keySegments| {
        return true;
      } else if n < |patternSegments| && n < |keySegments|
             && (patternSegments[n] == "*" || patternSegments[n] == keySegments[n]) {
        n := n + 1;
      } else {
        return false;
      }
    }
  }

  method AnyMatches(patterns: seq<string>, key: string) returns (matches: bool)
    ensures matches == MatchesOneOf(patterns, key)
  {
    for n := 0 to |patterns|
      invariant forall k :: 0 <= k < n ==> !SegmentsMatch(Split(patterns[k]), Split(key))
    {
      matches := PatternMatches(patterns[n], key);
      if matches {
        return true;
      }
    }
    return false;
  }

  method IsOverridable(key: string) returns (overridable: bool)
    ensures overridable == Overridable(key)
  {
    overridable := AnyMatches(OVERRIDABLE_KEYS, key);
  }

  // ----- What the filter keeps -----

  function Kept(value: Value, name: string): Option<Value>
    decreases value, 0
  {
    match value
    case Leaf(_) => if Overridable(name) then Some(value) else None
    case Table(entries) =>
      var inner := KeptEntries(value, name);
      if inner == map[] then None else Some(Table(inner))
  }

  function KeptEntries(table: Value, prefix: string): map<string, Value>
    requires table.Table?
    decreases table, -1
  {
    map key | key in table.entries && Kept(table.entries[key], Join(prefix, key)).Some? ::
      Kept(table.entries[key], Join(prefix, key)).value
  }

  /** The part of a repository's document that may be applied. */
  function Filtered(document: map<string, Value>): Value {
    Table(KeptEntries(Table(document), ""))
  }

  function Refused(names: set<string>): set<string> {
    set n | n in names && !Overridable(n)
  }

  method FilterInto(table: map<string, Value>, prefix: string, refused: set<string>)
    returns (kept: map<string, Value>, ignored: set<string>)
    ensures kept == KeptEntries(Table(table), prefix)
    ensures ignored == refused + Refused(LeafNames(Table(table), prefix))
    decreases Table(table)
  {
    hide Overridable, LeafNames, Kept, KeptEntries;
    kept, ignored := map[], refused;
    var rest := table.Keys;
    ghost var done: set<string> := {};
    ghost var whole := KeptEntries(Table(table), prefix);
    KeptKeys(table, prefix);
    assert NamesAt(table, {}, prefix) == {};
    while rest != {}
      invariant done + rest == table.Keys && done !! rest
      invariant forall k :: k in kept <==> k in done && k in whole
      invariant forall k :: k in kept ==> kept[k] == whole[k]
      invariant ignored == refused + Refused(NamesAt(table, done, prefix))
      decreases rest
    {
      var key :| key in rest;
      var path, value := Join(prefix, key), table[key];
      NamesOfOneMore(table, done, key, prefix);
      KeptEntry(table, prefix, key);
      match value {
        case Table(inner) =>
          var innerKept;
          innerKept, ignored := FilterInto(inner, path, ignored);
          if innerKept != map[] {
            kept := kept[key := Table(innerKept)];
          }
        case Leaf(_) =>
          LeafNamesOfLeaf(value, path);
          var allowed := IsOverridable(path);
          if allowed {
            kept := kept[key := value];
          } else {
            ignored := ignored + {path};
          }
      }
      rest, done := rest - {key}, done + {key};
    }
    assert done == table.Keys;
    NoNamesYet(map[], Table(table), Repo, prefix);
    assert kept == whole;
  }

  lemma KeptEntry(table: map<string, Value>, prefix: string, key: string)
    requires key in table
    ensures var whole, kept := KeptEntries(Table(table), prefix), Kept(table[key], Join(prefix, key));
      (key in whole <==> kept.Some?) && (key in whole ==> whole[key] == kept.value)
    ensures Kept(table[key], Join(prefix, key)) ==
      match table[key]
      case Leaf(_) => if Overridable(Join(prefix, key)) then Some(table[key]) else None
      case Table(inner) =>
        var innerKept := KeptEntries(Table(inner), Join(prefix, key));
        if innerKept == map[] then None else Some(Table(innerKept))
  {
    hide Overridable;
  }

  lemma KeptKeys(table: map<string, Value>, prefix: string)
    ensures KeptEntries(Table(table), prefix).Keys <= table.Keys
  {
    hide Overridable;
  }

  lemma LeafNamesOfLeaf(value: Value, name: string)
    requires value.Leaf?
    ensures LeafNames(value, name) == {name}
  {
  }

  method Filter(document: map<string, Value>) returns (kept: map<string, Value>, ignored: set<string>)
    ensures Table(kept) == Filtered(document)
    ensures ignored == Refused(LeafNames(Table(document), ""))
  {
    kept, ignored := FilterInto(document, "", {});
  }

  function LeafIn(kept: Option<Value>, path: Path): Option<string> {
    if kept.Some? then LeafAt(kept.value, path) else None
  }

  lemma {:induction false} KeptLaw(value: Value, name: string, path: Path)
    ensures LeafIn(Kept(value, name), path)
      == if Overridable(DottedFrom(name, path)) then LeafAt(value, path) else None
    decreases value
  {
    hide Overridable;
    if value.Table? && path != [] && path[0] in value.entries {
      KeptLaw(value.entries[path[0]], Join(name, path[0]), path[1..]);
      KeptEntry(value.entries, name, path[0]);
      assert KeptEntries(Table(value.entries), name) == KeptEntries(value, name);
    }
  }

  /** A leaf of the document survives the filter exactly when its dotted name is on the list. */
  lemma FilterKeepsExactlyTheAllowed(document: map<string, Value>, path: Path)
    ensures LeafAt(Filtered(document), path)
      == if Overridable(Dotted(path)) then LeafAt(Table(document), path) else None
  {
    hide Overridable;
    if path != [] && path[0] in document {
      KeptLaw(document[path[0]], Join("", path[0]), path[1..]);
    }
  }

  // ----- Where two paths get in each other's way -----

  /** One path is the other or lies below it. */
  predicate Comparable(p: Path, q: Path) {
    p <= q || q <= p
  }

  /** No table below this value is empty. */
  predicate Dense(value: Value)
    decreases value
  {
    value.Table? ==> value.entries != map[] && forall key :: key in value.entries ==> Dense(value.entries[key])
  }

  lemma {:induction false} KeptIsDense(value: Value, name: string)
    ensures Kept(value, name).Some? ==> Dense(Kept(value, name).value)
    decreases value
  {
    hide Overridable;
    if value.Table? {
      var inner := KeptEntries(value, name);
      forall key | key in inner ensures Dense(inner[key]) {
        KeptIsDense(value.entries[key], Join(name, key));
      }
    }
  }

  lemma {:induction false} DenseHasALeaf(value: Value) returns (path: Path)
    requires Dense(value)
    ensures LeafAt(value, path).Some?
    decreases value
  {
    match value {
      case Leaf(_) => path := [];
      case Table(entries) =>
        var key :| key in entries;
        var rest := DenseHasALeaf(entries[key]);
        path := [key] + rest;
        assert path[1..] == rest;
    }
  }

  /** Where a dense value has a say, one of its leaves lies above, at or below the path. */
  lemma {:induction false} TouchedByALeaf(value: Value, path: Path) returns (leaf: Path)
    requires Dense(value) && Touches(value, path)
    ensures LeafAt(value, leaf).Some? && Comparable(leaf, path)
    decreases value
  {
    if path == [] {
      leaf := DenseHasALeaf(value);
    } else if value.Leaf? {
      leaf := [];
    } else {
      var rest := TouchedByALeaf(value.entries[path[0]], path[1..]);
      leaf := [path[0]] + rest;
      assert leaf[1..] == rest;
      assert path == [path[0]] + path[1..];
    }
  }

  lemma {:induction false} LeafTouches(value: Value, leaf: Path, path: Path)
    requires LeafAt(value, leaf).Some? && Comparable(leaf, path)
    ensures Touches(value, path)
    ensures leaf != path ==> LeafAt(value, path).None?
    decreases value
  {
    if leaf != [] && path != [] {
      assert leaf[0] == path[0];
      assert leaf == [leaf[0]] + leaf[1..] && path == [path[0]] + path[1..];
      LeafTouches(value.entries[leaf[0]], leaf[1..], path[1..]);
    }
  }

  /** The document that sets one leaf and nothing else. */
  function Nest(path: Path, text: string): Value
    decreases |path|
  {
    if path == [] then Leaf(text) else Table(map[path[0] := Nest(path[1..], text)])
  }

  lemma {:induction false} NestHasItsLeaf(path: Path, text: string)
    ensures LeafAt(Nest(path, text), path) == Some(text)
    decreases |path|
  {
    if path != [] {
      NestHasItsLeaf(path[1..], text);
    }
  }

  // ----- No path on the list lies below another -----

  /** A key on the list is a lane's setting of three segments or a two-segment setting elsewhere. */
  predicate KeyShape(segments: seq<string>) {
    || (|segments| == 3 && segments[0] == "lanes")
    || (|segments| == 2 && segments[0] != "lanes" && segments[0] != "*")
  }

  predicate Shaped(section: Section) {
    && PlainPath(section.above) && PlainPath(section.settings)
    && (|| (|section.above| == 2 && section.above[0] == "lanes")
        || (|section.above| == 1 && section.above[0] != "lanes" && section.above[0] != "*"))
  }

  predicate AllShaped(sections: seq<Section>) {
    forall k :: 0 <= k < |sections| ==> Shaped(sections[k])
  }

  lemma ScopeIsShaped()
    ensures AllShaped(SCOPE)
  {
  }

  lemma LanesAreShaped()
    ensures AllShaped(LANES)
  {
  }

  lemma PreviewIsShaped()
    ensures AllShaped(PREVIEW)
  {
  }

  lemma ReviewIsShaped()
    ensures AllShaped(REVIEW)
  {
  }

  lemma ReportIsShaped()
    ensures AllShaped(REPORT)
  {
  }

  lemma {:induction false} PatternsAreShaped(sections: seq<Section>, k: nat)
    requires k < |Patterns(sections)| && AllShaped(sections)
    ensures var pattern := Patterns(sections)[k]; PlainPath(pattern) && KeyShape(pattern)
  {
    var here := |sections[0].settings|;
    if k >= here {
      PatternsAreShaped(sections[1..], k - here);
    }
  }

  /** Each listed string splits back into its segments. */
  lemma KeysAreShaped(k: nat)
    requires k < |OVERRIDABLE_KEYS|
    ensures Split(OVERRIDABLE_KEYS[k]) == PATTERNS[k] && PlainPath(PATTERNS[k]) && KeyShape(PATTERNS[k])
  {
    hide PlainPath, Shaped;
    ScopeIsShaped();
    LanesAreShaped();
    PreviewIsShaped();
    ReviewIsShaped();
    ReportIsShaped();
    PatternsAreShaped(SECTIONS, k);
    DottedRoundTrip(PATTERNS[k]);
  }

  lemma SplitStep(c: char, rest: string)
    ensures Split([]) == [[]]
    ensures var parts := Split(rest);
      Split([c] + rest) == if c == '.' then [[]] + parts else [[c] + parts[0]] + parts[1..]
  {
    assert ([c] + rest)[1..] == rest;
  }

  lemma LongerFirstPart(c: char, parts: seq<string>, tail: seq<string>)
    requires parts != []
    ensures [[c] + (parts + tail)[0]] + (parts + tail)[1..] == [[c] + parts[0]] + parts[1..] + tail
    ensures [[]] + (parts + tail) == [[]] + parts + tail
  {
  }

  lemma {:induction false} SplitBeforeDot(a: string, b: string)
    requires b != [] && b[0] == '.'
    ensures Split(a + b) == Split(a) + Split(b[1..])
  {
    hide Split;
    if a == [] {
      SplitStep('.', b[1..]);
      assert a + b == ['.'] + b[1..];
    } else {
      SplitBeforeDot(a[1..], b);
      SplitStep(a[0], a[1..]);
      SplitStep(a[0], a[1..] + b);
      LongerFirstPart(a[0], Split(a[1..]), Split(b[1..]));
      assert a == [a[0]] + a[1..] && a + b == [a[0]] + (a[1..] + b);
    }
  }

  lemma SplitAppend(a: string, b: string)
    ensures Split(a + "." + b) == Split(a) + Split(b)
  {
    hide Split;
    SplitBeforeDot(a, "." + b);
    assert a + ("." + b) == a + "." + b;
    assert ("." + b)[1..] == b;
  }

  /** The segments the keys of a path contribute to its name, dots inside a key included. */
  function Segments(path: Path): (segments: seq<string>)
    ensures |segments| >= |path|
  {
    if path == [] then [] else Split(path[0]) + Segments(path[1..])
  }

  /** Below a nonempty name, every key adds its own segments. */
  lemma {:induction false} NameSegments(prefix: string, path: Path)
    requires prefix != ""
    ensures Split(DottedFrom(prefix, path)) == Split(prefix) + Segments(path)
    decreases |path|
  {
    hide Split;
    if path != [] {
      SplitAppend(prefix, path[0]);
      NameSegments(prefix + "." + path[0], path[1..]);
    }
  }

  /** A path spells its own segments unless its first key is empty. */
  lemma SegmentsOfName(path: Path)
    requires path != [] && path[0] != ""
    ensures Split(Dotted(path)) == Segments(path)
  {
    hide Split;
    NameSegments(path[0], path[1..]);
  }

  lemma {:induction false} DottedAppend(prefix: string, p: Path, rest: Path)
    ensures DottedFrom(prefix, p + rest) == DottedFrom(DottedFrom(prefix, p), rest)
    decreases |p|
  {
    if p == [] {
      assert p + rest == rest;
    } else {
      assert (p + rest)[1..] == p[1..] + rest;
      DottedAppend(Join(prefix, p[0]), p[1..], rest);
    }
  }

  lemma OverridableIsShaped(key: string) returns (k: nat)
    requires Overridable(key)
    ensures k < |PATTERNS| && SegmentsMatch(PATTERNS[k], Split(key))
    ensures KeyShape(PATTERNS[k]) && PlainPath(PATTERNS[k])
  {
    hide Split, KeyShape;
    k :| k < |OVERRIDABLE_KEYS| && SegmentsMatch(Split(OVERRIDABLE_KEYS[k]), Split(key));
    KeysAreShaped(k);
  }

  /**
   * No two settable paths lie above one another, whatever their keys look like: a table where the
   * list names a setting has nothing the filter keeps.
   */
  lemma SettablePathsDoNotNest(p: Path, q: Path)
    requires Overridable(Dotted(p)) && Overridable(Dotted(q)) && Comparable(p, q)
    ensures p == q
  {
    hide Overridable, DottedFrom, Split;
    if p < q {
      NothingSettableBelow(p, q);
    } else if q < p {
      NothingSettableBelow(q, p);
    }
  }

  lemma NothingSettableBelow(p: Path, q: Path)
    requires Overridable(Dotted(p)) && p < q
    ensures !Overridable(Dotted(q))
  {
    hide Overridable, DottedFrom, Split;
    var low := OverridableIsShaped(Dotted(p));
    assert p + q[|p|..] == q;
    DottedAppend("", p, q[|p|..]);
    if Dotted(p) == "" {
      SplitOfNothing();
    } else {
      NameSegments(Dotted(p), q[|p|..]);
      if Overridable(Dotted(q)) {
        var high := OverridableIsShaped(Dotted(q));
        assert false;
      }
    }
  }

  lemma SplitOfNothing()
    ensures |Split("")| == 1
  {
  }

  // ----- Non-interference -----

  /** No effective leaf lies strictly above or strictly below a path the repository may set. */
  ghost predicate SafeBase(base: Value) {
    forall p: Path, q: Path | LeafAt(base, p).Some? && q != [] && Overridable(Dotted(q)) && p != q :: !Comparable(p, q)
  }

  /** The overlay of `document` leaves every path off the list as it was. */
  ghost predicate Harmless(base: Value, document: map<string, Value>) {
    forall p: Path | !Overridable(Dotted(p)) :: LeafAt(Merge(base, Filtered(document)), p) == LeafAt(base, p)
  }

  lemma FilteredTouches(document: map<string, Value>, p: Path) returns (q: Path)
    requires p != [] && Touches(Filtered(document), p)
    ensures q != [] && Overridable(Dotted(q)) && LeafAt(Filtered(document), q).Some? && Comparable(q, p)
  {
    hide Overridable, Dotted;
    var kept := Filtered(document);
    assert Dense(kept) by {
      KeptIsDense(Table(document), "");
    }
    q := TouchedByALeaf(kept, p);
    FilterKeepsExactlyTheAllowed(document, q);
  }

  lemma OverlayStaysOnTheList(base: Value, document: map<string, Value>, p: Path)
    requires base.Table? && !Overridable(Dotted(p)) && SafeBase(base)
    ensures LeafAt(Merge(base, Filtered(document)), p) == LeafAt(base, p)
  {
    hide Overridable, Dotted, Merge, Filtered;
    var kept := Filtered(document);
    MergeLaw(base, kept, p);
    FilterKeepsExactlyTheAllowed(document, p);
    if p != [] && Touches(kept, p) && LeafAt(base, p).Some? {
      var q := FilteredTouches(document, p);
    }
  }

  lemma UnsafeBaseIsReached(base: Value, p: Path, q: Path)
    requires base.Table? && LeafAt(base, p).Some? && q != [] && p != q && Comparable(p, q)
    requires Overridable(Dotted(q)) && !Overridable(Dotted(p))
    ensures !Harmless(base, Nest(q, "").entries)
  {
    hide Overridable, Dotted, Merge, Filtered;
    var document := Nest(q, "").entries;
    assert Table(document) == Nest(q, "");
    NestHasItsLeaf(q, "");
    FilterKeepsExactlyTheAllowed(document, q);
    var kept := Filtered(document);
    LeafTouches(kept, q, p);
    MergeLaw(base, kept, p);
    assert LeafAt(Merge(base, kept), p) != LeafAt(base, p);
  }

  /**
   * Non-interference, exactly. Whatever a repository writes, its overlay changes only paths on the
   * list, if and only if no effective leaf sits above or below one of those paths.
   */
  lemma OverlayIsHarmlessExactly(base: Value)
    requires base.Table?
    ensures (forall document :: Harmless(base, document)) <==> SafeBase(base)
  {
    hide Overridable, Dotted, Merge, Filtered;
    if SafeBase(base) {
      forall document, p: Path | !Overridable(Dotted(p))
        ensures LeafAt(Merge(base, Filtered(document)), p) == LeafAt(base, p)
      {
        OverlayStaysOnTheList(base, document, p);
      }
    } else {
      var p: Path, q: Path :| LeafAt(base, p).Some? && q != [] && Overridable(Dotted(q)) && p != q && Comparable(p, q);
      if Overridable(Dotted(p)) {
        SettablePathsDoNotNest(p, q);
      }
      UnsafeBaseIsReached(base, p, q);
      var document := Nest(q, "").entries;
      assert !Harmless(base, document);
    }
  }

  /**
   * A setting on the list stays a setting: the overlay either gives it the repository's value or
   * leaves the operator's, and never puts a table in its place, whatever the operator has elsewhere.
   */
  lemma SettingsAreNeverReplacedByTables(base: Value, document: map<string, Value>, p: Path)
    requires p != [] && Overridable(Dotted(p))
    ensures LeafAt(Merge(base, Filtered(document)), p)
      == if LeafAt(Table(document), p).Some? then LeafAt(Table(document), p) else LeafAt(base, p)
  {
    hide Overridable, Dotted, Merge, Filtered;
    var kept := Filtered(document);
    MergeLaw(base, kept, p);
    FilterKeepsExactlyTheAllowed(document, p);
    if Touches(kept, p) {
      var q := FilteredTouches(document, p);
      SettablePathsDoNotNest(q, p);
    } else {
      UntouchedIsEmpty(kept, p);
    }
  }

  // ----- Which paths the list names -----

  /** A pattern of the list matches the path itself, segment for segment. */
  predicate Listed(path: Path) {
    exists k :: 0 <= k < |PATTERNS| && SegmentsMatch(PATTERNS[k], path)
  }

  /** No key on the path holds a dot. */
  predicate Dotless(path: Path) {
    forall k :: 0 <= k < |path| ==> '.' !in path[k]
  }

  lemma {:induction false} SettingIsListed(sections: seq<Section>, i: nat, j: nat) returns (k: nat)
    requires i < |sections| && j < |sections[i].settings|
    ensures k < |Patterns(sections)| && Patterns(sections)[k] == sections[i].above + [sections[i].settings[j]]
  {
    if i == 0 {
      k := j;
    } else {
      var rest := SettingIsListed(sections[1..], i - 1, j);
      k := |sections[0].settings| + rest;
    }
  }

  lemma {:induction false} DotlessSegments(path: Path)
    ensures Dotless(path) ==> Segments(path) == path
    ensures |Segments(path)| == |path| ==> Dotless(path)
  {
    hide Split;
    if path != [] {
      DotlessSegments(path[1..]);
      if '.' in path[0] {
        DotSplits(path[0]);
      } else {
        SplitKey(path[0], "");
      }
      assert path == [path[0]] + path[1..];
    }
  }

  lemma {:induction false} DotSplits(key: string)
    requires '.' in key
    ensures |Split(key)| > 1
  {
    if key[0] != '.' {
      DotSplits(key[1..]);
    }
  }

  /** Where no key holds a dot and the first is not empty, the allow-list means what it says. */
  lemma DotlessPathsAreListed(path: Path)
    requires path != [] && path[0] != "" && Dotless(path)
    ensures Overridable(Dotted(path)) <==> Listed(path)
  {
    hide Split, Segments, Dotted;
    SegmentsOfName(path);
    DotlessSegments(path);
    forall k: nat | k < |PATTERNS| ensures Split(OVERRIDABLE_KEYS[k]) == PATTERNS[k] {
      KeysAreShaped(k);
    }
    if k: nat :| k < |PATTERNS| && SegmentsMatch(PATTERNS[k], path) {
      assert SegmentsMatch(Split(OVERRIDABLE_KEYS[k]), Split(Dotted(path)));
    }
  }

  /** Lengths decide: a path that is both listed and spelled like a pattern has no dot in a key. */
  lemma ListedIsDotless(path: Path)
    requires Overridable(Dotted(path)) && Listed(path)
    ensures path != [] && path[0] != "" && Dotless(path)
  {
    hide Split, Segments, Dotted, PlainPath;
    var named := OverridableIsShaped(Dotted(path));
    var listed: nat :| listed < |PATTERNS| && SegmentsMatch(PATTERNS[listed], path);
    KeysAreShaped(listed);
    FirstSegmentIsFixed(listed, path);
    SegmentsOfName(path);
    FirstSegment(path);
    DotlessSegments(path);
  }

  lemma FirstSegmentIsFixed(k: nat, path: Path)
    requires k < |PATTERNS| && SegmentsMatch(PATTERNS[k], path) && KeyShape(PATTERNS[k]) && PlainPath(PATTERNS[k])
    ensures path != [] && PlainKey(path[0]) && PATTERNS[k][0] == path[0]
  {
  }

  lemma FirstSegment(path: Path)
    requires path != [] && '.' !in path[0]
    ensures Segments(path) != [] && Segments(path)[0] == path[0]
  {
    hide Split;
    SplitKey(path[0], "");
  }

  /**
   * Exactly which kept leaves sit where the list says. The filter reads dotted names, so a leaf it
   * keeps is at a path some pattern matches segment for segment if and only if no key on the path
   * holds a dot and the first one is not empty.
   */
  lemma KeptLeavesAreListedExactly(document: map<string, Value>, path: Path)
    requires LeafAt(Filtered(document), path).Some?
    ensures path != [] && Overridable(Dotted(path))
    ensures Listed(path) <==> path[0] != "" && Dotless(path)
  {
    hide Overridable, Dotted, Listed, Dotless;
    FilterKeepsExactlyTheAllowed(document, path);
    if path[0] != "" && Dotless(path) {
      DotlessPathsAreListed(path);
    }
    if Listed(path) {
      ListedIsDotless(path);
    }
  }

  /** So a quoted key that merely reads like a listed one is kept, at a path the list does not name. */
  lemma QuotedKeysAreAdmitted(text: string)
    ensures var path := ["review.strictness"];
      LeafAt(Filtered(map[path[0] := Leaf(text)]), path) == Some(text) && !Listed(path)
  {
    hide Split, Listed, Patterns;
    var path, spelled := ["review.strictness"], ["review", "strictness"];
    assert path[1..] == [] && spelled[1..] == ["strictness"] && ["strictness"][1..] == [];
    assert Dotted(path) == Dotted(spelled);
    ListedByName(spelled, 6, 8);
    DotlessPathsAreListed(spelled);
    assert path[0][6] == '.';
    FilterKeepsExactlyTheAllowed(map[path[0] := Leaf(text)], path);
    KeptLeavesAreListedExactly(map[path[0] := Leaf(text)], path);
  }

  lemma ListedByName(path: Path, section: nat, setting: nat)
    requires section < |SECTIONS| && setting < |SECTIONS[section].settings|
    requires path == SECTIONS[section].above + [SECTIONS[section].settings[setting]]
    ensures Listed(path)
  {
    hide Patterns;
    var k := SettingIsListed(SECTIONS, section, setting);
    assert SegmentsMatch(PATTERNS[k], path);
  }

  // ----- Clamping back to the operator's ceilings -----

  /** The settings that pay for previews, summaries and wireframes: switches and caps. */
  datatype Spending = Spending(
    previews: bool, maxFlows: nat, summaries: bool, maxFeatures: nat, maxTests: nat, historyEntries: nat,
    wireframes: bool, maxScreens: nat)
  {
    /** Nothing is on that is off in `limit`, and no cap is above its own there. */
    predicate Within(limit: Spending) {
      && (previews ==> limit.previews) && (summaries ==> limit.summaries) && (wireframes ==> limit.wireframes)
      && maxFlows <= limit.maxFlows && maxScreens <= limit.maxScreens
      && maxFeatures <= limit.maxFeatures && maxTests <= limit.maxTests && historyEntries <= limit.historyEntries
    }
  }

  function Clamped(merged: Spending, base: Spending): Spending {
    Spending(merged.previews && base.previews, Min(merged.maxFlows, base.maxFlows),
             merged.summaries && base.summaries, Min(merged.maxFeatures, base.maxFeatures),
             Min(merged.maxTests, base.maxTests), Min(merged.historyEntries, base.historyEntries),
             merged.wireframes && base.wireframes, Min(merged.maxScreens, base.maxScreens))
  }

  /**
   * The repository may only ask for less: what is left is within the operator's settings and
   * within its own, and nothing more permissive would be.
   */
  lemma ClampIsTheMostPermissive(merged: Spending, base: Spending, other: Spending)
    ensures Clamped(merged, base).Within(base) && Clamped(merged, base).Within(merged)
    ensures other.Within(base) && other.Within(merged) <==> other.Within(Clamped(merged, base))
  {
  }

  /** The part of the effective configuration the clamps rewrite. */
  class EffectiveConfig {
    var previews: bool
    var maxFlows: nat
    var summaries: bool
    var maxFeatures: nat
    var maxTests: nat
    var historyEntries: nat
    var wireframes: bool
    var maxScreens: nat

    constructor (merged: Spending)
      ensures Value() == merged
    {
      previews, summaries, wireframes := merged.previews, merged.summaries, merged.wireframes;
      maxFlows, maxScreens := merged.maxFlows, merged.maxScreens;
      maxFeatures, maxTests, historyEntries := merged.maxFeatures, merged.maxTests, merged.historyEntries;
    }

    function Value(): Spending
      reads this
    {
      Spending(previews, maxFlows, summaries, maxFeatures, maxTests, historyEntries, wireframes, maxScreens)
    }

    method ClampTo(base: Spending)
      modifies this
      ensures Value() == Clamped(old(Value()), base)
    {
      previews := previews && base.previews;
      maxFlows := Min(maxFlows, base.maxFlows);
      summaries := summaries && base.summaries;
      maxFeatures := Min(maxFeatures, base.maxFeatures);
      maxTests := Min(maxTests, base.maxTests);
      historyEntries := Min(historyEntries, base.historyEntries);
      wireframes := wireframes && base.wireframes;
      maxScreens := Min(maxScreens, base.maxScreens);
    }
  }
}
