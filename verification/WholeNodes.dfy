/** From the tree to the chunks: which nodes of the tree a chunk holds whole. */
module WholeNodes {
  import opened Prelude
  import opened Text
  import opened Chunks
  import opened LineIndex
  import opened TreeSplitter
  import opened CutPoints
  import opened NodeCuts

  function TreeCuts(source: Bytes, root: Node, options: Options): Cuts {
    OrInsert(CollectFrom(root, 0, source, options, 0, map[]), 0, None)
  }

  function TreeSegments(source: Bytes, root: Node, options: Options): seq<Segment> {
    Segments(TreeCuts(source, root, options), |source|)
  }

  function TreeChunks(source: Bytes, root: Node, options: Options): seq<Chunk> {
    if Blank(source) then [] else Assembled(source, TreeSegments(source, root, options), options)
  }

  method SplitTree(source: Bytes, root: Node, options: Options) returns (chunks: seq<Chunk>)
    requires Nested(root, source)
    ensures chunks == TreeChunks(source, root, options)
  {
    if Blank(source) {
      return [];
    }
    var cuts := CollectCuts(root, source, options, 0, map[]);
    if 0 !in cuts {
      cuts := cuts[0 := None];
    }
    chunks := Assemble(source, Segments(cuts, |source|), options);
  }

  /** The segment that holds a byte, and where it ends. */
  lemma {:induction false} Locate(segments: seq<Segment>, lo: nat, hi: nat, at: nat) returns (k: nat)
    requires Contiguous(segments, lo, hi) && lo <= at < hi
    ensures k < |segments| && segments[k].start <= at < segments[k].end
    ensures segments[k].end == hi || exists j :: 0 <= j < |segments| && segments[j].start == segments[k].end
    decreases |segments|
  {
    var n := |segments| - 1;
    if segments[n].start <= at {
      k := n;
    } else {
      k := Locate(segments[..n], lo, segments[n].start, at);
      if segments[k].end != segments[n].start {
        var j :| 0 <= j < |segments[..n]| && segments[..n][j].start == segments[..n][k].end;
        assert segments[j].start == segments[k].end;
      } else {
        assert segments[n].start == segments[k].end;
      }
    }
  }

  predicate InOneSegment(segments: seq<Segment>, node: Node, options: Options, chunks: seq<Chunk>) {
    exists k :: 0 <= k < |segments|
      && segments[k].start <= node.start && node.end <= segments[k].end
      && (options.targetChars <= options.SplitCeiling() && segments[k].Len() <= options.SplitCeiling() ==>
            HeldWhole(chunks, node.start, node.end))
  }

  lemma HeldWholeShrinks(chunks: seq<Chunk>, lo: nat, hi: nat, from: nat, to: nat)
    requires HeldWhole(chunks, lo, hi) && lo <= from && to <= hi
    ensures HeldWhole(chunks, from, to)
  {
    var k :| 0 <= k < |chunks| && |Joined(chunks[..k])| <= lo && hi <= |Joined(chunks[..k])| + |chunks[k].text|;
    assert |Joined(chunks[..k])| <= from && to <= |Joined(chunks[..k])| + |chunks[k].text|;
  }

  lemma TreeCutsAreWhole(source: Bytes, root: Node, options: Options)
    requires Nested(root, source) && source != []
    ensures var segments := TreeSegments(source, root, options);
      Contiguous(segments, 0, |source|) && OnBoundaries(source, segments)
  {
    hide CollectFrom, Nested;
    var cuts := TreeCuts(source, root, options);
    WalkIsConfined(root, 0, source, options, 0, map[]);
    SegmentsTileTheFile(cuts, |source|);
  }

  /** Every cut in the file starts a segment. */
  lemma {:induction false} CutsAreOffsets(cuts: Cuts, from: nat, len: nat, x: nat)
    requires x in cuts && from <= x < len
    ensures x in Offsets(cuts, from, len)
    decreases len - from
  {
    if from < x {
      CutsAreOffsets(cuts, from + 1, len, x);
    }
  }

  lemma CutStartsASegment(cuts: Cuts, len: nat, x: nat) returns (j: nat)
    requires x in cuts && x < len
    ensures j < |Segments(cuts, len)| && Segments(cuts, len)[j].start == x
  {
    hide Between, Offsets;
    var offsets := Offsets(cuts, 0, len);
    CutsAreOffsets(cuts, 0, len, x);
    OffsetsAreCuts(cuts, 0, len);
    BetweenStartsAtCuts(offsets, cuts, len);
    j :| 0 <= j < |offsets| && offsets[j] == x;
  }

  lemma {:induction false} NoSegmentStartsInside(segments: seq<Segment>, lo: nat, hi: nat, k: nat, j: nat)
    requires Contiguous(segments, lo, hi) && k < |segments| && j < |segments|
    ensures lo <= segments[k].start < segments[k].end <= hi
    ensures !(segments[k].start < segments[j].start < segments[k].end)
    decreases |segments|
  {
    var n := |segments| - 1;
    if k < n && j < n {
      NoSegmentStartsInside(segments[..n], lo, segments[n].start, k, j);
    } else if k < n {
      NoSegmentStartsInside(segments[..n], lo, segments[n].start, k, k);
    } else if j < n {
      NoSegmentStartsInside(segments[..n], lo, segments[n].start, j, j);
    }
  }

  /** A node no cut falls inside lies within one segment, and whole in one chunk if that one is short enough. */
  lemma UncutIsInOneSegment(source: Bytes, root: Node, options: Options, n: Node)
    requires Utf8(source) && !Blank(source) && Nested(root, source) && n.start < n.end <= |source|
    requires forall x :: x in TreeCuts(source, root, options) ==> !Inside(x, n)
    ensures InOneSegment(TreeSegments(source, root, options), n, options, TreeChunks(source, root, options))
  {
    hide CollectFrom, Assembled, HeldWhole, Covers, AllWithin, Widest, Utf8, Contiguous, Nested;
    var cuts, segments := TreeCuts(source, root, options), TreeSegments(source, root, options);
    TreeCutsAreWhole(source, root, options);
    AssembledIsSound(source, segments, options);
    SegmentsTileTheFile(cuts, |source|);
    var k := Locate(segments, 0, |source|, n.start);
    if segments[k].end < n.end {
      assert false;
    }
    if options.targetChars <= options.SplitCeiling() && segments[k].Len() <= options.SplitCeiling() {
      assert HeldWhole(TreeChunks(source, root, options), segments[k].start, segments[k].end);
      HeldWholeShrinks(TreeChunks(source, root, options), segments[k].start, segments[k].end, n.start, n.end);
    }
  }

  lemma CutIsInNoSegment(source: Bytes, root: Node, options: Options, n: Node, x: nat)
    requires Nested(root, source) && source != [] && n.end <= |source|
    requires x in TreeCuts(source, root, options) && Inside(x, n)
    ensures !InOneSegment(TreeSegments(source, root, options), n, options, TreeChunks(source, root, options))
  {
    hide TreeCuts, TreeChunks, HeldWhole, Nested, Contiguous;
    var segments := TreeSegments(source, root, options);
    TreeCutsAreWhole(source, root, options);
    var j := CutStartsASegment(TreeCuts(source, root, options), |source|, x);
    forall k | 0 <= k < |segments| ensures !(segments[k].start <= n.start && n.end <= segments[k].end) {
      NoSegmentStartsInside(segments, 0, |source|, k, j);
    }
  }

  /** Whether any cut of the file falls inside a node below the root. */
  lemma NodeIsCutExactly(source: Bytes, root: Node, options: Options, n: Node)
    requires Nested(root, source) && Below(root, n)
    ensures (exists x :: x in TreeCuts(source, root, options) && Inside(x, n)) <==>
      CutThrough(root, source, options, 0, n)
  {
    hide CollectFrom, Nested, Below, CutThrough;
    if x :| x in TreeCuts(source, root, options) && Inside(x, n) {
      CutsRespectTheTree(root, source, options, 0, map[], x, n);
    }
    if CutThrough(root, source, options, 0, n) {
      var x := CutThroughIsCut(root, source, options, 0, map[], n);
      assert x in TreeCuts(source, root, options);
    }
  }

  /**
   * When a chunk may hold half a node, for every node of the tree. The chunks of the tree path tile
   * a nonblank file, and a node below the root lies within one segment of it if and only if the
   * walk does not step through that node into an oversized container and cut inside it; when that
   * segment is no longer than the split ceiling, the node lies whole within one chunk.
   */
  lemma TreeChunksAreSound(source: Bytes, root: Node, options: Options)
    requires Utf8(source) && !Blank(source) && Nested(root, source)
    ensures var chunks := TreeChunks(source, root, options);
      && Covers(chunks, source, 1, 0, |source|)
      && Joined(chunks) == source
      && (AllWithin(chunks, options.maxEmbedBytes) <==> Widest(source) <= options.maxEmbedBytes)
    ensures forall n | Below(root, n) && n.start < n.end ::
      (InOneSegment(TreeSegments(source, root, options), n, options, TreeChunks(source, root, options)) <==>
       !CutThrough(root, source, options, 0, n))
    ensures forall n, level | Visits(root, options, 0, n, level) && !Opened(n, options, level) && n.start < n.end ::
      InOneSegment(TreeSegments(source, root, options), n, options, TreeChunks(source, root, options))
  {
    hide Nested, Assembled, Segments, HeldWhole, InOneSegment, Visits, Opened, Covers, AllWithin, Utf8, Widest;
    hide Below, CutThrough, TreeCuts;
    TreeCutsAreWhole(source, root, options);
    AssembledIsSound(source, TreeSegments(source, root, options), options);
    forall n | Below(root, n) && n.start < n.end
      ensures InOneSegment(TreeSegments(source, root, options), n, options, TreeChunks(source, root, options))
        <==> !CutThrough(root, source, options, 0, n)
    {
      NodeInOneSegmentExactly(source, root, options, n);
    }
    forall n, level | Visits(root, options, 0, n, level) && !Opened(n, options, level) && n.start < n.end
      ensures InOneSegment(TreeSegments(source, root, options), n, options, TreeChunks(source, root, options))
    {
      UnopenedNodeIsWhole(source, root, options, n, level);
    }
  }

  lemma NodeInOneSegmentExactly(source: Bytes, root: Node, options: Options, n: Node)
    requires Utf8(source) && !Blank(source) && Nested(root, source) && Below(root, n) && n.start < n.end
    ensures InOneSegment(TreeSegments(source, root, options), n, options, TreeChunks(source, root, options))
      <==> !CutThrough(root, source, options, 0, n)
  {
    hide InOneSegment, TreeCuts, TreeChunks, CutThrough, Below, Utf8;
    BelowIsWithin(root, n, source);
    NodeIsCutExactly(source, root, options, n);
    if x :| x in TreeCuts(source, root, options) && Inside(x, n) {
      CutIsInNoSegment(source, root, options, n, x);
    } else {
      UncutIsInOneSegment(source, root, options, n);
    }
  }

  lemma UnopenedNodeIsWhole(source: Bytes, root: Node, options: Options, child: Node, level: nat)
    requires Utf8(source) && !Blank(source) && Nested(root, source)
    requires Visits(root, options, 0, child, level) && !Opened(child, options, level) && child.start < child.end
    ensures InOneSegment(TreeSegments(source, root, options), child, options, TreeChunks(source, root, options))
  {
    hide CollectFrom, InOneSegment, Opened, Utf8, Visits;
    VisitedIsInRange(root, source, options, 0, child, level);
    forall x | x in TreeCuts(source, root, options) ensures !Inside(x, child) {
      if x != 0 {
        CutsRespectUnopenedNodes(root, 0, source, options, 0, map[], x, child, level);
      }
    }
    UncutIsInOneSegment(source, root, options, child);
  }

  // ----- A function cut in half -----

  lemma {:induction false} StandsAloneIsAlone(groups: seq<seq<Segment>>, options: Options, segment: Segment)
    returns (g: nat)
    requires AllTidy(groups, options) && segment in Flatten(groups) && StandsAlone(segment, options)
    ensures g < |groups| && groups[g] == [segment]
    decreases |groups|
  {
    hide StandsAlone;
    var n := |groups| - 1;
    if segment in groups[n] {
      assert Tidy(groups[n], options);
      g := n;
    } else {
      g := StandsAloneIsAlone(groups[..n], options, segment);
    }
  }

  lemma {:induction false} GroupStartsAChunk(
      source: Bytes, groups: seq<seq<Segment>>, hi: nat, options: Options, g: nat) returns (i: nat)
    requires Utf8(source) && Spans(source, groups, 0, hi) && hi <= |source| && g < |groups| && groups[g] != []
    ensures i <= |EmittedAll(source, groups, options)|
    ensures |Joined(EmittedAll(source, groups, options)[..i])| == groups[g][0].start
    decreases |groups|
  {
    hide Emitted, Joined, Utf8, Covers;
    var n := |groups| - 1;
    var mid, before := groups[n][0].start, EmittedAll(source, groups[..n], options);
    SpansEndBefore(source, groups, hi);
    if g == n {
      EmittedAllCovers(source, groups[..n], 0, mid, options);
      JoinedLength(before, source, 0, mid);
      i := |before|;
    } else {
      i := GroupStartsAChunk(source, groups[..n], mid, options, g);
    }
    assert EmittedAll(source, groups, options)[..i] == before[..i];
    assert g == n ==> before[..i] == before;
  }

  lemma SpansEndBefore(source: Bytes, groups: seq<seq<Segment>>, hi: nat)
    requires Spans(source, groups, 0, hi) && groups != []
    ensures var last := groups[|groups| - 1];
      last != [] && last[0].start <= hi && Spans(source, groups[..|groups| - 1], 0, last[0].start)
  {
    var last := groups[|groups| - 1];
    ContiguousTotal(last, last[0].start, hi);
  }

  lemma {:induction false} JoinedGrows(chunks: seq<Chunk>, i: nat, k: nat)
    requires i <= k <= |chunks|
    ensures |Joined(chunks[..i])| <= |Joined(chunks[..k])|
    ensures k < |chunks| ==> |Joined(chunks[..k + 1])| == |Joined(chunks[..k])| + |chunks[k].text|
    decreases k
  {
    if k < |chunks| {
      assert chunks[..k + 1][..k] == chunks[..k];
    }
    if i < k {
      JoinedGrows(chunks, i, k - 1);
    }
  }

  /** No chunk reaches across the place where another one starts. */
  lemma BoundarySplits(chunks: seq<Chunk>, i: nat, lo: nat, hi: nat)
    requires i <= |chunks| && lo < |Joined(chunks[..i])| < hi
    ensures !HeldWhole(chunks, lo, hi)
  {
    forall k | 0 <= k < |chunks|
      ensures !(|Joined(chunks[..k])| <= lo && hi <= |Joined(chunks[..k])| + |chunks[k].text|)
    {
      if i <= k {
        JoinedGrows(chunks, i, k);
      } else {
        JoinedGrows(chunks, k, k);
        JoinedGrows(chunks, k + 1, i);
      }
    }
  }

  /** A segment too large to share a chunk starts one, so no chunk holds what it cuts apart. */
  lemma LargeSegmentSplits(source: Bytes, segments: seq<Segment>, options: Options, segment: Segment, lo: nat, hi: nat)
    requires Utf8(source) && source != []
    requires Contiguous(segments, 0, |source|) && OnBoundaries(source, segments)
    requires segment in segments && StandsAlone(segment, options) && lo < segment.start < hi
    ensures !HeldWhole(Assembled(source, segments, options), lo, hi)
  {
    hide StandsAlone, Assembled, EmittedAll, HeldWhole, Contiguous, Spans, Utf8, Joined;
    var groups := Closed(PackAll(segments, options));
    AssembledIsEmittedAll(source, segments, options);
    ClosedSpans(source, segments, options);
    var g := StandsAloneIsAlone(groups, options, segment);
    var i := GroupStartsAChunk(source, groups, |source|, options, g);
    BoundarySplits(EmittedAll(source, groups, options), i, lo, hi);
  }

  lemma ClosedSpans(source: Bytes, segments: seq<Segment>, options: Options)
    requires source != [] && Contiguous(segments, 0, |source|) && OnBoundaries(source, segments)
    ensures Spans(source, Closed(PackAll(segments, options)), 0, |source|)
  {
    PackAllSpans(segments, source, 0, |source|, options);
  }

  /** The segment that starts at a cut ends at the next one, or with the file. */
  lemma SegmentAtCut(cuts: Cuts, len: nat, x: nat) returns (k: nat)
    requires 0 in cuts && x in cuts && x < len
    requires forall y :: x < y < len ==> y !in cuts
    ensures k < |Segments(cuts, len)| && Segments(cuts, len)[k].start == x && Segments(cuts, len)[k].end == len
  {
    hide Segments, Contiguous;
    var segments := Segments(cuts, len);
    SegmentsTileTheFile(cuts, len);
    var j := CutStartsASegment(cuts, len, x);
    k := Locate(segments, 0, len, x);
    NoSegmentStartsInside(segments, 0, len, k, j);
    if segments[k].end != len {
      assert false;
    }
  }

  /** `export function f() { ... const x ... }`, as a parser sees forty bytes of it. */
  const INNER := Node("lexical_declaration", 25, 35, [], None, None, None, None)
  const BLOCK := Node("statement_block", 20, 40, [INNER], None, None, None, None)
  const FUNCTION := Node("function_declaration", 7, 40, [BLOCK], Some(0), None, None, None)
  const EXPORT := Node("export_statement", 0, 40, [FUNCTION], None, Some(0), None, None)
  const PROGRAM := Node("program", 0, 40, [EXPORT], None, None, None, None)

  lemma ProgramIsNested(source: Bytes)
    requires |source| == 40 && forall k :: 0 <= k < 40 ==> source[k] < 0x80
    ensures Nested(PROGRAM, source) && Nested(BLOCK, source)
    ensures Below(PROGRAM, FUNCTION)
  {
    assert Nested(INNER, source);
    assert Nested(BLOCK, source);
    assert Nested(FUNCTION, source);
    assert Nested(EXPORT, source);
    assert PROGRAM.children[0] == EXPORT && EXPORT.children[0] == FUNCTION;
    assert Below(EXPORT, FUNCTION);
  }

  lemma OnlyTheExportIsOpened(options: Options)
    requires options.targetChars == 10
    ensures Opened(EXPORT, options, 0) && BodyOf(EXPORT) == Some(BLOCK)
    ensures IsDefinition(INNER.kind) && !Opened(INNER, options, 1)
    ensures FUNCTION.kind !in CONTAINERS
  {
    assert EXTRA_DEFINITIONS[0] == EXPORT.kind;
    assert CONTAINERS[7] == EXPORT.kind;
    assert EndsWith(INNER.kind, "_declaration");
    assert BodyOf(FUNCTION) == Some(BLOCK);
    assert BodyOf(INNER) == None;
  }

  lemma TheOnlyInnerCut(source: Bytes, options: Options)
    requires options.targetChars == 10
    requires |source| == 40 && forall k :: 0 <= k < 40 ==> source[k] < 0x80
    ensures 25 in TreeCuts(source, PROGRAM, options)
    ensures forall x :: 25 < x < 40 ==> x !in TreeCuts(source, PROGRAM, options)
  {
    hide CollectFrom, Opened, IsDefinition, BodyOf, Nested, Contains;
    OnlyTheExportIsOpened(options);
    ProgramIsNested(source);
    assert IsDefinition(EXPORT.kind) by {
      OpenedIsADefinition(EXPORT, options);
    }
    var before := WalkReaches(PROGRAM, 0, 0, source, options, 0, map[]);
    var inside := WalkReaches(BLOCK, 0, 0, source, options, 1, before);
    assert LeadingStart(BLOCK.children, 0, source) == 25 && LeadingStart(PROGRAM.children, 0, source) == 0;
    assert !CutsBetween(BLOCK, source, options, 1, 25, 40);
    assert !CutsBetween(PROGRAM, source, options, 0, 25, 40);
    forall x | 25 < x < 40 ensures x !in TreeCuts(source, PROGRAM, options) {
      if x in TreeCuts(source, PROGRAM, options) {
        NewCutsAreBetween(PROGRAM, source, options, 0, map[], x, 25, 40);
      }
    }
  }

  lemma OpenedIsADefinition(child: Node, options: Options)
    requires Opened(child, options, 0)
    ensures IsDefinition(child.kind)
  {
  }

  /**
   * An exported function longer than the target, with a declaration in its body. It is no container
   * and yet no chunk holds it: the export is opened, and the walk goes on in the function's own body.
   */
  lemma ExportedFunctionIsCut(source: Bytes, options: Options)
    requires Utf8(source) && !Blank(source) && |source| == 40 && forall k :: 0 <= k < 40 ==> source[k] < 0x80
    requires options.targetChars == 10
    ensures Nested(PROGRAM, source) && Below(PROGRAM, FUNCTION) && FUNCTION.kind !in CONTAINERS
    ensures CutThrough(PROGRAM, source, options, 0, FUNCTION)
    ensures !HeldWhole(TreeChunks(source, PROGRAM, options), FUNCTION.start, FUNCTION.end)
  {
    hide Utf8, Blank, TreeCuts, CutThrough, Nested, Below, HeldWhole, Assembled, Segments, Contiguous;
    ProgramIsNested(source);
    OnlyTheExportIsOpened(options);
    TheOnlyInnerCut(source, options);
    assert Inside(25, FUNCTION);
    NodeIsCutExactly(source, PROGRAM, options, FUNCTION);
    TreeCutsAreWhole(source, PROGRAM, options);
    ZeroIsACut(source, PROGRAM, options);
    var k := SegmentAtCut(TreeCuts(source, PROGRAM, options), |source|, 25);
    var segments := TreeSegments(source, PROGRAM, options);
    LargeSegmentSplits(source, segments, options, segments[k], FUNCTION.start, FUNCTION.end);
  }

  lemma ZeroIsACut(source: Bytes, root: Node, options: Options)
    ensures 0 in TreeCuts(source, root, options)
  {
  }
}
