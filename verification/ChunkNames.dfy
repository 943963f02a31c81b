/**
 * Which segments share a chunk, and what each chunk is called: the grouping is the only one that
 * keeps large segments alone, stays within the target and starts a group only when it has to.
 */
module ChunkNames {
  import opened Prelude
  import opened Text
  import opened Chunks
  import opened LineSplitter
  import opened TreeSplitter
  import opened WholeNodes

  // ----- The only grouping -----

  /** Over a quarter of the target. */
  predicate Large(segment: Segment, options: Options) {
    4 * (segment.end - segment.start) > options.targetChars
  }

  function Width(group: seq<Segment>): int {
    if group == [] then 0 else group[|group| - 1].end - group[0].start
  }

  /** Either side of the seam stands alone, or both together pass the target. */
  predicate HasTo(group: seq<Segment>, segment: Segment, options: Options)
    requires group != []
  {
    || Large(segment, options)
    || Large(group[|group| - 1], options)
    || segment.end - group[0].start > options.targetChars
  }

  /** Segments that share a group are none of them large, and together within the target. */
  predicate Fits(group: seq<Segment>, options: Options) {
    |group| > 1 ==> Width(group) <= options.targetChars && forall k :: 0 <= k < |group| ==> !Large(group[k], options)
  }

  /** `segments` in order, in groups that fit, none started unless it has to be. */
  predicate Grouping(groups: seq<seq<Segment>>, segments: seq<Segment>, options: Options) {
    && Flatten(groups) == segments
    && (forall k :: 0 <= k < |groups| ==> groups[k] != [] && Fits(groups[k], options))
    && (forall k :: 0 < k < |groups| ==> HasTo(groups[k - 1], groups[k][0], options))
  }

  /** End to end, none of them empty. */
  predicate Chain(segments: seq<Segment>) {
    && (forall k :: 0 <= k < |segments| ==> segments[k].start < segments[k].end)
    && (forall k :: 0 < k < |segments| ==> segments[k - 1].end == segments[k].start)
  }

  lemma {:induction false} ContiguousIsAChain(segments: seq<Segment>, lo: nat, hi: nat)
    requires Contiguous(segments, lo, hi)
    ensures Chain(segments)
    ensures segments != [] ==> segments[|segments| - 1].end == hi
    decreases |segments|
  {
    if segments != [] {
      ContiguousIsAChain(segments[..|segments| - 1], lo, segments[|segments| - 1].start);
    }
  }

  lemma {:induction false} TotalIsWidth(group: seq<Segment>)
    requires Chain(group)
    ensures Total(group) == Width(group)
    ensures forall k :: 0 <= k < |group| ==> group[0].start <= group[k].start
    decreases |group|
  {
    if group != [] {
      TotalIsWidth(group[..|group| - 1]);
    }
  }

  lemma ChainOfTail(before: seq<Segment>, group: seq<Segment>)
    requires Chain(before + group)
    ensures Chain(before) && Chain(group)
  {
    var all, m := before + group, |before|;
    assert forall k :: 0 <= k < |before| ==> all[k] == before[k];
    assert forall k :: 0 <= k < |group| ==> all[m + k] == group[k];
    forall k | 0 < k < |before| ensures before[k - 1].end == before[k].start {
      assert all[k - 1].end == all[k].start;
    }
    forall k | 0 < k < |group| ensures group[k - 1].end == group[k].start {
      assert all[m + k - 1].end == all[m + k].start;
    }
  }

  /** Where the rules put one more segment. */
  function Extended(before: seq<seq<Segment>>, segment: Segment, options: Options): seq<seq<Segment>> {
    if before == [] || before[|before| - 1] == [] || HasTo(before[|before| - 1], segment, options)
    then before + [[segment]]
    else before[..|before| - 1] + [before[|before| - 1] + [segment]]
  }

  lemma PackExtends(p: Packing, segments: seq<Segment>, segment: Segment, options: Options)
    requires Packed(p, segments, options) && Chain(segments + [segment])
    ensures Closed(Pack(p, segment, options)) == Extended(Closed(p), segment, options)
  {
    hide Tidy, Flatten, Total;
    var all := segments + [segment];
    if p.group != [] {
      var last := |p.group| - 1;
      assert all == Flatten(p.groups) + (p.group + [segment]);
      ChainOfTail(Flatten(p.groups), p.group + [segment]);
      assert (p.group + [segment])[last] == p.group[last] && (p.group + [segment])[last + 1] == segment;
      ChainOfTail(p.group, [segment]);
      TotalIsWidth(p.group);
      assert Closed(p)[..|p.groups|] == p.groups;
    } else {
      assert all == [segment];
      assert [] + [segment] == [segment];
    }
  }

  lemma ExtendedIsGrouping(
      before: seq<seq<Segment>>, segments: seq<Segment>, segment: Segment, options: Options)
    requires Grouping(before, segments, options)
    ensures Grouping(Extended(before, segment, options), segments + [segment], options)
  {
    hide Large;
    var m := |before| - 1;
    var all := Extended(before, segment, options);
    if before == [] || HasTo(before[m], segment, options) {
      FlattenMore(before, [segment]);
    } else {
      var last := before[m];
      FlattenMore(before[..m], last);
      FlattenMore(before[..m], last + [segment]);
      assert before == before[..m] + [last];
      assert Flatten(before[..m]) + (last + [segment]) == Flatten(before[..m]) + last + [segment];
      FitsMore(last, segment, options);
      forall k | 0 <= k < |all| ensures all[k] != [] && Fits(all[k], options) {
        assert k < m ==> all[k] == before[k];
      }
      forall k | 0 < k < |all| ensures HasTo(all[k - 1], all[k][0], options) {
        assert all[k - 1] == before[k - 1] && all[k][0] == before[k][0];
      }
    }
  }

  lemma FitsMore(group: seq<Segment>, segment: Segment, options: Options)
    requires group != [] && Fits(group, options) && !HasTo(group, segment, options)
    ensures Fits(group + [segment], options)
  {
  }

  /** What the packing loop makes is such a grouping. */
  lemma {:induction false} SegmentsAreGrouped(segments: seq<Segment>, options: Options)
    requires Chain(segments)
    ensures Grouping(Closed(PackAll(segments, options)), segments, options)
    decreases |segments|
  {
    hide *;
    if segments == [] {
      NothingIsGrouped(options);
    } else {
      var n := |segments| - 1;
      PackOneMore(segments, options);
      ChainOfTail(segments[..n], [segments[n]]);
      SegmentsAreGrouped(segments[..n], options);
      PackAllIsTidy(segments[..n], options);
      PackExtends(PackAll(segments[..n], options), segments[..n], segments[n], options);
      ExtendedIsGrouping(Closed(PackAll(segments[..n], options)), segments[..n], segments[n], options);
    }
  }

  lemma NothingIsGrouped(options: Options)
    ensures Closed(PackAll([], options)) == [] && Grouping([], [], options)
  {
  }

  /** Taking the last segment back leaves a grouping of the others, and the rules say where it had gone. */
  lemma TakeBack(groups: seq<seq<Segment>>, segments: seq<Segment>, options: Options)
    returns (before: seq<seq<Segment>>)
    requires Grouping(groups, segments, options) && Chain(segments) && segments != []
    ensures var n := |segments| - 1;
      && Grouping(before, segments[..n], options)
      && groups == Extended(before, segments[n], options)
  {
    hide Large;
    var m, n := |groups| - 1, |segments| - 1;
    var last := groups[m];
    var i := |last| - 1;
    assert groups == groups[..m] + [last];
    FlattenMore(groups[..m], last);
    assert segments[n] == last[i];
    if i == 0 {
      before := groups[..m];
      assert last == [segments[n]];
      assert segments[..n] == Flatten(before);
    } else {
      var kept := last[..i];
      before := groups[..m] + [kept];
      FlattenMore(groups[..m], kept);
      assert segments[..n] == Flatten(groups[..m]) + kept;
      assert last == kept + [segments[n]];
      ChainOfTail(Flatten(groups[..m]), last);
      FitsLess(last, options);
      assert before[..m] == groups[..m];
      forall k | 0 <= k < |before| ensures before[k] != [] && Fits(before[k], options) {
        assert k < m ==> before[k] == groups[k];
      }
      forall k | 0 < k < |before| ensures HasTo(before[k - 1], before[k][0], options) {
        assert before[k - 1] == groups[k - 1] && before[k][0] == groups[k][0];
      }
    }
  }

  lemma FitsLess(group: seq<Segment>, options: Options)
    requires Fits(group, options) && Chain(group) && |group| > 1
    ensures var less := group[..|group| - 1];
      Fits(less, options) && !HasTo(less, group[|group| - 1], options)
  {
    hide Large;
    var i := |group| - 1;
    assert group[i - 1].end == group[i].start && group[i].start < group[i].end;
  }

  /** There is only one way to group segments like that. */
  lemma {:induction false} GroupingIsUnique(
      a: seq<seq<Segment>>, b: seq<seq<Segment>>, segments: seq<Segment>, options: Options)
    requires Grouping(a, segments, options) && Grouping(b, segments, options) && Chain(segments)
    ensures a == b
    decreases |segments|
  {
    hide Grouping, Extended, Chain;
    if segments == [] {
      GroupsOfNothing(a, options);
      GroupsOfNothing(b, options);
    } else {
      var n := |segments| - 1;
      assert segments == segments[..n] + segments[n..];
      ChainOfTail(segments[..n], segments[n..]);
      var c := TakeBack(a, segments, options);
      var d := TakeBack(b, segments, options);
      GroupingIsUnique(c, d, segments[..n], options);
    }
  }

  lemma GroupsOfNothing(groups: seq<seq<Segment>>, options: Options)
    requires Grouping(groups, [], options)
    ensures groups == []
  {
    if groups != [] {
      assert false;
    }
  }

  // ----- What a group becomes -----

  /** The label of the one segment that holds more than half of the group, or none when none does. */
  predicate CalledAfter(group: seq<Segment>, symbol: Option<string>) {
    && (forall k :: 0 <= k < |group| && 2 * (group[k].end - group[k].start) > Width(group) ==>
          symbol == group[k].symbol)
    && ((forall k :: 0 <= k < |group| ==> 2 * (group[k].end - group[k].start) <= Width(group)) ==> symbol == None)
  }

  /**
   * A group within both ceilings is one parsed chunk, called after the segment that dominates it; a
   * longer one is what the line splitter makes of it, told the line the group starts on.
   */
  predicate Says(source: Bytes, group: seq<Segment>, options: Options, chunks: seq<Chunk>) {
    && group != [] && group[0].start < group[|group| - 1].end <= |source|
    && var text := source[group[0].start..group[|group| - 1].end];
      if |text| <= options.maxChars && |text| <= options.maxEmbedBytes then
        && |chunks| == 1 && chunks[0].text == text && chunks[0].splitter == Parsed
        && CalledAfter(group, chunks[0].symbol)
      else
        chunks == LineChunks(text, 1 + Newlines(source[..group[0].start]), options)
  }

  function Concat(parts: seq<seq<Chunk>>): seq<Chunk> {
    if parts == [] then [] else Concat(parts[..|parts| - 1]) + parts[|parts| - 1]
  }

  lemma DominantNames(group: seq<Segment>, lo: nat, hi: nat)
    requires group != [] && Contiguous(group, lo, hi)
    ensures CalledAfter(group, NameOf(group))
  {
    hide Longest, NameOf;
    ContiguousTotal(group, lo, hi);
    NamedAfterTheDominant(group);
  }

  lemma GroupSays(source: Bytes, group: seq<Segment>, lo: nat, hi: nat, options: Options)
    requires group != [] && Contiguous(group, lo, hi) && lo < hi <= |source|
    requires Boundary(source, lo) && Boundary(source, hi)
    ensures Says(source, group, options, Emitted(source, group, options))
  {
    hide LineChunks, Emitted, NameOf, CalledAfter;
    ContiguousTotal(group, lo, hi);
    EmittedIs(source, group, lo, hi, options);
    DominantNames(group, lo, hi);
  }

  lemma {:induction false} GroupsSay(source: Bytes, groups: seq<seq<Segment>>, lo: nat, hi: nat, options: Options)
    returns (parts: seq<seq<Chunk>>)
    requires Spans(source, groups, lo, hi) && hi <= |source|
    ensures |parts| == |groups| && Concat(parts) == EmittedAll(source, groups, options)
    ensures forall k :: 0 <= k < |groups| ==> Says(source, groups[k], options, parts[k])
    decreases |groups|
  {
    hide Says, Emitted, Contiguous;
    if groups == [] {
      parts := [];
    } else {
      var n := |groups| - 1;
      var before := GroupsSay(source, groups[..n], lo, groups[n][0].start, options);
      GroupSays(source, groups[n], groups[n][0].start, hi, options);
      parts := before + [Emitted(source, groups[n], options)];
      assert parts[..n] == before;
      forall k | 0 <= k < |groups| ensures Says(source, groups[k], options, parts[k]) {
        assert k < n ==> groups[..n][k] == groups[k];
      }
    }
  }

  /**
   * The chunks of a parsed file, group by group, for the one grouping its segments have: a parsed
   * chunk called after the segment that dominates it, or the line splitter's unnamed ones.
   */
  lemma GroupsBecomeChunks(source: Bytes, segments: seq<Segment>, options: Options)
    returns (groups: seq<seq<Segment>>, parts: seq<seq<Chunk>>)
    requires source != [] && Contiguous(segments, 0, |source|) && OnBoundaries(source, segments)
    ensures Grouping(groups, segments, options)
    ensures |parts| == |groups| && Concat(parts) == Assembled(source, segments, options)
    ensures forall k :: 0 <= k < |groups| ==> Says(source, groups[k], options, parts[k])
  {
    hide Says, Emitted, Contiguous, Grouping, PackAll, Assembled;
    ContiguousIsAChain(segments, 0, |source|);
    SegmentsAreGrouped(segments, options);
    groups := Closed(PackAll(segments, options));
    ClosedSpans(source, segments, options);
    AssembledIsEmittedAll(source, segments, options);
    parts := GroupsSay(source, groups, 0, |source|, options);
  }
}
