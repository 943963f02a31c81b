/** The symbol-aware splitter past its cut points: segments, groups of segments, and chunks. */
module TreeSplitter {
  import opened Prelude
  import opened Text
  import opened Chunks
  import opened LineIndex
  import opened LineSplitter

  type Cuts = map<nat, Option<string>>

  /** What lies from one cut to the next, or to the end, with the symbol recorded at the cut. */
  datatype Segment = Segment(start: nat, end: nat, symbol: Option<string>) {
    function Len(): nat {
      SubFloor(end, start)
    }
  }

  function SubFloor(a: nat, b: nat): nat {
    if a < b then 0 else a - b
  }

  /** The cut offsets in `from..len`, ascending, as an ordered map iterates its keys. */
  function Offsets(cuts: Cuts, from: nat, len: nat): seq<nat>
    decreases len - from
  {
    if from >= len then []
    else (if from in cuts then [from] else []) + Offsets(cuts, from + 1, len)
  }

  function Between(offsets: seq<nat>, cuts: Cuts, len: nat): seq<Segment>
    requires forall k :: 0 <= k < |offsets| ==> offsets[k] in cuts
    decreases |offsets|
  {
    if offsets == [] then []
    else
      var end := if |offsets| > 1 then offsets[1] else len;
      [Segment(offsets[0], end, cuts[offsets[0]])] + Between(offsets[1..], cuts, len)
  }

  lemma {:induction false} OffsetsAreCuts(cuts: Cuts, from: nat, len: nat)
    ensures forall k :: 0 <= k < |Offsets(cuts, from, len)| ==>
      Offsets(cuts, from, len)[k] in cuts && from <= Offsets(cuts, from, len)[k] < len
    ensures Ascending(Offsets(cuts, from, len))
    ensures from in cuts && from < len ==> Offsets(cuts, from, len) != [] && Offsets(cuts, from, len)[0] == from
    decreases len - from
  {
    if from < len {
      OffsetsAreCuts(cuts, from + 1, len);
    }
  }

  function Segments(cuts: Cuts, len: nat): seq<Segment> {
    OffsetsAreCuts(cuts, 0, len);
    Between(Offsets(cuts, 0, len), cuts, len)
  }

  /** End to end from `lo` to `hi`, none of them empty. */
  predicate Contiguous(segments: seq<Segment>, lo: nat, hi: nat)
    decreases |segments|
  {
    if segments == [] then lo == hi
    else
      var last := segments[|segments| - 1];
      lo <= last.start < last.end == hi && Contiguous(segments[..|segments| - 1], lo, last.start)
  }

  // ----- Packing segments into groups -----

  datatype Packing = Packing(groups: seq<seq<Segment>>, group: seq<Segment>, size: nat, afterAlone: bool)

  predicate StandsAlone(segment: Segment, options: Options) {
    segment.Len() * 4 > options.targetChars
  }

  function Pack(p: Packing, segment: Segment, options: Options): Packing {
    var alone := StandsAlone(segment, options);
    var full := p.size + segment.Len() > options.targetChars;
    if p.group != [] && (alone || p.afterAlone || full)
    then Packing(p.groups + [p.group], [segment], segment.Len(), alone)
    else p.(group := p.group + [segment], size := p.size + segment.Len(), afterAlone := alone)
  }

  function PackAll(segments: seq<Segment>, options: Options): Packing
    decreases |segments|
  {
    if segments == [] then Packing([], [], 0, false)
    else Pack(PackAll(segments[..|segments| - 1], options), segments[|segments| - 1], options)
  }

  function Total(group: seq<Segment>): nat {
    if group == [] then 0 else Total(group[..|group| - 1]) + group[|group| - 1].Len()
  }

  /** The longest segment of a group, the later one on a tie. */
  function Longest(group: seq<Segment>): Segment
    requires group != []
    decreases |group|
  {
    var last := group[|group| - 1];
    if |group| == 1 || last.Len() >= Longest(group[..|group| - 1]).Len() then last
    else Longest(group[..|group| - 1])
  }

  function NameOf(group: seq<Segment>): Option<string>
    requires group != []
  {
    if Longest(group).Len() * 2 > Total(group) then Longest(group).symbol else None
  }

  /** `source.get(start..end)`: nothing when the range is not one of whole characters. */
  predicate Gettable(source: Bytes, start: nat, end: nat) {
    start <= end <= |source| && Boundary(source, start) && Boundary(source, end)
  }

  function Emitted(source: Bytes, group: seq<Segment>, options: Options): seq<Chunk> {
    if group == [] then []
    else
      var start, end := group[0].start, group[|group| - 1].end;
      if !Gettable(source, start, end) || start == end then []
      else
        var text, line := source[start..end], 1 + Newlines(source[..start]);
        if |text| > options.SplitCeiling() then LineChunks(text, line, options)
        else [Chunk(line, 1 + Newlines(source[..end - 1]), text, NameOf(group), Parsed)]
  }

  function EmittedAll(source: Bytes, groups: seq<seq<Segment>>, options: Options): seq<Chunk>
    decreases |groups|
  {
    if groups == [] then []
    else EmittedAll(source, groups[..|groups| - 1], options) + Emitted(source, groups[|groups| - 1], options)
  }

  function Assembled(source: Bytes, segments: seq<Segment>, options: Options): seq<Chunk> {
    var p := PackAll(segments, options);
    EmittedAll(source, p.groups, options) + Emitted(source, p.group, options)
  }

  method LongestOf(group: seq<Segment>) returns (longest: Segment, total: nat)
    requires group != []
    ensures longest == Longest(group) && total == Total(group)
  {
    longest, total := group[0], group[0].Len();
    assert group[..1][..0] == [] && group[..1][0] == group[0];
    for k := 1 to |group|
      invariant longest == Longest(group[..k]) && total == Total(group[..k])
    {
      assert group[..k + 1][..k] == group[..k];
      if group[k].Len() >= longest.Len() {
        longest := group[k];
      }
      total := total + group[k].Len();
    }
    assert group[..|group|] == group;
  }

  method Emit(source: Bytes, starts: seq<nat>, group: seq<Segment>, options: Options, chunks: seq<Chunk>)
    returns (extended: seq<Chunk>)
    requires starts == LineStarts(source)
    ensures extended == chunks + Emitted(source, group, options)
  {
    extended := chunks;
    if group == [] {
      return;
    }
    var start, end := group[0].start, group[|group| - 1].end;
    if !Gettable(source, start, end) {
      return;
    }
    var text := source[start..end];
    if text == [] {
      return;
    }
    LineStartsAscend(source);
    LineLookupIsExact(source, start);
    LineLookupIsExact(source, end - 1);
    var startLine := LineOf(starts, start);
    if |text| > options.SplitCeiling() {
      var pieces := SplitPreservingWhitespace(text, startLine, options);
      return chunks + pieces;
    }
    var longest, total := LongestOf(group);
    var symbol := if longest.Len() * 2 > total then longest.symbol else None;
    var endLine := LineOf(starts, end - 1);
    return chunks + [Chunk(startLine, endLine, text, symbol, Parsed)];
  }

  lemma EmittedNext(source: Bytes, groups: seq<seq<Segment>>, group: seq<Segment>, options: Options)
    ensures EmittedAll(source, groups + [group], options)
      == EmittedAll(source, groups, options) + Emitted(source, group, options)
  {
    hide Emitted;
    assert (groups + [group])[..|groups|] == groups;
  }

  method Assemble(source: Bytes, segments: seq<Segment>, options: Options) returns (chunks: seq<Chunk>)
    ensures chunks == Assembled(source, segments, options)
  {
    hide Emitted, EmittedAll, PackAll;
    var starts := LineStarts(source);
    chunks := [];
    var group: seq<Segment>, size: nat, previousStoodAlone := [], 0, false;
    ghost var groups: seq<seq<Segment>> := [];
    NothingPacked(source, options);
    assert segments[..0] == [];
    for k := 0 to |segments|
      invariant PackAll(segments[..k], options) == Packing(groups, group, size, previousStoodAlone)
      invariant chunks == EmittedAll(source, groups, options)
    {
      var segment := segments[k];
      var standsAlone := segment.Len() * 4 > options.targetChars;
      var full := size + segment.Len() > options.targetChars;
      assert segments[..k + 1][..k] == segments[..k];
      PackOneMore(segments[..k + 1], options);
      if group != [] && (standsAlone || previousStoodAlone || full) {
        chunks := Emit(source, starts, group, options, chunks);
        EmittedNext(source, groups, group, options);
        groups := groups + [group];
        group, size := [], 0;
        assert [] + [segment] == [segment];
      }
      group := group + [segment];
      size := size + segment.Len();
      previousStoodAlone := standsAlone;
    }
    assert segments[..|segments|] == segments;
    chunks := Emit(source, starts, group, options, chunks);
  }

  lemma NothingPacked(source: Bytes, options: Options)
    ensures PackAll([], options) == Packing([], [], 0, false) && EmittedAll(source, [], options) == []
  {
  }

  // ----- Segments tile the file -----

  lemma {:induction false} ContiguousPrepend(first: Segment, rest: seq<Segment>, hi: nat)
    requires first.start < first.end && Contiguous(rest, first.end, hi)
    ensures Contiguous([first] + rest, first.start, hi)
    decreases |rest|
  {
    var all := [first] + rest;
    if rest == [] {
      assert all[..0] == [];
    } else {
      var n := |rest| - 1;
      ContiguousPrepend(first, rest[..n], rest[n].start);
      assert all[..|all| - 1] == [first] + rest[..n];
    }
  }

  lemma {:induction false} BetweenIsContiguous(offsets: seq<nat>, cuts: Cuts, len: nat)
    requires offsets != [] && Ascending(offsets)
    requires forall k :: 0 <= k < |offsets| ==> offsets[k] in cuts && offsets[k] < len
    ensures Contiguous(Between(offsets, cuts, len), offsets[0], len)
    decreases |offsets|
  {
    var rest := Between(offsets[1..], cuts, len);
    var first := Between(offsets, cuts, len)[0];
    if |offsets| == 1 {
      assert rest == [];
    } else {
      BetweenIsContiguous(offsets[1..], cuts, len);
    }
    ContiguousPrepend(first, rest, len);
  }

  lemma {:induction false} BetweenStartsAtCuts(offsets: seq<nat>, cuts: Cuts, len: nat)
    requires forall k :: 0 <= k < |offsets| ==> offsets[k] in cuts
    ensures |Between(offsets, cuts, len)| == |offsets|
    ensures forall k :: 0 <= k < |offsets| ==>
      Between(offsets, cuts, len)[k].start == offsets[k] && Between(offsets, cuts, len)[k].symbol == cuts[offsets[k]]
    decreases |offsets|
  {
    if offsets != [] {
      BetweenStartsAtCuts(offsets[1..], cuts, len);
    }
  }

  /** With a cut at the head of a nonempty file, the segments tile it and each starts at a cut. */
  lemma SegmentsTileTheFile(cuts: Cuts, len: nat)
    requires 0 in cuts && 0 < len
    ensures Contiguous(Segments(cuts, len), 0, len)
    ensures forall k :: 0 <= k < |Segments(cuts, len)| ==>
      var segment := Segments(cuts, len)[k];
      segment.start in cuts && segment.start < len && segment.symbol == cuts[segment.start]
  {
    OffsetsAreCuts(cuts, 0, len);
    BetweenIsContiguous(Offsets(cuts, 0, len), cuts, len);
    BetweenStartsAtCuts(Offsets(cuts, 0, len), cuts, len);
  }

  // ----- Groups: contiguous, and either a single segment or small ones under the target -----

  predicate OnBoundaries(source: Bytes, segments: seq<Segment>) {
    forall k :: 0 <= k < |segments| ==> Boundary(source, segments[k].start)
  }

  predicate Spans(source: Bytes, groups: seq<seq<Segment>>, lo: nat, hi: nat)
    decreases |groups|
  {
    if groups == [] then lo == hi
    else
      var last := groups[|groups| - 1];
      && last != [] && lo <= last[0].start < hi
      && Boundary(source, last[0].start) && Boundary(source, hi)
      && Contiguous(last, last[0].start, hi)
      && Spans(source, groups[..|groups| - 1], lo, last[0].start)
  }

  /** Segments share a group only while they are all small and together within the target. */
  predicate Tidy(group: seq<Segment>, options: Options) {
    |group| >= 2 ==>
      && Total(group) <= options.targetChars
      && forall k :: 0 <= k < |group| ==> !StandsAlone(group[k], options)
  }

  predicate AllTidy(groups: seq<seq<Segment>>, options: Options) {
    forall k :: 0 <= k < |groups| ==> Tidy(groups[k], options)
  }

  function Flatten(groups: seq<seq<Segment>>): seq<Segment>
    decreases |groups|
  {
    if groups == [] then [] else Flatten(groups[..|groups| - 1]) + groups[|groups| - 1]
  }

  predicate Packed(p: Packing, segments: seq<Segment>, options: Options) {
    && Flatten(p.groups) + p.group == segments
    && p.size == Total(p.group)
    && AllTidy(p.groups, options) && Tidy(p.group, options)
    && (p.group == [] ==> segments == [] && p.groups == [])
    && (p.group != [] ==> p.afterAlone == StandsAlone(p.group[|p.group| - 1], options))
  }

  lemma TotalOfMore(group: seq<Segment>, segment: Segment)
    ensures Total(group + [segment]) == Total(group) + segment.Len()
    ensures Total([segment]) == segment.Len()
  {
    assert (group + [segment])[..|group|] == group;
    assert [segment][..0] == [];
  }

  lemma FlattenMore(groups: seq<seq<Segment>>, group: seq<Segment>)
    ensures Flatten(groups + [group]) == Flatten(groups) + group
  {
    assert (groups + [group])[..|groups|] == groups;
  }

  /** A group that may take one more small segment stays tidy with it. */
  lemma TidyGrows(group: seq<Segment>, segment: Segment, options: Options)
    requires Tidy(group, options)
    requires group != [] ==>
      && !StandsAlone(group[|group| - 1], options) && !StandsAlone(segment, options)
      && Total(group) + segment.Len() <= options.targetChars
    ensures Tidy(group + [segment], options)
  {
    hide StandsAlone, Total;
    TotalOfMore(group, segment);
  }

  lemma PackStaysTidy(p: Packing, segments: seq<Segment>, segment: Segment, options: Options)
    requires Packed(p, segments, options)
    ensures Packed(Pack(p, segment, options), segments + [segment], options)
  {
    hide StandsAlone, Total, Flatten, Tidy;
    var alone := StandsAlone(segment, options);
    TotalOfMore(p.group, segment);
    if p.group != [] && (alone || p.afterAlone || p.size + segment.Len() > options.targetChars) {
      FlattenMore(p.groups, p.group);
      TidyAlone(segment, options);
      assert segments + [segment] == Flatten(p.groups + [p.group]) + [segment];
    } else {
      TidyGrows(p.group, segment, options);
      assert segments + [segment] == Flatten(p.groups) + (p.group + [segment]);
    }
  }

  lemma TidyAlone(segment: Segment, options: Options)
    ensures Tidy([segment], options)
  {
  }

  lemma PackNothing(options: Options)
    ensures Packed(PackAll([], options), [], options)
  {
  }

  lemma PackOneMore(segments: seq<Segment>, options: Options)
    requires segments != []
    ensures var n := |segments| - 1;
      && PackAll(segments, options) == Pack(PackAll(segments[..n], options), segments[n], options)
      && segments[..n] + [segments[n]] == segments
  {
    hide Pack;
  }

  lemma {:induction false} PackAllIsTidy(segments: seq<Segment>, options: Options)
    ensures Packed(PackAll(segments, options), segments, options)
    decreases |segments|
  {
    hide *;
    if segments == [] {
      PackNothing(options);
    } else {
      var n := |segments| - 1;
      PackAllIsTidy(segments[..n], options);
      PackStaysTidy(PackAll(segments[..n], options), segments[..n], segments[n], options);
      PackOneMore(segments, options);
    }
  }

  predicate PackedSpans(p: Packing, source: Bytes, lo: nat, hi: nat) {
    if p.group == [] then p.groups == [] && lo == hi
    else Spans(source, p.groups + [p.group], lo, hi)
  }

  lemma ContiguousAppend(segments: seq<Segment>, segment: Segment, lo: nat, hi: nat)
    requires Contiguous(segments, lo, segment.start) && lo <= segment.start < segment.end == hi
    ensures Contiguous(segments + [segment], lo, hi)
  {
    assert (segments + [segment])[..|segments|] == segments;
  }

  lemma PackKeepsSpans(p: Packing, source: Bytes, lo: nat, segment: Segment, options: Options)
    requires PackedSpans(p, source, lo, segment.start) && lo <= segment.start < segment.end
    requires Boundary(source, segment.start) && Boundary(source, segment.end)
    ensures PackedSpans(Pack(p, segment, options), source, lo, segment.end)
  {
    var q := Pack(p, segment, options);
    assert (q.groups + [q.group])[..|q.groups|] == q.groups;
    if p.group == [] {
      ContiguousAppend([], segment, segment.start, segment.end);
      assert [] + [segment] == [segment] && p.group + [segment] == [segment];
    } else {
      assert (p.groups + [p.group])[..|p.groups|] == p.groups;
      if q.groups == p.groups {
        ContiguousAppend(p.group, segment, p.group[0].start, segment.end);
      } else {
        ContiguousAppend([], segment, segment.start, segment.end);
        assert [] + [segment] == [segment];
      }
    }
  }

  lemma {:induction false} PackAllSpans(segments: seq<Segment>, source: Bytes, lo: nat, hi: nat, options: Options)
    requires Contiguous(segments, lo, hi) && OnBoundaries(source, segments) && Boundary(source, hi)
    ensures PackedSpans(PackAll(segments, options), source, lo, hi)
    decreases |segments|
  {
    if segments != [] {
      var n := |segments| - 1;
      PackAllSpans(segments[..n], source, lo, segments[n].start, options);
      PackKeepsSpans(PackAll(segments[..n], options), source, lo, segments[n], options);
    }
  }

  // ----- Names -----

  lemma {:induction false} LongestIsLongest(group: seq<Segment>, k: nat)
    requires k < |group|
    ensures group[k].Len() <= Longest(group).Len()
    ensures exists i :: 0 <= i < |group| && group[i] == Longest(group)
    ensures forall i :: 0 <= i < |group| && i != k ==> group[i].Len() + group[k].Len() <= Total(group)
    ensures group[k].Len() <= Total(group)
    decreases |group|
  {
    var n := |group| - 1;
    if n > 0 {
      LongestIsLongest(group[..n], Min(k, n - 1));
      forall i | 0 <= i < n ensures group[i].Len() <= Total(group[..n]) {
        LongestIsLongest(group[..n], i);
      }
      var i :| 0 <= i < |group[..n]| && group[..n][i] == Longest(group[..n]);
      assert group[i] == Longest(group[..n]);
    }
  }

  /** A chunk is named after the segment that holds more than half of it, and otherwise unnamed. */
  lemma NamedAfterTheDominant(group: seq<Segment>)
    requires group != []
    ensures forall k :: 0 <= k < |group| && group[k].Len() * 2 > Total(group) ==> NameOf(group) == group[k].symbol
    ensures (forall k :: 0 <= k < |group| ==> group[k].Len() * 2 <= Total(group)) ==> NameOf(group) == None
  {
    LongestIsLongest(group, 0);
    var i :| 0 <= i < |group| && group[i] == Longest(group);
    forall k | 0 <= k < |group| && group[k].Len() * 2 > Total(group) ensures NameOf(group) == group[k].symbol {
      LongestIsLongest(group, k);
      LongestIsLongest(group, i);
    }
  }

  // ----- What the assembled chunks say about the file -----

  lemma {:induction false} ContiguousTotal(group: seq<Segment>, lo: nat, hi: nat)
    requires Contiguous(group, lo, hi)
    ensures lo <= hi && Total(group) == hi - lo
    ensures forall k :: 0 <= k < |group| ==> lo <= group[k].start < group[k].end <= hi
    ensures group != [] ==> group[0].start == lo && group[|group| - 1].end == hi
    decreases |group|
  {
    if group != [] {
      ContiguousTotal(group[..|group| - 1], lo, group[|group| - 1].start);
    }
  }

  function ParsedChunk(source: Bytes, group: seq<Segment>, lo: nat, hi: nat): Chunk
    requires group != [] && lo < hi <= |source|
  {
    Chunk(1 + Newlines(source[..lo]), 1 + Newlines(source[..hi - 1]), source[lo..hi], NameOf(group), Parsed)
  }

  lemma EmittedIs(source: Bytes, group: seq<Segment>, lo: nat, hi: nat, options: Options)
    requires group != [] && Contiguous(group, lo, hi) && lo < hi <= |source|
    requires Boundary(source, lo) && Boundary(source, hi)
    ensures Emitted(source, group, options)
      == if hi - lo > options.SplitCeiling() then LineChunks(source[lo..hi], 1 + Newlines(source[..lo]), options)
         else [ParsedChunk(source, group, lo, hi)]
  {
    ContiguousTotal(group, lo, hi);
  }

  /** The fallback inside a fragment: the line splitter's chunks, placed and numbered in the whole file. */
  lemma FallbackCovers(source: Bytes, lo: nat, hi: nat, options: Options)
    requires Utf8(source) && lo < hi <= |source| && Boundary(source, lo) && Boundary(source, hi)
    ensures var chunks := LineChunks(source[lo..hi], 1 + Newlines(source[..lo]), options);
      && Covers(chunks, source, 1, lo, hi)
      && (Widest(source) <= options.maxEmbedBytes ==> AllWithin(chunks, options.maxEmbedBytes))
  {
    hide *;
    PartIsUtf8(source, lo, hi);
    LineChunksCover(source[lo..hi], 1 + Newlines(source[..lo]), options);
    LineChunksAreBounded(source[lo..hi], 1 + Newlines(source[..lo]), options);
    CoversInTheFile(LineChunks(source[lo..hi], 1 + Newlines(source[..lo]), options), source, 1, lo, hi);
  }

  lemma ParsedCovers(chunk: Chunk, source: Bytes, lo: nat, hi: nat)
    requires Cut(chunk, source, lo, hi) && Numbered(chunk, source, 1, lo, hi)
    ensures Covers([chunk], source, 1, lo, hi)
  {
    assert Covers([], source, 1, lo, lo);
    TilesAppend([], chunk, InFile(source, 1), lo, lo, hi);
    assert [] + [chunk] == [chunk];
  }

  /** A group becomes one parsed chunk, or line chunks, that cover exactly its span. */
  lemma EmittedCovers(source: Bytes, group: seq<Segment>, lo: nat, hi: nat, options: Options)
    requires Utf8(source) && group != [] && Contiguous(group, lo, hi) && lo < hi <= |source|
    requires Boundary(source, lo) && Boundary(source, hi)
    ensures Covers(Emitted(source, group, options), source, 1, lo, hi)
    ensures hi - lo <= options.SplitCeiling() ==> |Emitted(source, group, options)| == 1
    ensures Widest(source) <= options.maxEmbedBytes ==>
      AllWithin(Emitted(source, group, options), options.maxEmbedBytes)
  {
    hide Emitted, LineChunks, Covers, Contiguous, Utf8, Widest, NameOf;
    EmittedIs(source, group, lo, hi, options);
    if hi - lo > options.SplitCeiling() {
      FallbackCovers(source, lo, hi, options);
    } else {
      ParsedCovers(ParsedChunk(source, group, lo, hi), source, lo, hi);
    }
  }

  lemma {:induction false} EmittedAllCovers(
      source: Bytes, groups: seq<seq<Segment>>, lo: nat, hi: nat, options: Options)
    requires Utf8(source) && Spans(source, groups, lo, hi) && lo <= hi <= |source|
    ensures Covers(EmittedAll(source, groups, options), source, 1, lo, hi)
    ensures Widest(source) <= options.maxEmbedBytes ==>
      AllWithin(EmittedAll(source, groups, options), options.maxEmbedBytes)
    decreases |groups|
  {
    hide Emitted;
    if groups != [] {
      var last := groups[|groups| - 1];
      var before := groups[..|groups| - 1];
      EmittedAllCovers(source, before, lo, last[0].start, options);
      EmittedCovers(source, last, last[0].start, hi, options);
      TilesConcat(EmittedAll(source, before, options), Emitted(source, last, options), InFile(source, 1),
                  lo, last[0].start, hi);
    }
  }

  /** Some chunk holds all of `lo..hi`. */
  predicate HeldWhole(chunks: seq<Chunk>, lo: nat, hi: nat) {
    exists k :: 0 <= k < |chunks| && |Joined(chunks[..k])| <= lo && hi <= |Joined(chunks[..k])| + |chunks[k].text|
  }

  lemma HeldWholeAppend(chunks: seq<Chunk>, more: seq<Chunk>, lo: nat, hi: nat)
    requires HeldWhole(chunks, lo, hi)
    ensures HeldWhole(chunks + more, lo, hi)
  {
    var k :| 0 <= k < |chunks| && |Joined(chunks[..k])| <= lo && hi <= |Joined(chunks[..k])| + |chunks[k].text|;
    assert (chunks + more)[..k] == chunks[..k] && (chunks + more)[k] == chunks[k];
  }

  lemma LastIsHeldWhole(chunks: seq<Chunk>, chunk: Chunk, lo: nat, hi: nat)
    requires |Joined(chunks)| <= lo && hi <= |Joined(chunks)| + |chunk.text|
    ensures HeldWhole(chunks + [chunk], lo, hi)
  {
    assert (chunks + [chunk])[..|chunks|] == chunks && (chunks + [chunk])[|chunks|] == chunk;
  }

  /** The last group's span is one chunk when it is within the ceiling, so its segments are whole. */
  lemma LastGroupIsWhole(source: Bytes, groups: seq<seq<Segment>>, hi: nat, options: Options, segment: Segment)
    requires Utf8(source) && Spans(source, groups, 0, hi) && hi <= |source| && groups != []
    requires segment in groups[|groups| - 1] && hi - groups[|groups| - 1][0].start <= options.SplitCeiling()
    ensures HeldWhole(EmittedAll(source, groups, options), segment.start, segment.end)
  {
    hide Emitted;
    var n := |groups| - 1;
    var lo := groups[n][0].start;
    var before, chunks := EmittedAll(source, groups[..n], options), Emitted(source, groups[n], options);
    ContiguousTotal(groups[n], lo, hi);
    EmittedAllCovers(source, groups[..n], 0, lo, options);
    EmittedCovers(source, groups[n], lo, hi, options);
    JoinedLength(before, source, 0, lo);
    assert chunks == [chunks[0]];
    assert chunks[0].text == source[lo..hi] by {
      CoveringReproducesTheText(chunks, source, 1, lo, hi);
      assert chunks[..0] == [];
    }
    LastIsHeldWhole(before, chunks[0], segment.start, segment.end);
  }

  lemma JoinedLength(chunks: seq<Chunk>, source: Bytes, lo: nat, hi: nat)
    requires Covers(chunks, source, 1, lo, hi) && lo <= hi <= |source|
    ensures |Joined(chunks)| == hi - lo
  {
    CoveringReproducesTheText(chunks, source, 1, lo, hi);
  }

  /** A tidy group that is too long for one chunk is a single segment that is. */
  lemma TidyGroupFits(group: seq<Segment>, lo: nat, hi: nat, options: Options, segment: Segment)
    requires Contiguous(group, lo, hi) && Tidy(group, options) && segment in group
    requires options.targetChars <= options.SplitCeiling() && segment.Len() <= options.SplitCeiling()
    ensures hi - lo <= options.SplitCeiling()
  {
    ContiguousTotal(group, lo, hi);
    if |group| == 1 {
      assert segment == group[0];
    }
  }

  lemma {:induction false} SmallSegmentsAreWhole(
      source: Bytes, groups: seq<seq<Segment>>, hi: nat, options: Options, segment: Segment)
    requires Utf8(source) && Spans(source, groups, 0, hi) && hi <= |source| && AllTidy(groups, options)
    requires options.targetChars <= options.SplitCeiling() && segment.Len() <= options.SplitCeiling()
    requires segment in Flatten(groups)
    ensures HeldWhole(EmittedAll(source, groups, options), segment.start, segment.end)
    decreases |groups|
  {
    hide Emitted, HeldWhole;
    var n := |groups| - 1;
    if segment in groups[n] {
      TidyGroupFits(groups[n], groups[n][0].start, hi, options, segment);
      LastGroupIsWhole(source, groups, hi, options, segment);
    } else {
      SmallSegmentsAreWhole(source, groups[..n], groups[n][0].start, options, segment);
      HeldWholeAppend(EmittedAll(source, groups[..n], options), Emitted(source, groups[n], options),
                      segment.start, segment.end);
    }
  }

  /** The groups in the order they are emitted, the one still open last. */
  function Closed(p: Packing): seq<seq<Segment>> {
    if p.group == [] then p.groups else p.groups + [p.group]
  }

  lemma AssembledIsEmittedAll(source: Bytes, segments: seq<Segment>, options: Options)
    ensures var groups := Closed(PackAll(segments, options));
      && Assembled(source, segments, options) == EmittedAll(source, groups, options)
      && Flatten(groups) == segments && AllTidy(groups, options)
  {
    hide Emitted;
    PackAllIsTidy(segments, options);
    var p := PackAll(segments, options);
    if p.group != [] {
      assert (p.groups + [p.group])[..|p.groups|] == p.groups;
    } else {
      assert Emitted(source, [], options) == [] by { EmittedNothing(source, options); }
    }
  }

  lemma EmittedNothing(source: Bytes, options: Options)
    ensures Emitted(source, [], options) == []
  {
  }

  /**
   * For a nonempty file and any segments that tile it on char boundaries: the chunks tile the file
   * with exact line numbers, through the line splitter too; they all meet the embedder's ceiling
   * exactly when no character alone exceeds it; and, for a target within the split ceiling, every
   * segment no longer than that ceiling lies whole in one chunk.
   */
  lemma AssembledIsSound(source: Bytes, segments: seq<Segment>, options: Options)
    requires Utf8(source) && source != []
    requires Contiguous(segments, 0, |source|) && OnBoundaries(source, segments)
    ensures var chunks := Assembled(source, segments, options);
      && Covers(chunks, source, 1, 0, |source|)
      && Joined(chunks) == source
      && (AllWithin(chunks, options.maxEmbedBytes) <==> Widest(source) <= options.maxEmbedBytes)
    ensures options.targetChars <= options.SplitCeiling() ==>
      forall segment :: segment in segments && segment.Len() <= options.SplitCeiling() ==>
        HeldWhole(Assembled(source, segments, options), segment.start, segment.end)
  {
    hide Emitted, HeldWhole, Assembled, Spans;
    var groups := Closed(PackAll(segments, options));
    var chunks := Assembled(source, segments, options);
    AssembledIsEmittedAll(source, segments, options);
    PackAllSpans(segments, source, 0, |source|, options);
    assert segments != [];
    assert Spans(source, groups, 0, |source|);
    EmittedAllCovers(source, groups, 0, |source|, options);
    assert source[0..|source|] == source && source[..|source|] == source;
    CoveringReproducesTheText(chunks, source, 1, 0, |source|);
    if AllWithin(chunks, options.maxEmbedBytes) {
      CoveringHoldsTheWidestChar(chunks, source, 1, |source|, options.maxEmbedBytes);
    }
    if options.targetChars <= options.SplitCeiling() {
      forall segment | segment in segments && segment.Len() <= options.SplitCeiling()
        ensures HeldWhole(chunks, segment.start, segment.end)
      {
        SmallSegmentsAreWhole(source, groups, |source|, options, segment);
      }
    }
  }
}
