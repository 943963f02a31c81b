/**
 * Where the line splitter ends a chunk: exactly where it has to. The pieces of the text, in order,
 * are dealt out to the chunks, and a piece starts a new one if and only if a bound forces it to.
 */
module LineBoundaries {
  import opened Prelude
  import opened Text
  import opened Chunks
  import opened LineSplitter

  // ----- A line is cut no more than it must be -----

  /** The pieces from the second on, glued together again. */
  function Glued(pieces: seq<Bytes>): Bytes {
    if pieces == [] then [] else Glued(pieces[..|pieces| - 1]) + pieces[|pieces| - 1]
  }

  lemma {:induction false} GluedConcat(a: seq<Bytes>, b: seq<Bytes>)
    ensures Glued(a + b) == Glued(a) + Glued(b)
    decreases |b|
  {
    if b == [] {
      assert a + b == a;
    } else {
      var n := |b| - 1;
      GluedConcat(a, b[..n]);
      assert (a + b)[..|a| + n] == a + b[..n];
      assert Glued(a) + (Glued(b[..n]) + b[n]) == Glued(a) + Glued(b[..n]) + b[n];
    }
  }

  lemma GluedOne(piece: Bytes)
    ensures Glued([piece]) == piece
  {
    assert [piece][..0] == [];
  }

  /** The boundary after the first character of well-formed text. */
  lemma AfterFirstCharacter(line: Bytes, cut: nat)
    requires Utf8(line) && cut < |line| && Boundary(line, cut)
    ensures 0 < Width(line[cut..]) && Boundary(line, cut + Width(line[cut..]))
  {
    hide Width;
    CutKeepsUtf8(line, cut);
    Utf8HasWidth(line[cut..]);
    var w := Width(line[cut..]);
    if cut + w < |line| {
      Utf8HasWidth(line[cut..][w..]);
      assert line[cut..][w..][0] == line[cut + w];
    }
  }

  /** Each piece ends because the next character would not have fitted; only the last may be too long. */
  predicate Maximal(pieces: seq<Bytes>, limit: nat) {
    && pieces != []
    && (forall k :: 0 <= k < |pieces| - 1 ==> |pieces[k]| <= limit < |pieces[k]| + Width(Glued(pieces[k + 1..])))
    && (|pieces[|pieces| - 1]| <= limit || limit < Width(pieces[|pieces| - 1]))
  }

  lemma MaximalMore(head: Bytes, rest: seq<Bytes>, limit: nat)
    requires Maximal(rest, limit) && |head| <= limit < |head| + Width(Glued(rest))
    ensures Maximal([head] + rest, limit) && Glued([head] + rest) == head + Glued(rest)
  {
    hide Width, Glued;
    var pieces := [head] + rest;
    GluedConcat([head], rest);
    GluedOne(head);
    forall k | 0 <= k < |pieces| - 1
      ensures |pieces[k]| <= limit < |pieces[k]| + Width(Glued(pieces[k + 1..]))
    {
      assert pieces[k + 1..] == rest[k..];
      if k == 0 {
        assert rest[0..] == rest;
      }
    }
  }

  lemma CutIsForced(line: Bytes, limit: nat)
    requires Utf8(line) && limit < |line|
    ensures var cut := BoundaryBelow(line, limit); limit < cut + Width(line[cut..]) && Utf8(line[cut..])
  {
    hide Width, Utf8;
    var cut := BoundaryBelow(line, limit);
    AfterFirstCharacter(line, cut);
    CutKeepsUtf8(line, cut);
  }

  lemma PiecesStep(line: Bytes, ceiling: nat)
    requires line != []
    ensures var limit := Max(1, ceiling);
      if |line| <= limit || BoundaryBelow(line, limit) == 0 then PiecesOf(line, ceiling) == [line]
      else
        var cut := BoundaryBelow(line, limit);
        PiecesOf(line, ceiling) == [line[..cut]] + PiecesOf(line[cut..], ceiling)
  {
  }

  /** A line is cut into maximal pieces, whatever the ceiling. */
  lemma {:induction false} PiecesAreMaximal(line: Bytes, ceiling: nat)
    requires Utf8(line) && line != []
    ensures Maximal(PiecesOf(line, ceiling), Max(1, ceiling)) && Glued(PiecesOf(line, ceiling)) == line
    decreases |line|
  {
    hide *;
    var limit := if ceiling < 1 then 1 else ceiling;
    assert limit == Max(1, ceiling) by {
      MaxOfOne(ceiling);
    }
    GluedOne(line);
    PiecesStep(line, ceiling);
    if |line| <= limit {
      MaximalOne(line, limit);
    } else {
      var cut := BoundaryBelow(line, limit);
      CutIsForced(line, limit);
      if cut == 0 {
        assert line[0..] == line;
        MaximalOne(line, limit);
      } else {
        PiecesAreMaximal(line[cut..], ceiling);
        MaximalMore(line[..cut], PiecesOf(line[cut..], ceiling), limit);
        assert line[..cut] + line[cut..] == line;
      }
    }
  }

  lemma MaxOfOne(ceiling: nat)
    ensures Max(1, ceiling) == if ceiling < 1 then 1 else ceiling
  {
  }

  lemma MaximalOne(line: Bytes, limit: nat)
    requires |line| <= limit || limit < Width(line)
    ensures Maximal([line], limit)
  {
  }

  // ----- The pieces of the text -----

  function Lines(text: Bytes): seq<Bytes> {
    if text == [] then [] else [text[..LineLength(text)]] + Lines(text[LineLength(text)..])
  }

  function PiecesOfLines(lines: seq<Bytes>, ceiling: nat): seq<Bytes> {
    if lines == [] then [] else PiecesOf(lines[0], ceiling) + PiecesOfLines(lines[1..], ceiling)
  }

  // ----- When a piece has to start a new chunk -----

  /** `buffer` may not take `piece` as well, or ends at it as at a blank line. */
  predicate Forced(buffer: Bytes, piece: Bytes, options: Options) {
    || |buffer| + |piece| > options.maxEmbedBytes
    || (!Blank(buffer) && |buffer| + |piece| > Min(options.targetChars, options.maxEmbedBytes))
    || (!Blank(buffer) && Blank(piece) && |buffer| >= Min(options.targetChars, options.maxEmbedBytes) / 2)
  }

  /** No piece after the first of a group had to start a new one. */
  predicate Unforced(group: seq<Bytes>, options: Options) {
    forall i :: 0 < i < |group| ==> !Forced(Glued(group[..i]), group[i], options)
  }

  function Dealt(groups: seq<seq<Bytes>>): seq<Bytes> {
    if groups == [] then [] else Dealt(groups[..|groups| - 1]) + groups[|groups| - 1]
  }

  /** The pieces are dealt out in order, and a group ends exactly where the next piece is forced out. */
  predicate DealtExactly(groups: seq<seq<Bytes>>, pieces: seq<Bytes>, options: Options) {
    && Dealt(groups) == pieces
    && (forall k :: 0 <= k < |groups| ==> groups[k] != [] && Unforced(groups[k], options))
    && (forall k :: 0 < k < |groups| ==> Forced(Glued(groups[k - 1]), groups[k][0], options))
  }

  /** One unnamed chunk a group, labelled as cut on lines. */
  predicate AreTexts(chunks: seq<Chunk>, groups: seq<seq<Bytes>>) {
    && |chunks| == |groups|
    && forall k :: 0 <= k < |chunks| ==>
      chunks[k].text == Glued(groups[k]) && chunks[k].symbol == None && !chunks[k].splitter.Parsed?
  }

  // ----- The loop deals them out so -----

  /** Midway: the closed groups are the chunks so far and the open one is the buffer. */
  predicate Dealing(g: Gathering, groups: seq<seq<Bytes>>, open: seq<Bytes>, fed: seq<Bytes>, options: Options) {
    && AreTexts(g.chunks, groups) && g.buffer == Glued(open)
    && (if open == [] then groups == [] && fed == [] else DealtExactly(groups + [open], fed, options))
    && (open != [] ==> g.buffer != [])
  }

  lemma UnforcedOne(piece: Bytes, options: Options)
    ensures Unforced([piece], options)
  {
  }

  lemma UnforcedMore(group: seq<Bytes>, piece: Bytes, options: Options)
    requires Unforced(group, options) && group != [] && !Forced(Glued(group), piece, options)
    ensures Unforced(group + [piece], options)
  {
    hide Forced;
    var more := group + [piece];
    forall i | 0 < i < |more| ensures !Forced(Glued(more[..i]), more[i], options) {
      if i < |group| {
        assert more[..i] == group[..i];
      } else {
        assert more[..i] == group;
      }
    }
  }

  lemma DealtMore(groups: seq<seq<Bytes>>, open: seq<Bytes>)
    ensures Dealt(groups + [open]) == Dealt(groups) + open
  {
    assert (groups + [open])[..|groups|] == groups;
  }

  lemma DealtClose(groups: seq<seq<Bytes>>, fed: seq<Bytes>, piece: Bytes, options: Options)
    requires DealtExactly(groups, fed, options)
    requires groups != [] ==> Forced(Glued(groups[|groups| - 1]), piece, options)
    ensures DealtExactly(groups + [[piece]], fed + [piece], options)
  {
    hide Forced, Unforced, Dealt, Glued;
    UnforcedOne(piece, options);
    DealtMore(groups, [piece]);
  }

  lemma DealtGrow(
      groups: seq<seq<Bytes>>, open: seq<Bytes>, fed: seq<Bytes>, piece: Bytes, options: Options)
    requires DealtExactly(groups + [open], fed, options) && open != [] && !Forced(Glued(open), piece, options)
    ensures DealtExactly(groups + [open + [piece]], fed + [piece], options)
  {
    hide Forced, Unforced, Dealt, Glued;
    var was, all := groups + [open], groups + [open + [piece]];
    assert was[|groups|] == open;
    UnforcedMore(open, piece, options);
    DealtMore(groups, open);
    DealtMore(groups, open + [piece]);
    assert Dealt(groups) + (open + [piece]) == Dealt(groups) + open + [piece];
    forall k | 0 <= k < |all| ensures all[k] != [] && Unforced(all[k], options) {
      assert k < |groups| ==> all[k] == was[k];
    }
    forall k | 0 < k < |all| ensures Forced(Glued(all[k - 1]), all[k][0], options) {
      assert was[k - 1] == all[k - 1] && was[k][0] == all[k][0];
    }
  }

  lemma FeedDeals(
      g: Gathering, groups: seq<seq<Bytes>>, open: seq<Bytes>, fed: seq<Bytes>, piece: Bytes, line: nat,
      options: Options)
    returns (closed: seq<seq<Bytes>>, next: seq<Bytes>)
    requires Dealing(g, groups, open, fed, options) && piece != []
    ensures Dealing(Feed(g, piece, line, options), closed, next, fed + [piece], options) && next != []
  {
    hide Blank, Dealt, DealtExactly;
    GluedOne(piece);
    if open == [] {
      closed, next := [], [piece];
      DealtNothing(options);
      DealtClose([], [], piece, options);
      assert g.buffer + piece == piece && [] + [piece] == [piece] && [] + [next] == [next];
    } else if Forced(g.buffer, piece, options) {
      closed, next := groups + [open], [piece];
      DealtClose(closed, fed, piece, options);
    } else {
      closed, next := groups, open + [piece];
      GluedConcat(open, [piece]);
      DealtGrow(groups, open, fed, piece, options);
    }
  }

  lemma DealtNothing(options: Options)
    ensures DealtExactly([], [], options)
  {
  }

  lemma {:induction false} FeedAllDeals(
      g: Gathering, groups: seq<seq<Bytes>>, open: seq<Bytes>, fed: seq<Bytes>, pieces: seq<Bytes>, line: nat,
      options: Options)
    returns (closed: seq<seq<Bytes>>, next: seq<Bytes>)
    requires Dealing(g, groups, open, fed, options) && forall k :: 0 <= k < |pieces| ==> pieces[k] != []
    ensures Dealing(FeedAll(g, pieces, line, options), closed, next, fed + pieces, options)
    decreases |pieces|
  {
    hide Dealing, Feed;
    if pieces == [] {
      closed, next := groups, open;
      assert fed + pieces == fed;
    } else {
      closed, next := FeedDeals(g, groups, open, fed, pieces[0], line, options);
      closed, next := FeedAllDeals(
        Feed(g, pieces[0], line, options), closed, next, fed + [pieces[0]], pieces[1..], line, options);
      assert fed + [pieces[0]] + pieces[1..] == fed + pieces;
    }
  }

  lemma {:induction false} FeedLinesDeals(
      g: Gathering, groups: seq<seq<Bytes>>, open: seq<Bytes>, fed: seq<Bytes>, text: Bytes, line: nat,
      options: Options)
    returns (closed: seq<seq<Bytes>>, next: seq<Bytes>)
    requires Dealing(g, groups, open, fed, options)
    ensures Dealing(FeedLines(g, text, line, options), closed, next,
                    fed + PiecesOfLines(Lines(text), options.maxEmbedBytes), options)
    decreases |text|
  {
    hide Dealing, FeedAll, PiecesOf, LineLength, Slices;
    if text == [] {
      closed, next := groups, open;
      assert fed + [] == fed;
    } else {
      var n := LineLength(text);
      var pieces := PiecesOf(text[..n], options.maxEmbedBytes);
      PiecesSliceTheLine(text[..n], options.maxEmbedBytes);
      forall k | 0 <= k < |pieces| ensures pieces[k] != [] {
        NoSliceIsEmpty(pieces, text[..n], k);
      }
      closed, next := FeedAllDeals(g, groups, open, fed, pieces, line, options);
      closed, next := FeedLinesDeals(
        FeedAll(g, pieces, line, options), closed, next, fed + pieces, text[n..], line + 1, options);
      assert Lines(text)[0] == text[..n] && Lines(text)[1..] == Lines(text[n..]);
      var rest := PiecesOfLines(Lines(text[n..]), options.maxEmbedBytes);
      assert fed + pieces + rest == fed + (pieces + rest);
    }
  }

  /**
   * Every boundary of the line splitter is forced and none is missed. Its chunks are the pieces of
   * the text, dealt out in order; a chunk ends if and only if the next piece would overrun the
   * embedder's ceiling, or overruns min(target, ceiling) after something not blank, or is itself
   * blank after something not blank that has reached half of that.
   */
  lemma BoundariesAreForced(text: Bytes, firstLine: nat, options: Options) returns (groups: seq<seq<Bytes>>)
    ensures AreTexts(LineChunks(text, firstLine, options), groups)
    ensures DealtExactly(groups, PiecesOfLines(Lines(text), options.maxEmbedBytes), options)
  {
    hide *;
    var start := Gathering([], [], firstLine, firstLine);
    NothingIsFed(start, options);
    var closed, open := FeedLinesDeals(start, [], [], [], text, firstLine, options);
    var pieces := PiecesOfLines(Lines(text), options.maxEmbedBytes);
    assert [] + pieces == pieces;
    groups := if open == [] then [] else closed + [open];
    LastIsPushed(FeedLines(start, text, firstLine, options), closed, open, pieces, options);
    ChunksArePushed(text, firstLine, options);
  }

  lemma NothingIsFed(g: Gathering, options: Options)
    requires g.chunks == [] && g.buffer == []
    ensures Dealing(g, [], [], [], options)
  {
  }

  lemma LastIsPushed(
      g: Gathering, closed: seq<seq<Bytes>>, open: seq<Bytes>, fed: seq<Bytes>, options: Options)
    requires Dealing(g, closed, open, fed, options)
    ensures var groups := if open == [] then [] else closed + [open];
      AreTexts(Pushed(g.chunks, g.buffer, g.start, g.end), groups) && DealtExactly(groups, fed, options)
  {
    hide Forced, Dealt;
    DealtNothing(options);
  }

  lemma ChunksArePushed(text: Bytes, firstLine: nat, options: Options)
    ensures var g := FeedLines(Gathering([], [], firstLine, firstLine), text, firstLine, options);
      LineChunks(text, firstLine, options) == Pushed(g.chunks, g.buffer, g.start, g.end)
  {
    hide FeedLines;
  }

  /** Where the rules put one more piece. */
  function Extended(before: seq<seq<Bytes>>, piece: Bytes, options: Options): seq<seq<Bytes>> {
    if before == [] || Forced(Glued(before[|before| - 1]), piece, options) then before + [[piece]]
    else before[..|before| - 1] + [before[|before| - 1] + [piece]]
  }

  /** Taking the last piece back leaves a deal of the others, and the rules say where it had gone. */
  lemma TakeBack(groups: seq<seq<Bytes>>, pieces: seq<Bytes>, options: Options) returns (before: seq<seq<Bytes>>)
    requires DealtExactly(groups, pieces, options) && pieces != []
    ensures var n := |pieces| - 1;
      && DealtExactly(before, pieces[..n], options)
      && groups == Extended(before, pieces[n], options)
  {
    hide Forced, Glued;
    DealtNothing(options);
    var m, n := |groups| - 1, |pieces| - 1;
    var last := groups[m];
    var i := |last| - 1;
    assert groups == groups[..m] + [last];
    DealtMore(groups[..m], last);
    assert pieces[n] == last[i];
    if i == 0 {
      before := groups[..m];
      assert last == [pieces[n]];
      assert pieces[..n] == Dealt(before);
    } else {
      var kept := last[..i];
      before := groups[..m] + [kept];
      DealtMore(groups[..m], kept);
      assert pieces[..n] == Dealt(groups[..m]) + kept;
      UnforcedLess(last, options);
      assert last == kept + [pieces[n]];
      assert before[..m] == groups[..m];
      forall k | 0 < k < |before| ensures Forced(Glued(before[k - 1]), before[k][0], options) {
        assert before[k - 1] == groups[k - 1] && before[k][0] == groups[k][0];
      }
    }
  }

  lemma UnforcedLess(group: seq<Bytes>, options: Options)
    requires Unforced(group, options) && |group| > 1
    ensures Unforced(group[..|group| - 1], options)
    ensures !Forced(Glued(group[..|group| - 1]), group[|group| - 1], options)
  {
    hide Forced, Glued;
    var less := group[..|group| - 1];
    forall i | 0 < i < |less| ensures !Forced(Glued(less[..i]), less[i], options) {
      assert less[..i] == group[..i];
    }
  }

  /** There is only one way to deal pieces out like that. */
  lemma {:induction false} DealingIsUnique(
      a: seq<seq<Bytes>>, b: seq<seq<Bytes>>, pieces: seq<Bytes>, options: Options)
    requires DealtExactly(a, pieces, options) && DealtExactly(b, pieces, options)
    ensures a == b
    decreases |pieces|
  {
    hide DealtExactly, Extended;
    if pieces == [] {
      NothingIsDealt(a, options);
      NothingIsDealt(b, options);
    } else {
      var c := TakeBack(a, pieces, options);
      var d := TakeBack(b, pieces, options);
      DealingIsUnique(c, d, pieces[..|pieces| - 1], options);
    }
  }

  lemma NothingIsDealt(groups: seq<seq<Bytes>>, options: Options)
    requires DealtExactly(groups, [], options)
    ensures groups == []
  {
    if groups != [] {
      assert false;
    }
  }

  // ----- Short texts are one chunk -----

  lemma {:induction false} ShortLinesAreWhole(lines: seq<Bytes>, ceiling: nat)
    requires forall k :: 0 <= k < |lines| ==> |lines[k]| <= ceiling
    ensures PiecesOfLines(lines, ceiling) == lines
  {
    if lines != [] {
      ShortLinesAreWhole(lines[1..], ceiling);
      assert [lines[0]] + lines[1..] == lines;
    }
  }

  lemma FirstLineOf(text: Bytes)
    requires text != []
    ensures var n := LineLength(text); 0 < n <= |text| && Lines(text) == [text[..n]] + Lines(text[n..])
  {
    hide LineLength;
  }

  lemma {:induction false} LinesMakeTheText(text: Bytes)
    ensures Glued(Lines(text)) == text
    decreases |text|
  {
    if text != [] {
      hide *;
      var n := LineLength(text);
      FirstLineOf(text);
      LinesMakeTheText(text[n..]);
      FirstGlued(text[..n], Lines(text[n..]));
      assert text[..n] + text[n..] == text;
    }
  }

  lemma FirstGlued(head: Bytes, rest: seq<Bytes>)
    ensures Glued([head] + rest) == head + Glued(rest)
  {
    GluedConcat([head], rest);
    GluedOne(head);
  }

  lemma {:induction false} LinesAreWithinTheText(text: Bytes, k: nat)
    requires k < |Lines(text)|
    ensures |Lines(text)[k]| <= |text|
    decreases |text|
  {
    hide LineLength;
    FirstLineOf(text);
    if k > 0 {
      LinesAreWithinTheText(text[LineLength(text)..], k - 1);
    }
  }

  lemma {:induction false} DealtIsGlued(groups: seq<seq<Bytes>>, k: nat)
    requires k < |groups|
    ensures |Glued(groups[k])| <= |Glued(Dealt(groups))|
    ensures k > 0 && groups[k] != [] ==> |Glued(groups[k - 1])| + |groups[k][0]| <= |Glued(Dealt(groups))|
    decreases |groups|
  {
    var n := |groups| - 1;
    GluedConcat(Dealt(groups[..n]), groups[n]);
    if k < n {
      DealtIsGlued(groups[..n], k);
    } else if k > 0 {
      DealtIsGlued(groups[..n], k - 1);
      if groups[k] != [] {
        GluedConcat([groups[k][0]], groups[k][1..]);
        GluedOne(groups[k][0]);
        assert [groups[k][0]] + groups[k][1..] == groups[k];
      }
    }
  }

  lemma {:induction false} DealtHolds(groups: seq<seq<Bytes>>, k: nat, i: nat)
    requires k < |groups| && i < |groups[k]|
    ensures groups[k][i] in Dealt(groups)
    decreases |groups|
  {
    if k < |groups| - 1 {
      DealtHolds(groups[..|groups| - 1], k, i);
    }
  }

  lemma ShortDealIsOneGroup(groups: seq<seq<Bytes>>, pieces: seq<Bytes>, options: Options)
    requires DealtExactly(groups, pieces, options)
    requires |Glued(pieces)| <= Min(options.targetChars, options.maxEmbedBytes)
    requires forall k :: 0 <= k < |pieces| ==> !Blank(pieces[k])
    ensures |groups| <= 1
  {
    hide Blank, Unforced, Glued, Dealt;
    if |groups| > 1 {
      DealtIsGlued(groups, 1);
      DealtHolds(groups, 1, 0);
      assert false;
    }
  }

  /** A text within both ceilings and without a blank line is one chunk. */
  lemma ShortTextIsOneChunk(text: Bytes, firstLine: nat, options: Options)
    requires text != [] && |text| <= Min(options.targetChars, options.maxEmbedBytes)
    requires forall k :: 0 <= k < |Lines(text)| ==> !Blank(Lines(text)[k])
    ensures |LineChunks(text, firstLine, options)| == 1
  {
    hide LineChunks, Blank, Unforced, LineLength, Glued, PiecesOf;
    LinesMakeTheText(text);
    forall k | 0 <= k < |Lines(text)| ensures |Lines(text)[k]| <= options.maxEmbedBytes {
      LinesAreWithinTheText(text, k);
    }
    ShortLinesAreWhole(Lines(text), options.maxEmbedBytes);
    var groups := BoundariesAreForced(text, firstLine, options);
    ShortDealIsOneGroup(groups, Lines(text), options);
    assert groups != [];
  }
}
