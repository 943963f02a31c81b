/** The line splitter: the fallback that needs no grammar. */
module LineSplitter {
  import opened Prelude
  import opened Text
  import opened Chunks

  // ----- One line, cut into pieces an embedder accepts -----

  /** The last char boundary at or before `at`. */
  function BoundaryBelow(s: Bytes, at: nat): (cut: nat)
    requires at <= |s|
    ensures cut <= at && Boundary(s, cut) && forall k :: cut < k <= at ==> !Boundary(s, k)
  {
    if Boundary(s, at) then at else BoundaryBelow(s, at - 1)
  }

  function PiecesOf(line: Bytes, ceiling: nat): seq<Bytes>
    decreases |line|
  {
    var limit := Max(1, ceiling);
    if |line| <= limit || BoundaryBelow(line, limit) == 0 then [line]
    else
      var cut := BoundaryBelow(line, limit);
      [line[..cut]] + PiecesOf(line[cut..], ceiling)
  }

  method Pieces(line: Bytes, ceiling: nat) returns (pieces: seq<Bytes>)
    ensures pieces == PiecesOf(line, ceiling)
  {
    var limit := Max(1, ceiling);
    if |line| <= limit {
      return [line];
    }
    pieces := [];
    var rest := line;
    while |rest| > limit
      invariant rest != []
      invariant pieces + PiecesOf(rest, ceiling) == PiecesOf(line, ceiling)
    {
      var cut := limit;
      while cut > 0 && !Boundary(rest, cut)
        invariant 0 <= cut <= limit
        invariant BoundaryBelow(rest, cut) == BoundaryBelow(rest, limit)
      {
        cut := cut - 1;
      }
      if cut == 0 {
        break;
      }
      pieces := pieces + [rest[..cut]];
      rest := rest[cut..];
    }
    if rest != [] {
      pieces := pieces + [rest];
    }
  }

  /** The pieces are `line`, cut on char boundaries, none of them empty. */
  predicate Slices(pieces: seq<Bytes>, line: Bytes)
    decreases |pieces|
  {
    if pieces == [] then line == []
    else
      && 0 < |pieces[0]| <= |line|
      && pieces[0] == line[..|pieces[0]|]
      && Boundary(line, |pieces[0]|)
      && Slices(pieces[1..], line[|pieces[0]|..])
  }

  lemma {:induction false} PiecesSliceTheLine(line: Bytes, ceiling: nat)
    requires line != []
    ensures Slices(PiecesOf(line, ceiling), line)
    decreases |line|
  {
    var limit := Max(1, ceiling);
    if |line| <= limit || BoundaryBelow(line, limit) == 0 {
      assert [line][1..] == [];
    } else {
      var cut := BoundaryBelow(line, limit);
      PiecesSliceTheLine(line[cut..], ceiling);
      assert PiecesOf(line, ceiling)[1..] == PiecesOf(line[cut..], ceiling);
    }
  }

  predicate PiecesWithin(pieces: seq<Bytes>, limit: nat) {
    forall k :: 0 <= k < |pieces| ==> |pieces[k]| <= limit
  }

  /** A ceiling no narrower than the widest character is met by every piece. */
  lemma {:induction false} PiecesFit(line: Bytes, ceiling: nat)
    requires Utf8(line) && line != [] && Widest(line) <= ceiling
    ensures PiecesWithin(PiecesOf(line, ceiling), ceiling)
    decreases |line|
  {
    hide Utf8, Widest;
    WidestIsPositive(line);
    if |line| > ceiling {
      var near := BoundaryNearby(line, ceiling);
      var cut := BoundaryBelow(line, ceiling);
      assert near <= cut && 0 < cut;
      CutKeepsUtf8(line, cut);
      PiecesFit(line[cut..], ceiling);
    }
  }

  // ----- The buffer the pieces are gathered in -----

  datatype Gathering = Gathering(chunks: seq<Chunk>, buffer: Bytes, start: nat, end: nat)

  predicate MustFlush(buffer: Bytes, piece: Bytes, options: Options) {
    var flushable := !Blank(buffer);
    || (buffer != [] && |buffer| + |piece| > options.maxEmbedBytes)
    || (flushable && |buffer| + |piece| > options.LineCeiling())
    || (flushable && Blank(piece) && |buffer| >= options.LineCeiling() / 2)
  }

  function Pushed(chunks: seq<Chunk>, buffer: Bytes, start: nat, end: nat): seq<Chunk> {
    if buffer == [] then chunks
    else chunks + [Chunk(start, Max(end, start), buffer, None, Lines)]
  }

  function Restart(g: Gathering, piece: Bytes, line: nat): Gathering {
    Gathering(Pushed(g.chunks, g.buffer, g.start, g.end), piece, line, line)
  }

  function Extend(g: Gathering, piece: Bytes, line: nat): Gathering {
    g.(buffer := g.buffer + piece, end := line)
  }

  function Feed(g: Gathering, piece: Bytes, line: nat, options: Options): Gathering {
    if MustFlush(g.buffer, piece, options) then Restart(g, piece, line) else Extend(g, piece, line)
  }

  function FeedAll(g: Gathering, pieces: seq<Bytes>, line: nat, options: Options): Gathering
    decreases |pieces|
  {
    if pieces == [] then g else FeedAll(Feed(g, pieces[0], line, options), pieces[1..], line, options)
  }

  /** The length of the line `text` starts with, its line feed included. */
  function LineLength(text: Bytes): (n: nat)
    ensures n <= |text| && (text != [] ==> n > 0)
    ensures OneLine(text[..n]) && (n < |text| ==> text[n - 1] == LF)
  {
    if text == [] then 0
    else if text[0] == LF then 1
    else
      var n := 1 + LineLength(text[1..]);
      assert forall k :: 1 <= k < n - 1 ==> text[..n][k] == text[1..][..n - 1][k - 1];
      assert n < |text| ==> text[n - 1] == text[1..][n - 2];
      n
  }

  function FeedLines(g: Gathering, text: Bytes, line: nat, options: Options): Gathering
    decreases |text|
  {
    if text == [] then g
    else
      var n := LineLength(text);
      FeedLines(FeedAll(g, PiecesOf(text[..n], options.maxEmbedBytes), line, options), text[n..], line + 1, options)
  }

  function LineChunks(text: Bytes, firstLine: nat, options: Options): seq<Chunk> {
    var g := FeedLines(Gathering([], [], firstLine, firstLine), text, firstLine, options);
    Pushed(g.chunks, g.buffer, g.start, g.end)
  }

  /** The inner loop: one line's pieces, each flushing the buffer first when it has to. */
  method FeedPieces(pieces: seq<Bytes>, lineNumber: nat, options: Options, into: Gathering) returns (g: Gathering)
    ensures g == FeedAll(into, pieces, lineNumber, options)
  {
    var chunks, buffer, bufferStart, bufferEnd := into.chunks, into.buffer, into.start, into.end;
    for k := 0 to |pieces|
      invariant FeedAll(Gathering(chunks, buffer, bufferStart, bufferEnd), pieces[k..], lineNumber, options)
        == FeedAll(into, pieces, lineNumber, options)
    {
      var piece := pieces[k];
      var flushable := !Blank(buffer);
      var hardFull := buffer != [] && |buffer| + |piece| > options.maxEmbedBytes;
      var wouldExceed := flushable && |buffer| + |piece| > options.LineCeiling();
      var atASeam := flushable && Blank(piece) && |buffer| >= options.LineCeiling() / 2;
      assert pieces[k..][1..] == pieces[k + 1..];
      if hardFull || wouldExceed || atASeam {
        chunks := Pushed(chunks, buffer, bufferStart, bufferEnd);
        buffer, bufferStart := [], lineNumber;
        assert buffer + piece == piece;
      }
      buffer := buffer + piece;
      bufferEnd := lineNumber;
    }
    return Gathering(chunks, buffer, bufferStart, bufferEnd);
  }

  method SplitPreservingWhitespace(text: Bytes, firstLine: nat, options: Options) returns (chunks: seq<Chunk>)
    ensures chunks == LineChunks(text, firstLine, options)
  {
    var g := Gathering([], [], firstLine, firstLine);
    var rest, lineNumber := text, firstLine;
    while rest != []
      invariant FeedLines(g, rest, lineNumber, options)
        == FeedLines(Gathering([], [], firstLine, firstLine), text, firstLine, options)
      decreases |rest|
    {
      var line := rest[..LineLength(rest)];
      var pieces := Pieces(line, options.maxEmbedBytes);
      g := FeedPieces(pieces, lineNumber, options, g);
      rest, lineNumber := rest[|line|..], lineNumber + 1;
    }
    chunks := Pushed(g.chunks, g.buffer, g.start, g.end);
  }

  method Split(text: Bytes, firstLine: nat, options: Options) returns (chunks: seq<Chunk>)
    ensures chunks == if Blank(text) then [] else LineChunks(text, firstLine, options)
  {
    if Blank(text) {
      return [];
    }
    chunks := SplitPreservingWhitespace(text, firstLine, options);
  }

  // ----- What the splitter's output says about the text -----

  /** Everything true of the gathering after the first `at` bytes of `text` have been fed to it. */
  predicate Gathered(g: Gathering, text: Bytes, base: nat, at: nat) {
    && |g.buffer| <= at <= |text|
    && Boundary(text, at) && Boundary(text, at - |g.buffer|)
    && g.buffer == text[at - |g.buffer|..at]
    && Covers(g.chunks, text, base, 0, at - |g.buffer|)
    && (g.buffer == [] ==> at == 0 && g.start == base)
    && (g.buffer != [] ==>
      && g.start == base + Newlines(text[..at - |g.buffer|])
      && g.end == base + Newlines(text[..at - 1]))
  }

  lemma NewlinesGrow(s: Bytes, from: nat, to: nat)
    requires from <= to <= |s|
    ensures Newlines(s[..from]) <= Newlines(s[..to])
  {
    NewlinesConcat(s[..from], s[from..to]);
    assert s[..from] + s[from..to] == s[..to];
  }

  /** Flushing closes the buffer as one chunk, in its place and with its own line numbers. */
  lemma PushedCovers(g: Gathering, text: Bytes, base: nat, at: nat)
    requires Gathered(g, text, base, at)
    ensures Covers(Pushed(g.chunks, g.buffer, g.start, g.end), text, base, 0, at)
  {
    if g.buffer != [] {
      var from := at - |g.buffer|;
      NewlinesGrow(text, from, at - 1);
      var chunk := Chunk(g.start, Max(g.end, g.start), g.buffer, None, Lines);
      assert Cut(chunk, text, from, at) && Numbered(chunk, text, base, from, at);
      TilesAppend(g.chunks, chunk, InFile(text, base), 0, from, at);
    }
  }

  /** A piece within one line leaves the line count where it was until its last byte. */
  lemma SameLine(text: Bytes, at: nat, piece: Bytes)
    requires at + |piece| <= |text| && piece == text[at..at + |piece|] && OneLine(piece) && piece != []
    ensures Newlines(text[..at + |piece| - 1]) == Newlines(text[..at])
  {
    var head := piece[..|piece| - 1];
    NoNewlines(head);
    NewlinesConcat(text[..at], head);
    assert text[..at] + head == text[..at + |piece| - 1];
  }

  predicate NextPiece(text: Bytes, base: nat, at: nat, piece: Bytes, line: nat) {
    && 0 < |piece| <= |text| - at
    && piece == text[at..at + |piece|]
    && OneLine(piece)
    && line == base + Newlines(text[..at])
    && Boundary(text, at + |piece|)
  }

  lemma RestartGathers(g: Gathering, text: Bytes, base: nat, at: nat, piece: Bytes, line: nat)
    requires Gathered(g, text, base, at) && NextPiece(text, base, at, piece, line)
    ensures Gathered(Restart(g, piece, line), text, base, at + |piece|)
  {
    SameLine(text, at, piece);
    PushedCovers(g, text, base, at);
  }

  lemma ExtendGathers(g: Gathering, text: Bytes, base: nat, at: nat, piece: Bytes, line: nat)
    requires Gathered(g, text, base, at) && NextPiece(text, base, at, piece, line)
    ensures Gathered(Extend(g, piece, line), text, base, at + |piece|)
  {
    SameLine(text, at, piece);
    var from := at - |g.buffer|;
    assert text[from..at] + text[at..at + |piece|] == text[from..at + |piece|];
    if g.buffer == [] {
      assert text[..from] == [];
    }
  }

  lemma FeedGathers(g: Gathering, text: Bytes, base: nat, at: nat, piece: Bytes, line: nat, options: Options)
    requires Gathered(g, text, base, at) && NextPiece(text, base, at, piece, line)
    ensures Gathered(Feed(g, piece, line, options), text, base, at + |piece|)
  {
    RestartGathers(g, text, base, at, piece, line);
    ExtendGathers(g, text, base, at, piece, line);
  }

  /** A stretch of one line, cut at a boundary inside it, ends before any line feed. */
  lemma CutWithinTheLine(text: Bytes, at: nat, cut: nat, to: nat)
    requires at < cut <= to <= |text| && OneLine(text[at..to])
    ensures OneLine(text[at..cut]) && OneLine(text[cut..to])
    ensures cut < to ==> Newlines(text[..cut]) == Newlines(text[..at])
  {
    assert forall k :: 0 <= k < cut - at ==> text[at..cut][k] == text[at..to][k];
    assert forall k :: 0 <= k < to - cut ==> text[cut..to][k] == text[at..to][k + cut - at];
    if cut < to {
      NoNewlines(text[at..cut]);
      NewlinesConcat(text[..at], text[at..cut]);
      assert text[..at] + text[at..cut] == text[..cut];
    }
  }

  /** The first slice of a stretch of the text is a stretch of the text, and so is the rest. */
  lemma FirstSlice(pieces: seq<Bytes>, text: Bytes, at: nat, to: nat)
    requires at <= to <= |text| && Boundary(text, to) && pieces != [] && Slices(pieces, text[at..to])
    ensures var cut := at + |pieces[0]|;
      at < cut <= to && pieces[0] == text[at..cut] && Boundary(text, cut) && Slices(pieces[1..], text[cut..to])
  {
    var n := |pieces[0]|;
    assert text[at..to][..n] == text[at..at + n] && text[at..to][n..] == text[at + n..to];
    assert n < to - at ==> text[at..to][n] == text[at + n];
  }

  lemma {:induction false} FeedAllGathers(
      g: Gathering, text: Bytes, base: nat, at: nat, to: nat, pieces: seq<Bytes>, line: nat, options: Options)
    requires Gathered(g, text, base, at) && at <= to <= |text| && Boundary(text, to)
    requires Slices(pieces, text[at..to]) && OneLine(text[at..to])
    requires line == base + Newlines(text[..at])
    ensures Gathered(FeedAll(g, pieces, line, options), text, base, to)
    decreases |pieces|
  {
    hide MustFlush, Gathered, Restart, Extend, Newlines;
    if pieces == [] {
      assert at == to;
    } else {
      var cut := at + |pieces[0]|;
      FirstSlice(pieces, text, at, to);
      CutWithinTheLine(text, at, cut, to);
      FeedGathers(g, text, base, at, pieces[0], line, options);
      if cut == to {
        assert pieces[1..] == [];
      } else {
        FeedAllGathers(Feed(g, pieces[0], line, options), text, base, cut, to, pieces[1..], line, options);
      }
    }
  }

  /** The line at `at`, as a stretch of the text: it ends in a line feed unless it is the last. */
  lemma LineAt(text: Bytes, at: nat)
    requires at < |text|
    ensures var to := at + LineLength(text[at..]);
      && at < to <= |text|
      && text[at..][..to - at] == text[at..to] && text[at..][to - at..] == text[to..]
      && OneLine(text[at..to])
      && (to < |text| ==> text[to - 1] == LF)
  {
    var n := LineLength(text[at..]);
    assert text[at..][..n] == text[at..at + n];
    assert text[at..][n - 1] == text[at + n - 1];
  }

  /** After a whole line the next one starts on a boundary, one line further down. */
  lemma NextLine(text: Bytes, at: nat, to: nat)
    requires Utf8(text) && at < to <= |text| && OneLine(text[at..to])
    requires to < |text| ==> text[to - 1] == LF
    ensures Boundary(text, to)
    ensures to < |text| ==> Newlines(text[..to]) == Newlines(text[..at]) + 1
  {
    if to < |text| {
      BoundaryAfterAscii(text, to - 1);
      SameLine(text, at, text[at..to]);
      assert text[..to][..to - 1] == text[..to - 1];
    }
  }

  /** One line of the text, as the loop cuts it off: where it ends, its pieces, and what comes next. */
  lemma LineIsNext(text: Bytes, at: nat, ceiling: nat)
    requires Utf8(text) && at < |text|
    ensures var to, line := at + LineLength(text[at..]), LineFrom(text, at);
      && at < to <= |text| && line == text[at..to] == text[at..][..to - at] && text[at..][to - at..] == text[to..]
      && line != [] && OneLine(line) && Slices(PiecesOf(line, ceiling), line)
      && Boundary(text, to) && (to < |text| ==> text[to - 1] == LF)
      && (to < |text| ==> Newlines(text[..to]) == Newlines(text[..at]) + 1)
  {
    hide LineLength, PiecesOf, Slices, OneLine, Boundary, Newlines, Utf8;
    var to := at + LineLength(text[at..]);
    LineAt(text, at);
    NextLine(text, at, to);
    PiecesSliceTheLine(text[at..to], ceiling);
  }

  lemma {:induction false} FeedLinesGathers(
      g: Gathering, text: Bytes, base: nat, at: nat, line: nat, options: Options)
    requires Utf8(text) && at <= |text| && Gathered(g, text, base, at)
    requires at < |text| ==> line == base + Newlines(text[..at])
    ensures Gathered(FeedLines(g, text[at..], line, options), text, base, |text|)
    decreases |text| - at
  {
    hide Gathered, FeedAll, PiecesOf, Slices, OneLine, LineLength, Newlines, Boundary, Utf8;
    if at == |text| {
      assert text[at..] == [];
    } else {
      var to := at + LineLength(text[at..]);
      LineIsNext(text, at, options.maxEmbedBytes);
      var pieces := PiecesOf(text[at..to], options.maxEmbedBytes);
      FeedAllGathers(g, text, base, at, to, pieces, line, options);
      FeedLinesGathers(FeedAll(g, pieces, line, options), text, base, to, line + 1, options);
    }
  }

  // ----- How long a chunk gets -----

  predicate LineStart(text: Bytes, at: nat) {
    at < |text| && (at == 0 || text[at - 1] == LF)
  }

  /** The line of the text that starts at `at`. */
  function LineFrom(text: Bytes, at: nat): Bytes
    requires at < |text|
  {
    text[at..at + LineLength(text[at..])]
  }

  /** One of the pieces some line of the text is cut into. */
  predicate IsPiece(piece: Bytes, text: Bytes, ceiling: nat) {
    exists at :: 0 <= at < |text| && LineStart(text, at) && piece in PiecesOf(LineFrom(text, at), ceiling)
  }

  /** Past the line ceiling only by leading white space: all but the last piece of it is blank. */
  predicate OverrunIsBlank(chunk: Bytes, text: Bytes, options: Options) {
    || |chunk| <= options.LineCeiling()
    || exists j :: 0 <= j < |chunk| && Blank(chunk[..j]) && IsPiece(chunk[j..], text, options.maxEmbedBytes)
  }

  /** Bounds kept while gathering: the embedder's when every piece meets it, the target's always. */
  predicate Bounded(g: Gathering, text: Bytes, options: Options, fits: bool) {
    && (forall k :: 0 <= k < |g.chunks| ==> OverrunIsBlank(g.chunks[k].text, text, options))
    && OverrunIsBlank(g.buffer, text, options)
    && (fits ==> AllWithin(g.chunks, options.maxEmbedBytes) && |g.buffer| <= options.maxEmbedBytes)
  }

  lemma LastPieceOverruns(blank: Bytes, piece: Bytes, text: Bytes, options: Options)
    requires Blank(blank) && piece != [] && IsPiece(piece, text, options.maxEmbedBytes)
    ensures OverrunIsBlank(blank + piece, text, options)
  {
    hide Blank, IsPiece;
    var joined, j := blank + piece, |blank|;
    assert joined[..j] == blank && joined[j..] == piece;
  }

  lemma FeedKeepsBounds(g: Gathering, piece: Bytes, line: nat, text: Bytes, options: Options, fits: bool)
    requires Bounded(g, text, options, fits) && piece != [] && IsPiece(piece, text, options.maxEmbedBytes)
    requires fits ==> |piece| <= options.maxEmbedBytes
    ensures Bounded(Feed(g, piece, line, options), text, options, fits)
  {
    hide IsPiece;
    if MustFlush(g.buffer, piece, options) {
      LastPieceOverruns([], piece, text, options);
      assert [] + piece == piece;
    } else if Blank(g.buffer) {
      LastPieceOverruns(g.buffer, piece, text, options);
    }
  }

  lemma {:induction false} FeedAllKeepsBounds(
      g: Gathering, pieces: seq<Bytes>, line: nat, text: Bytes, options: Options, fits: bool)
    requires Bounded(g, text, options, fits)
    requires forall k :: 0 <= k < |pieces| ==> pieces[k] != [] && IsPiece(pieces[k], text, options.maxEmbedBytes)
    requires fits ==> PiecesWithin(pieces, options.maxEmbedBytes)
    ensures Bounded(FeedAll(g, pieces, line, options), text, options, fits)
    decreases |pieces|
  {
    hide Bounded, Feed, IsPiece;
    if pieces != [] {
      FeedKeepsBounds(g, pieces[0], line, text, options, fits);
      FeedAllKeepsBounds(Feed(g, pieces[0], line, options), pieces[1..], line, text, options, fits);
    }
  }

  lemma {:induction false} NoSliceIsEmpty(pieces: seq<Bytes>, line: Bytes, k: nat)
    requires Slices(pieces, line) && k < |pieces|
    ensures pieces[k] != []
    decreases |pieces|
  {
    if k > 0 {
      NoSliceIsEmpty(pieces[1..], line[|pieces[0]|..], k - 1);
    }
  }

  lemma PiecesOfTheLine(text: Bytes, at: nat, ceiling: nat, k: nat)
    requires Utf8(text) && LineStart(text, at) && k < |PiecesOf(LineFrom(text, at), ceiling)|
    ensures var piece := PiecesOf(LineFrom(text, at), ceiling)[k]; piece != [] && IsPiece(piece, text, ceiling)
  {
    hide LineLength, PiecesOf, Slices, OneLine, Newlines, Boundary, Utf8;
    LineIsNext(text, at, ceiling);
    NoSliceIsEmpty(PiecesOf(LineFrom(text, at), ceiling), LineFrom(text, at), k);
  }

  lemma LineFits(text: Bytes, at: nat, ceiling: nat)
    requires Utf8(text) && at < |text| && Boundary(text, at) && Widest(text) <= ceiling
    ensures PiecesWithin(PiecesOf(LineFrom(text, at), ceiling), ceiling)
  {
    hide LineLength, PiecesOf, Slices, OneLine, Newlines, Boundary, Utf8, Widest, PiecesWithin;
    LineIsNext(text, at, ceiling);
    PartIsUtf8(text, at, at + LineLength(text[at..]));
    PiecesFit(LineFrom(text, at), ceiling);
  }

  /** A whole line fed in keeps the bounds. */
  lemma LineKeepsBounds(g: Gathering, text: Bytes, at: nat, line: nat, options: Options, fits: bool)
    requires Utf8(text) && LineStart(text, at) && Boundary(text, at) && Bounded(g, text, options, fits)
    requires fits ==> Widest(text) <= options.maxEmbedBytes
    ensures Bounded(FeedAll(g, PiecesOf(LineFrom(text, at), options.maxEmbedBytes), line, options), text, options, fits)
  {
    hide Bounded, FeedAll, LineFrom, PiecesOf, IsPiece, Boundary, Utf8, Widest, PiecesWithin;
    var pieces := PiecesOf(LineFrom(text, at), options.maxEmbedBytes);
    forall k | 0 <= k < |pieces|
      ensures pieces[k] != [] && IsPiece(pieces[k], text, options.maxEmbedBytes)
    {
      PiecesOfTheLine(text, at, options.maxEmbedBytes, k);
    }
    if fits {
      LineFits(text, at, options.maxEmbedBytes);
    }
    FeedAllKeepsBounds(g, pieces, line, text, options, fits);
  }

  lemma {:induction false} FeedLinesKeepsBounds(
      g: Gathering, text: Bytes, at: nat, line: nat, options: Options, fits: bool)
    requires Utf8(text) && at <= |text| && Boundary(text, at) && Bounded(g, text, options, fits)
    requires at < |text| ==> LineStart(text, at)
    requires fits ==> Widest(text) <= options.maxEmbedBytes
    ensures Bounded(FeedLines(g, text[at..], line, options), text, options, fits)
    decreases |text| - at
  {
    hide Bounded, FeedAll, PiecesOf, Slices, OneLine, LineLength, Newlines, Boundary, Utf8, Widest;
    if at == |text| {
      assert text[at..] == [];
    } else {
      var to := at + LineLength(text[at..]);
      LineIsNext(text, at, options.maxEmbedBytes);
      LineKeepsBounds(g, text, at, line, options, fits);
      var next := FeedAll(g, PiecesOf(text[at..to], options.maxEmbedBytes), line, options);
      FeedLinesKeepsBounds(next, text, to, line + 1, options, fits);
    }
  }

  lemma LineChunksCover(text: Bytes, firstLine: nat, options: Options)
    requires Utf8(text)
    ensures Covers(LineChunks(text, firstLine, options), text, firstLine, 0, |text|)
  {
    hide FeedLines;
    var start := Gathering([], [], firstLine, firstLine);
    assert text[0..] == text && text[..0] == [];
    FeedLinesGathers(start, text, firstLine, 0, firstLine, options);
    PushedCovers(FeedLines(start, text, firstLine, options), text, firstLine, |text|);
  }

  lemma LineChunksAreBounded(text: Bytes, firstLine: nat, options: Options)
    requires Utf8(text)
    ensures var chunks := LineChunks(text, firstLine, options);
      && (Widest(text) <= options.maxEmbedBytes ==> AllWithin(chunks, options.maxEmbedBytes))
      && forall k :: 0 <= k < |chunks| ==> OverrunIsBlank(chunks[k].text, text, options)
  {
    hide FeedLines, OverrunIsBlank, Widest;
    var start := Gathering([], [], firstLine, firstLine);
    EmptyNeverOverruns(text, options);
    assert text[0..] == text;
    FeedLinesKeepsBounds(start, text, 0, firstLine, options, Widest(text) <= options.maxEmbedBytes);
  }

  lemma EmptyNeverOverruns(text: Bytes, options: Options)
    ensures OverrunIsBlank([], text, options)
  {
  }

  /**
   * The line splitter, for every text and every setting. Its chunks tile the text byte for byte on
   * char boundaries with exact line numbers; they all meet the embedder's ceiling exactly when no
   * character alone is wider than it, so always when it is at least four; and one that overruns
   * min(target, ceiling) is white space in all but its last piece.
   */
  lemma LineChunksAreSound(text: Bytes, firstLine: nat, options: Options)
    requires Utf8(text)
    ensures var chunks := LineChunks(text, firstLine, options);
      && Covers(chunks, text, firstLine, 0, |text|)
      && Joined(chunks) == text
      && (AllWithin(chunks, options.maxEmbedBytes) <==> Widest(text) <= options.maxEmbedBytes)
      && forall k :: 0 <= k < |chunks| ==> OverrunIsBlank(chunks[k].text, text, options)
  {
    var chunks := LineChunks(text, firstLine, options);
    LineChunksCover(text, firstLine, options);
    LineChunksAreBounded(text, firstLine, options);
    hide LineChunks, OverrunIsBlank;
    assert text[..|text|] == text && text[0..|text|] == text;
    CoveringReproducesTheText(chunks, text, firstLine, 0, |text|);
    if AllWithin(chunks, options.maxEmbedBytes) {
      CoveringHoldsTheWidestChar(chunks, text, firstLine, |text|, options.maxEmbedBytes);
    }
  }
}
