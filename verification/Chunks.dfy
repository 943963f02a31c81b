/** Chunks, chunk limits, and what it means for chunks to tile a stretch of a file. */
module Chunks {
  import opened Prelude
  import opened Text

  datatype Splitter = Lines | Parsed

  datatype Chunk = Chunk(startLine: nat, endLine: nat, text: Bytes, symbol: Option<string>, splitter: Splitter)

  datatype Options = Options(targetChars: nat, maxChars: nat, maxEmbedBytes: nat) {
    function SplitCeiling(): nat {
      Min(maxChars, maxEmbedBytes)
    }

    function LineCeiling(): nat {
      Min(targetChars, maxEmbedBytes)
    }
  }

  // ----- Tiling, whatever it means for one chunk to be in its place -----

  type Placing = (Chunk, nat, nat) -> bool

  /** In order, without gap or overlap, the chunks fill `lo..hi`, each of them `placed`. */
  predicate Tiles(chunks: seq<Chunk>, placed: Placing, lo: nat, hi: nat)
    decreases |chunks|
  {
    if chunks == [] then lo == hi
    else
      var last := chunks[|chunks| - 1];
      && lo + |last.text| <= hi
      && placed(last, hi - |last.text|, hi)
      && Tiles(chunks[..|chunks| - 1], placed, lo, hi - |last.text|)
  }

  lemma TilesAppend(chunks: seq<Chunk>, chunk: Chunk, placed: Placing, lo: nat, mid: nat, hi: nat)
    requires Tiles(chunks, placed, lo, mid) && placed(chunk, mid, hi) && lo <= mid && hi == mid + |chunk.text|
    ensures Tiles(chunks + [chunk], placed, lo, hi)
  {
    assert (chunks + [chunk])[..|chunks|] == chunks;
  }

  lemma {:induction false} TilesConcat(
      first: seq<Chunk>, second: seq<Chunk>, placed: Placing, lo: nat, mid: nat, hi: nat)
    requires Tiles(first, placed, lo, mid) && Tiles(second, placed, mid, hi) && lo <= mid
    ensures Tiles(first + second, placed, lo, hi)
    decreases |second|
  {
    if second == [] {
      assert first + second == first;
    } else {
      var n := |second| - 1;
      TilesConcat(first, second[..n], placed, lo, mid, hi - |second[n].text|);
      assert (first + second)[..|first| + n] == first + second[..n];
    }
  }

  /** Re-reading every placement, possibly against a larger file, keeps the tiling. */
  lemma {:induction false} TilesShift(
      chunks: seq<Chunk>, placed: Placing, elsewhere: Placing, shift: nat, lo: nat, hi: nat)
    requires Tiles(chunks, placed, lo, hi)
    requires forall c: Chunk, from: nat, to: nat | placed(c, from, to) && to <= hi ::
      elsewhere(c, shift + from, shift + to)
    ensures Tiles(chunks, elsewhere, shift + lo, shift + hi)
    decreases |chunks|
  {
    if chunks != [] {
      TilesShift(chunks[..|chunks| - 1], placed, elsewhere, shift, lo, hi - |chunks[|chunks| - 1].text|);
    }
  }

  function Joined(chunks: seq<Chunk>): Bytes {
    if chunks == [] then [] else Joined(chunks[..|chunks| - 1]) + chunks[|chunks| - 1].text
  }

  /** Each tile sits where the texts before it end. */
  lemma {:induction false} TilesPlaceEachChunk(chunks: seq<Chunk>, placed: Placing, lo: nat, hi: nat, k: nat)
    requires Tiles(chunks, placed, lo, hi) && k < |chunks|
    ensures lo + |Joined(chunks)| == hi
    ensures var from := lo + |Joined(chunks[..k])|;
      placed(chunks[k], from, from + |chunks[k].text|) && from + |chunks[k].text| <= hi
    decreases |chunks|
  {
    var n := |chunks| - 1;
    if n == 0 {
      assert chunks[..0] == [];
    } else if k < n {
      TilesPlaceEachChunk(chunks[..n], placed, lo, hi - |chunks[n].text|, k);
      assert chunks[..n][..k] == chunks[..k];
    } else {
      TilesPlaceEachChunk(chunks[..n], placed, lo, hi - |chunks[n].text|, 0);
    }
  }

  // ----- Chunks of a file -----

  predicate Numbered(chunk: Chunk, file: Bytes, base: nat, from: nat, to: nat) {
    && from < to <= |file|
    && chunk.startLine == base + Newlines(file[..from])
    && chunk.endLine == base + Newlines(file[..to - 1])
  }

  predicate Cut(chunk: Chunk, file: Bytes, from: nat, to: nat) {
    && from < to <= |file|
    && chunk.text == file[from..to]
    && Boundary(file, from) && Boundary(file, to)
  }

  /**
   * `chunk` is bytes `from..to` of `file`, cut on char boundaries. It says it starts on the line
   * of its first byte and ends on the line of its last byte, in a file whose first line is `base`.
   */
  predicate Placed(chunk: Chunk, file: Bytes, base: nat, from: nat, to: nat) {
    Cut(chunk, file, from, to) && Numbered(chunk, file, base, from, to)
  }

  function InFile(file: Bytes, base: nat): Placing {
    (chunk: Chunk, from: nat, to: nat) => Placed(chunk, file, base, from, to)
  }

  predicate Covers(chunks: seq<Chunk>, file: Bytes, base: nat, lo: nat, hi: nat) {
    Tiles(chunks, InFile(file, base), lo, hi)
  }

  /** Read off the output alone: the texts concatenate to the stretch they cover. */
  lemma {:induction false} CoveringReproducesTheText(chunks: seq<Chunk>, file: Bytes, base: nat, lo: nat, hi: nat)
    requires Covers(chunks, file, base, lo, hi) && lo <= hi <= |file|
    ensures Joined(chunks) == file[lo..hi]
    decreases |chunks|
  {
    if chunks != [] {
      hide Numbered, Boundary;
      var from := hi - |chunks[|chunks| - 1].text|;
      CoveringReproducesTheText(chunks[..|chunks| - 1], file, base, lo, from);
      assert Cut(chunks[|chunks| - 1], file, from, hi);
      assert file[lo..from] + file[from..hi] == file[lo..hi];
    }
  }

  /** Chunks of a fragment are chunks of the file, when the fragment knew its own first line. */
  lemma CoversInTheFile(chunks: seq<Chunk>, file: Bytes, base: nat, lo: nat, hi: nat)
    requires lo <= hi <= |file| && Boundary(file, lo) && Boundary(file, hi)
    requires Covers(chunks, file[lo..hi], base + Newlines(file[..lo]), 0, hi - lo)
    ensures Covers(chunks, file, base, lo, hi)
  {
    hide Cut, Numbered, Tiles;
    var part := InFile(file[lo..hi], base + Newlines(file[..lo]));
    forall c: Chunk, from: nat, to: nat | part(c, from, to) && to <= hi - lo
      ensures InFile(file, base)(c, lo + from, lo + to)
    {
      CutInTheFile(c, file, lo, hi, from, to);
      NumberedInTheFile(c, file, base, lo, hi, from, to);
    }
    TilesShift(chunks, part, InFile(file, base), lo, 0, hi - lo);
  }

  lemma SliceOfSlice(file: Bytes, lo: nat, hi: nat, from: nat, to: nat)
    requires lo <= hi <= |file| && from <= to <= hi - lo
    ensures file[lo..hi][from..to] == file[lo + from..lo + to]
  {
    var part, whole := file[lo..hi][from..to], file[lo + from..lo + to];
    forall k | 0 <= k < to - from ensures part[k] == whole[k] {
      assert part[k] == file[lo..hi][from + k];
    }
    assert part == whole;
  }

  lemma CutInTheFile(chunk: Chunk, file: Bytes, lo: nat, hi: nat, from: nat, to: nat)
    requires lo <= hi <= |file| && Boundary(file, lo) && Boundary(file, hi)
    requires Cut(chunk, file[lo..hi], from, to)
    ensures Cut(chunk, file, lo + from, lo + to)
  {
    BoundaryOfPart(file, lo, hi, from);
    BoundaryOfPart(file, lo, hi, to);
    SliceOfSlice(file, lo, hi, from, to);
  }

  lemma NewlinesBefore(file: Bytes, lo: nat, hi: nat, at: nat)
    requires lo <= hi <= |file| && at <= hi - lo
    ensures Newlines(file[..lo + at]) == Newlines(file[..lo]) + Newlines(file[lo..hi][..at])
  {
    NewlinesConcat(file[..lo], file[lo..hi][..at]);
    assert file[..lo] + file[lo..hi][..at] == file[..lo + at];
  }

  lemma NumberedInTheFile(chunk: Chunk, file: Bytes, base: nat, lo: nat, hi: nat, from: nat, to: nat)
    requires lo <= hi <= |file|
    requires Numbered(chunk, file[lo..hi], base + Newlines(file[..lo]), from, to)
    ensures Numbered(chunk, file, base, lo + from, lo + to)
  {
    NewlinesBefore(file, lo, hi, from);
    NewlinesBefore(file, lo, hi, to - 1);
  }

  predicate AllWithin(chunks: seq<Chunk>, limit: nat) {
    forall k :: 0 <= k < |chunks| ==> |chunks[k].text| <= limit
  }

  /** Chunks cut on char boundaries cannot all be shorter than the widest character they cover. */
  lemma {:induction false} CoveringHoldsTheWidestChar(
      chunks: seq<Chunk>, file: Bytes, base: nat, hi: nat, limit: nat)
    requires Covers(chunks, file, base, 0, hi) && hi <= |file| && AllWithin(chunks, limit)
    requires Utf8(file[..hi])
    ensures Widest(file[..hi]) <= limit
    decreases |chunks|
  {
    if chunks != [] {
      hide Utf8, Widest, Numbered;
      var n := |chunks| - 1;
      var from := hi - |chunks[n].text|;
      assert Cut(chunks[n], file, from, hi);
      assert Boundary(file[..hi], from) by {
        assert from < hi ==> file[..hi][from] == file[from];
      }
      CutKeepsUtf8(file[..hi], from);
      assert file[..hi][..from] == file[..from] && file[..hi][from..] == chunks[n].text;
      assert AllWithin(chunks[..n], limit);
      CoveringHoldsTheWidestChar(chunks[..n], file, base, from, limit);
    }
  }
}
