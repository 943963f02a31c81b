/** Byte offsets to line numbers: the table of line starts and the binary search over it. */
module LineIndex {
  import opened Prelude
  import opened Text

  function LineStarts(source: Bytes): seq<nat> {
    if source == [] then [0]
    else
      var last := |source| - 1;
      LineStarts(source[..last]) + if source[last] == LF then [|source|] else []
  }

  predicate Ascending(s: seq<nat>) {
    forall i, j :: 0 <= i < j < |s| ==> s[i] < s[j]
  }

  /** How many entries are at most `byte`. */
  function CountUpTo(starts: seq<nat>, byte: nat): nat {
    if starts == [] then 0
    else CountUpTo(starts[..|starts| - 1], byte) + if starts[|starts| - 1] <= byte then 1 else 0
  }

  lemma {:induction false} CountIsTheSplit(starts: seq<nat>, byte: nat, index: nat)
    requires index <= |starts|
    requires forall k :: 0 <= k < index ==> starts[k] <= byte
    requires forall k :: index <= k < |starts| ==> starts[k] > byte
    ensures CountUpTo(starts, byte) == index
  {
    if starts != [] {
      CountIsTheSplit(starts[..|starts| - 1], byte, Min(index, |starts| - 1));
    }
  }

  lemma {:induction false} LineStartsAscend(source: Bytes)
    ensures Ascending(LineStarts(source))
    ensures forall k :: 0 <= k < |LineStarts(source)| ==> LineStarts(source)[k] <= |source|
  {
    if source != [] {
      LineStartsAscend(source[..|source| - 1]);
    }
  }

  /** The slice search the line lookup relies on: the entry itself, or where it would go. */
  method BinarySearch(starts: seq<nat>, byte: nat) returns (found: bool, index: nat)
    requires Ascending(starts)
    ensures index <= |starts|
    ensures found ==> index < |starts| && starts[index] == byte
    ensures !found ==> forall k :: 0 <= k < index ==> starts[k] < byte
    ensures !found ==> forall k :: index <= k < |starts| ==> starts[k] > byte
  {
    var lo, hi := 0, |starts|;
    while lo < hi
      invariant 0 <= lo <= hi <= |starts|
      invariant forall k :: 0 <= k < lo ==> starts[k] < byte
      invariant forall k :: hi <= k < |starts| ==> starts[k] > byte
    {
      var mid := lo + (hi - lo) / 2;
      if starts[mid] == byte {
        return true, mid;
      } else if starts[mid] < byte {
        lo := mid + 1;
      } else {
        hi := mid;
      }
    }
    return false, lo;
  }

  /** The table lookup: the number of lines that start at or before `byte`. */
  method LineOf(starts: seq<nat>, byte: nat) returns (line: nat)
    requires Ascending(starts)
    ensures line == CountUpTo(starts, byte)
  {
    var found, index := BinarySearch(starts, byte);
    if found {
      CountIsTheSplit(starts, byte, index + 1);
      return index + 1;
    }
    CountIsTheSplit(starts, byte, index);
    return index;
  }

  lemma {:induction false} CountOfNone(starts: seq<nat>, byte: nat)
    requires forall k :: 0 <= k < |starts| ==> starts[k] <= byte
    ensures CountUpTo(starts, byte) == |starts|
  {
    CountIsTheSplit(starts, byte, |starts|);
  }

  /** One line start for the head of the file and one after each line feed. */
  lemma {:induction false} StartsCountNewlines(source: Bytes)
    ensures |LineStarts(source)| == 1 + Newlines(source)
  {
    if source != [] {
      StartsCountNewlines(source[..|source| - 1]);
    }
  }

  /** The table lookup is the definition: one more than the line feeds before the byte. */
  lemma {:induction false} LineLookupIsExact(source: Bytes, byte: nat)
    requires byte <= |source|
    ensures CountUpTo(LineStarts(source), byte) == 1 + Newlines(source[..byte])
    decreases |source|
  {
    LineStartsAscend(source);
    if byte == |source| {
      assert source[..byte] == source;
      CountOfNone(LineStarts(source), byte);
      StartsCountNewlines(source);
    } else {
      var last := |source| - 1;
      LineLookupIsExact(source[..last], byte);
      assert source[..last][..byte] == source[..byte];
      if source[last] == LF {
        assert LineStarts(source)[..|LineStarts(source)| - 1] == LineStarts(source[..last]);
      } else {
        assert LineStarts(source) == LineStarts(source[..last]);
      }
    }
  }
}
