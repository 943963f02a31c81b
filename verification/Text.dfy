/**
 * Source text as UTF-8 bytes: well-formedness by section 4 of RFC 3629, char boundaries, line
 * feeds and Unicode white space.
 */
module Text {
  import opened Prelude

  type byte = b: int | 0 <= b < 256

  type Bytes = seq<byte>

  const LF: byte := 0x0A

  predicate Tail(b: byte) { 0x80 <= b < 0xC0 }

  predicate TailsAt(s: Bytes, from: nat, to: nat) {
    to <= |s| && forall k :: from <= k < to ==> Tail(s[k])
  }

  /** The width of the character `s` starts with, or zero when it starts with none. */
  function Width(s: Bytes): (w: nat)
    ensures w <= 4 && w <= |s| && TailsAt(s, 1, w)
    ensures w > 0 ==> !Tail(s[0])
  {
    if s == [] then 0
    else if s[0] < 0x80 then 1
    else if 0xC2 <= s[0] < 0xE0 then (if TailsAt(s, 1, 2) then 2 else 0)
    else if 0xE0 <= s[0] < 0xF0 then
      (if TailsAt(s, 1, 3) && (s[0] == 0xE0 ==> s[1] >= 0xA0) && (s[0] == 0xED ==> s[1] < 0xA0) then 3 else 0)
    else if 0xF0 <= s[0] < 0xF5 then
      (if TailsAt(s, 1, 4) && (s[0] == 0xF0 ==> s[1] >= 0x90) && (s[0] == 0xF4 ==> s[1] < 0x90) then 4 else 0)
    else 0
  }

  /** Every byte belongs to a well-formed character. */
  predicate Utf8(s: Bytes) {
    s == [] || (Width(s) > 0 && Utf8(s[Width(s)..]))
  }

  /** Rust's `is_char_boundary`: an end of the text, or a byte that does not continue a character. */
  predicate Boundary(s: Bytes, at: nat) {
    at == 0 || at == |s| || (at < |s| && !Tail(s[at]))
  }

  /** The widest character in the text. */
  function Widest(s: Bytes): (w: nat)
    ensures w <= 4 && w <= |s|
  {
    if Width(s) == 0 then 0
    else if Widest(s[Width(s)..]) > Width(s) then Widest(s[Width(s)..])
    else Width(s)
  }

  lemma WidthOfPrefix(s: Bytes, at: nat)
    requires Width(s) > 0 && Width(s) <= at <= |s|
    ensures Width(s[..at]) == Width(s) && s[..at][Width(s)..] == s[Width(s)..][..at - Width(s)]
  {
  }

  /** One character of well-formed text and the rest of it. */
  lemma FirstCharacter(s: Bytes)
    requires s != [] && Width(s) > 0
    ensures Utf8(s) <==> Utf8(s[Width(s)..])
    ensures Widest(s) == if Widest(s[Width(s)..]) > Width(s) then Widest(s[Width(s)..]) else Width(s)
  {
  }

  /** A boundary inside the text lies past its first character, and is a boundary of the rest. */
  lemma BoundaryPastTheFirst(s: Bytes, at: nat)
    requires Width(s) > 0 && 0 < at < |s| && Boundary(s, at)
    ensures Width(s) <= at && Boundary(s[Width(s)..], at - Width(s))
  {
    hide Width;
    var w := Width(s);
    assert w <= at;
    assert s[w..][at - w] == s[at];
  }

  /** `head` and `tail` are well-formed halves of `s`, and the widest character is in one of them. */
  predicate Halves(s: Bytes, head: Bytes, tail: Bytes) {
    && Utf8(head) && Utf8(tail)
    && Widest(head) <= Widest(s) && Widest(tail) <= Widest(s)
    && (Widest(s) <= Widest(head) || Widest(s) <= Widest(tail))
  }

  lemma HalvesAtTheEdge(s: Bytes)
    requires Utf8(s)
    ensures Halves(s, s, []) && Halves(s, [], s)
  {
  }

  /** Halves of the rest, with the first character put back. */
  lemma HalvesOfMore(s: Bytes, head: Bytes, tail: Bytes)
    requires s != [] && Width(s) > 0 && Width(s) == Width(head)
    requires Halves(s[Width(s)..], head[Width(s)..], tail)
    ensures Halves(s, head, tail)
  {
    hide Width, Utf8, Widest;
    FirstCharacter(s);
    FirstCharacter(head);
  }

  lemma Utf8HasWidth(s: Bytes)
    requires Utf8(s) && s != []
    ensures Width(s) > 0 && Utf8(s[Width(s)..])
  {
  }

  lemma {:induction false} HalvesOfCut(s: Bytes, at: nat)
    requires Utf8(s) && at <= |s| && Boundary(s, at)
    ensures Halves(s, s[..at], s[at..])
    decreases |s|
  {
    hide *;
    if at == 0 {
      HalvesAtTheEdge(s);
      assert s[at..] == s && s[..at] == [];
    } else if at == |s| {
      HalvesAtTheEdge(s);
      assert s[..at] == s && s[at..] == [];
    } else {
      Utf8HasWidth(s);
      var w := Width(s);
      BoundaryPastTheFirst(s, at);
      WidthOfPrefix(s, at);
      HalvesOfCut(s[w..], at - w);
      assert s[w..][at - w..] == s[at..];
      HalvesOfMore(s, s[..at], s[at..]);
    }
  }

  /** Cutting well-formed text on a char boundary leaves two well-formed texts. */
  lemma CutKeepsUtf8(s: Bytes, at: nat)
    requires Utf8(s) && at <= |s| && Boundary(s, at)
    ensures Utf8(s[..at]) && Utf8(s[at..])
    ensures Widest(s[..at]) <= Widest(s) && Widest(s[at..]) <= Widest(s)
    ensures Widest(s) <= Widest(s[..at]) || Widest(s) <= Widest(s[at..])
  {
    hide Utf8, Widest;
    HalvesOfCut(s, at);
  }

  lemma WidestIsPositive(s: Bytes)
    requires Utf8(s) && s != []
    ensures Widest(s) >= 1
  {
    FirstCharacter(s);
  }

  lemma PartIsUtf8(source: Bytes, lo: nat, hi: nat)
    requires Utf8(source) && lo <= hi <= |source| && Boundary(source, lo) && Boundary(source, hi)
    ensures Utf8(source[lo..hi]) && Widest(source[lo..hi]) <= Widest(source)
  {
    hide Utf8, Widest;
    CutKeepsUtf8(source, hi);
    assert source[..hi][lo..] == source[lo..hi];
    assert Boundary(source[..hi], lo) by {
      assert lo < hi ==> source[..hi][lo] == source[lo];
    }
    CutKeepsUtf8(source[..hi], lo);
  }

  /** No four bytes of well-formed text in a row lack a boundary, whatever its widest character. */
  lemma {:induction false} BoundaryNearby(s: Bytes, at: nat) returns (cut: nat)
    requires Utf8(s) && s != [] && at <= |s|
    ensures Boundary(s, cut) && cut <= at < cut + Widest(s)
    decreases |s|
  {
    var w := Width(s);
    if at < w {
      cut := 0;
    } else if s[w..] == [] {
      cut := |s|;
    } else {
      var rest := BoundaryNearby(s[w..], at - w);
      cut := rest + w;
      assert rest == 0 ==> !Tail(s[w]);
      assert 0 < rest < |s[w..]| ==> s[w..][rest] == s[cut];
    }
  }

  /** A boundary of a part that starts on a boundary is a boundary of the whole. */
  lemma BoundaryOfPart(s: Bytes, lo: nat, hi: nat, at: nat)
    requires lo <= hi <= |s| && Boundary(s, lo) && Boundary(s, hi) && at <= hi - lo
    ensures Boundary(s[lo..hi], at) <==> Boundary(s, lo + at)
  {
    if 0 < at < hi - lo {
      assert s[lo..hi][at] == s[lo + at];
    }
  }

  /** A new character starts right after every ASCII byte. */
  lemma {:induction false} BoundaryAfterAscii(s: Bytes, at: nat)
    requires Utf8(s) && at < |s| && s[at] < 0x80
    ensures Boundary(s, at + 1)
    decreases |s|
  {
    var w := Width(s);
    if at < w {
      assert at == 0 && w == 1;
      assert s[w..] != [] ==> s[w..][0] == s[w];
    } else {
      BoundaryAfterAscii(s[w..], at - w);
      assert at + 1 < |s| ==> s[w..][at - w + 1] == s[at + 1];
    }
  }

  // ----- Line feeds -----

  function Newlines(s: Bytes): nat {
    if s == [] then 0 else Newlines(s[..|s| - 1]) + if s[|s| - 1] == LF then 1 else 0
  }

  lemma {:induction false} NewlinesConcat(a: Bytes, b: Bytes)
    ensures Newlines(a + b) == Newlines(a) + Newlines(b)
  {
    if b == [] {
      assert a + b == a;
    } else {
      NewlinesConcat(a, b[..|b| - 1]);
      assert (a + b)[..|a + b| - 1] == a + b[..|b| - 1];
    }
  }

  /** A stretch with no line feed before its last byte. */
  predicate OneLine(s: Bytes) {
    forall k :: 0 <= k < |s| - 1 ==> s[k] != LF
  }

  lemma {:induction false} NoNewlines(s: Bytes)
    requires forall k :: 0 <= k < |s| ==> s[k] != LF
    ensures Newlines(s) == 0
  {
    if s != [] {
      NoNewlines(s[..|s| - 1]);
    }
  }

  // ----- White space -----

  /** The code point a well-formed character of up to three bytes encodes; no wider one is white space. */
  function CodePoint(c: Bytes): int {
    if |c| == 1 then c[0] as int
    else if |c| == 2 then (c[0] as int - 0xC0) * 0x40 + (c[1] as int - 0x80)
    else if |c| == 3 then (c[0] as int - 0xE0) * 0x1000 + (c[1] as int - 0x80) * 0x40 + (c[2] as int - 0x80)
    else 0
  }

  predicate SpaceChar(c: Bytes) {
    SpacePoint(CodePoint(c))
  }

  /** `trim().is_empty()`: white space from end to end. */
  predicate Blank(s: Bytes) {
    s == [] || (Width(s) > 0 && SpaceChar(s[..Width(s)]) && Blank(s[Width(s)..]))
  }

  lemma {:induction false} BlankConcat(a: Bytes, b: Bytes)
    requires Blank(a)
    ensures Blank(a + b) <==> Blank(b)
    decreases |a|
  {
    if a == [] {
      assert a + b == b;
    } else {
      var w := Width(a);
      assert (a + b)[..|a|] == a;
      WidthOfExtension(a, b);
      assert (a + b)[..w] == a[..w] && (a + b)[w..] == a[w..] + b;
      BlankConcat(a[w..], b);
    }
  }

  lemma WidthOfExtension(a: Bytes, b: Bytes)
    requires Width(a) > 0
    ensures Width(a + b) == Width(a)
  {
    assert forall k :: 0 <= k < |a| ==> (a + b)[k] == a[k];
  }
}
