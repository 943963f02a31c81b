/** What a blank stretch of bytes is: white-space characters, each spelled out in UTF-8, and nothing else. */
module WhiteSpace {
  import opened Prelude
  import opened Text

  /** Section 3 of RFC 3629, for the code points of up to three bytes. */
  function Encoded(point: int): Bytes
    requires 0 <= point < 0x1_0000
  {
    if point < 0x80 then [point]
    else if point < 0x800 then [0xC0 + point / 0x40, 0x80 + point % 0x40]
    else [0xE0 + point / 0x1000, 0x80 + point / 0x40 % 0x40, 0x80 + point % 0x40]
  }

  predicate Surrogate(point: int) {
    0xD800 <= point < 0xE000
  }

  /** The two directions agree on every code point up to three bytes. */
  lemma EncodedIsRead(point: int)
    requires 0 <= point < 0x1_0000 && !Surrogate(point)
    ensures Width(Encoded(point)) == |Encoded(point)| && CodePoint(Encoded(point)) == point
  {
    assert point / 0x1000 * 0x40 + point / 0x40 % 0x40 == point / 0x40;
  }

  lemma ReadIsEncoded(c: Bytes)
    requires c != [] && Width(c) == |c| <= 3
    ensures 0 <= CodePoint(c) < 0x1_0000 && Encoded(CodePoint(c)) == c
  {
    var point := CodePoint(c);
    if |c| == 2 {
      assert point / 0x40 == c[0] - 0xC0 && point % 0x40 == c[1] - 0x80;
    } else if |c| == 3 {
      assert point / 0x1000 == c[0] - 0xE0;
      assert point / 0x40 % 0x40 == c[1] - 0x80 && point % 0x40 == c[2] - 0x80;
    }
  }

  predicate Spaces(points: seq<int>) {
    forall k :: 0 <= k < |points| ==> SpacePoint(points[k])
  }

  function Spelled(points: seq<int>): Bytes
    requires Spaces(points)
  {
    if points == [] then [] else Encoded(points[0]) + Spelled(points[1..])
  }

  lemma {:induction false} BlankIsSpelled(s: Bytes) returns (points: seq<int>)
    requires Blank(s)
    ensures Spaces(points) && Spelled(points) == s
    decreases |s|
  {
    hide SpacePoint, Encoded, CodePoint;
    if s == [] {
      points := [];
    } else {
      var w := Width(s);
      var first, rest := s[..w], s[w..];
      SpaceIsEncoded(s);
      var more := BlankIsSpelled(rest);
      points := [CodePoint(first)] + more;
      assert points[1..] == more;
      assert first + rest == s;
    }
  }

  lemma SpaceIsEncoded(s: Bytes)
    requires Width(s) > 0 && SpaceChar(s[..Width(s)])
    ensures var point := CodePoint(s[..Width(s)]); SpacePoint(point) && Encoded(point) == s[..Width(s)]
  {
    WidthOfPrefix(s, Width(s));
    ReadIsEncoded(s[..Width(s)]);
  }

  lemma {:induction false} SpelledIsBlank(points: seq<int>)
    requires Spaces(points)
    ensures Blank(Spelled(points))
  {
    hide SpacePoint, Encoded, CodePoint, Width, Surrogate;
    if points != [] {
      SpacesAreNarrow(points[0]);
      SpelledIsBlank(points[1..]);
      var first, rest := Encoded(points[0]), Spelled(points[1..]);
      WidthOfExtension(first, rest);
      assert (first + rest)[..|first|] == first && (first + rest)[|first|..] == rest;
    }
  }

  lemma SpacesAreNarrow(point: int)
    requires SpacePoint(point)
    ensures 0 <= point < 0x1_0000
    ensures 0 < Width(Encoded(point)) == |Encoded(point)| && SpaceChar(Encoded(point))
  {
    EncodedIsRead(point);
  }

  /** A stretch is blank exactly when it spells out white-space characters and nothing else. */
  lemma BlankExactly(s: Bytes)
    ensures Blank(s) <==> exists points: seq<int> :: Spaces(points) && Spelled(points) == s
  {
    hide Blank, Spelled, Spaces;
    if Blank(s) {
      var points := BlankIsSpelled(s);
    }
    if points: seq<int> :| Spaces(points) && Spelled(points) == s {
      SpelledIsBlank(points);
    }
  }
}
