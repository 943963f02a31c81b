/**
 * Untrusted text printed as Markdown code, and the CommonMark 0.31.2 reader that has to find it
 * again: code spans (section 6.1) and fenced code blocks (section 4.5).
 */
module CodeFences {
  import opened Prelude

  /** Unicode category Cc. */
  predicate IsControl(c: char) {
    c < ' ' || '\U{7F}' <= c <= '\U{9F}'
  }

  /** The characters of a text that pass a test, in order. */
  function Filtered(text: string, keep: char -> bool): (clean: string)
    ensures |clean| <= |text|
    ensures forall c :: c in clean <==> c in text && keep(c)
    ensures clean == text <==> forall c :: c in text ==> keep(c)
  {
    if text == [] then []
    else
      assert text == [text[0]] + text[1..];
      if keep(text[0]) then [text[0]] + Filtered(text[1..], keep) else Filtered(text[1..], keep)
  }

  /** How many backticks a text starts with. */
  function Lead(s: string): (n: nat)
    ensures n <= |s|
    ensures forall k :: 0 <= k < n ==> s[k] == '`'
    ensures n < |s| ==> s[n] != '`'
  {
    if s == [] || s[0] != '`' then 0 else 1 + Lead(s[1..])
  }

  /** The lengths of the pieces between characters other than backticks. */
  function Runs(s: string): (lengths: seq<nat>)
    ensures lengths != []
  {
    if s == [] then [0]
    else
      var rest := Runs(s[1..]);
      if s[0] == '`' then [rest[0] + 1] + rest[1..] else [0] + rest
  }

  function Largest(lengths: seq<nat>): (n: nat)
    ensures forall k :: 0 <= k < |lengths| ==> lengths[k] <= n
    ensures n == 0 || n in lengths
  {
    if lengths == [] then 0 else Max(lengths[0], Largest(lengths[1..]))
  }

  function LongestRun(s: string): nat {
    Largest(Runs(s))
  }

  function Ticks(n: nat): (fence: string)
    ensures |fence| == n && forall k :: 0 <= k < n ==> fence[k] == '`'
  {
    seq(n, _ => '`')
  }

  // ----- Printing -----

  function CleanInline(text: string): string {
    Filtered(text, c => !IsControl(c))
  }

  function CodeSpan(text: string): string {
    var clean := CleanInline(text);
    var fence := Ticks(LongestRun(clean) + 1);
    if '`' in clean then fence + " " + clean + " " + fence else fence + clean + fence
  }

  function CleanBlock(text: string): string {
    Filtered(text, c => !IsControl(c) || c == '\n' || c == '\t')
  }

  function TrimStart(s: string): (t: string)
    ensures |t| <= |s| && t == s[|s| - |t|..]
    ensures forall k :: 0 <= k < |s| - |t| ==> s[k] == '\n'
    ensures t != [] ==> t[0] != '\n'
  {
    if s != [] && s[0] == '\n' then TrimStart(s[1..]) else s
  }

  function TrimEnd(s: string): (t: string)
    ensures t <= s
    ensures forall k :: |t| <= k < |s| ==> s[k] == '\n'
    ensures t != [] ==> t[|t| - 1] != '\n'
  {
    if s != [] && s[|s| - 1] == '\n' then TrimEnd(s[..|s| - 1]) else s
  }

  /** The text between its leading and its trailing newlines. */
  function TrimNewlines(s: string): string {
    TrimEnd(TrimStart(s))
  }

  function CodeBlock(text: string): string {
    var clean := CleanBlock(text);
    var fence := Ticks(Max(LongestRun(clean), 2) + 1);
    fence + "\n" + TrimNewlines(clean) + "\n" + fence
  }

  // ----- Runs of backticks -----

  /** Every run of backticks in a text is shorter than `n`. */
  ghost predicate ShortRuns(s: string, n: nat) {
    forall k :: 0 <= k <= |s| ==> Lead(s[k..]) < n
  }

  lemma {:induction false} FirstRunIsLead(s: string)
    ensures Runs(s)[0] == Lead(s)
  {
    if s != [] {
      FirstRunIsLead(s[1..]);
    }
  }

  lemma {:induction false} RunsAreBounded(s: string, k: nat, bound: nat)
    requires k <= |s| && forall j :: 0 <= j < |Runs(s)| ==> Runs(s)[j] <= bound
    ensures Lead(s[k..]) <= bound
    decreases |s|
  {
    if k == 0 {
      FirstRunIsLead(s);
      assert s[0..] == s;
    } else {
      assert s[k..] == s[1..][k - 1..];
      var rest := Runs(s[1..]);
      forall j | 0 <= j < |rest| ensures rest[j] <= bound {
        assert if s[0] == '`' then (j == 0 && rest[0] + 1 == Runs(s)[0]) || rest[j] == Runs(s)[j]
               else rest[j] == Runs(s)[j + 1];
      }
      RunsAreBounded(s[1..], k - 1, bound);
    }
  }

  lemma LongestBoundsRuns(s: string, n: nat)
    requires LongestRun(s) < n
    ensures ShortRuns(s, n)
  {
    forall k | 0 <= k <= |s| ensures Lead(s[k..]) < n {
      RunsAreBounded(s, k, LongestRun(s));
    }
  }

  lemma LeadIs(s: string, n: nat)
    requires n <= |s| && (forall k :: 0 <= k < n ==> s[k] == '`') && (n < |s| ==> s[n] != '`')
    ensures Lead(s) == n
  {
    assert Lead(s) <= n;
  }

  lemma LeadOf(ticks: nat, rest: string)
    requires rest != [] ==> rest[0] != '`'
    ensures Lead(Ticks(ticks) + rest) == ticks
  {
    LeadIs(Ticks(ticks) + rest, ticks);
  }

  lemma LeadStaysInside(s: string, rest: string)
    requires s != [] && s[|s| - 1] != '`'
    ensures Lead(s + rest) == Lead(s) < |s|
  {
    LeadIs(s + rest, Lead(s));
  }

  lemma FirstRunIsShort(s: string, n: nat)
    requires ShortRuns(s, n)
    ensures Lead(s) < n
  {
    assert s[0..] == s;
  }

  lemma ShortRunsOfSuffix(s: string, n: nat, from: nat)
    requires ShortRuns(s, n) && from <= |s|
    ensures ShortRuns(s[from..], n)
  {
    forall k | 0 <= k <= |s[from..]| ensures Lead(s[from..][k..]) < n {
      assert s[from..][k..] == s[from + k..];
    }
  }

  // ----- Reading code spans: CommonMark 0.31.2, section 6.1 -----

  /** Where the next backtick string of exactly `n` backticks starts. */
  function FindCloser(s: string, n: nat): (at: Option<nat>)
    ensures at.Some? ==> at.value < |s| || n == 0
    ensures at.Some? && n > 0 ==> at.value + n <= |s|
  {
    if s == [] then None
    else if s[0] == '`' && Lead(s) == n then Some(0)
    else
      var step := if s[0] == '`' then Lead(s) else 1;
      match FindCloser(s[step..], n)
      case None => None
      case Some(at) => Some(step + at)
  }

  function LineEndingsToSpaces(s: string): string {
    seq(|s|, k requires 0 <= k < |s| => if s[k] == '\n' || s[k] == '\r' then ' ' else s[k])
  }

  /** One space is dropped from each side of a content with both, unless it is nothing but spaces. */
  predicate LosesItsSpaces(content: string) {
    content != [] && content[0] == ' ' && content[|content| - 1] == ' ' && exists c :: c in content && c != ' '
  }

  function Stripped(content: string): string {
    if LosesItsSpaces(content) then content[1..|content| - 1] else content
  }

  datatype Span = Span(content: string, rest: string)

  /** The code span a text starts with, and what follows it. */
  function ReadSpan(s: string): Option<Span> {
    var n := Lead(s);
    if n == 0 then None
    else
      match FindCloser(s[n..], n)
      case None => None
      case Some(at) => Some(Span(Stripped(LineEndingsToSpaces(s[n..][..at])), s[n..][at + n..]))
  }

  lemma {:induction false} CloserIsTheFence(body: string, n: nat, tail: string)
    requires n > 0 && ShortRuns(body, n) && Lead(tail) == n
    requires body != [] ==> body[|body| - 1] != '`'
    ensures FindCloser(body + tail, n) == Some(|body|)
    decreases |body|
  {
    hide Lead, ShortRuns;
    var s := body + tail;
    if body == [] {
      assert s == tail;
    } else {
      LeadStaysInside(body, tail);
      FirstRunIsShort(body, n);
      var step := if s[0] == '`' then Lead(s) else 1;
      assert s[step..] == body[step..] + tail;
      ShortRunsOfSuffix(body, n, step);
      CloserIsTheFence(body[step..], n, tail);
    }
  }

  lemma ReadBetween(s: string, n: nat, body: string, tail: string)
    requires Lead(s) == n > 0 && s[n..] == body + tail && Lead(tail) == n
    requires ShortRuns(body, n) && body != [] && body[|body| - 1] != '`'
    requires '\n' !in body && '\r' !in body
    ensures ReadSpan(s) == Some(Span(Stripped(body), tail[n..]))
  {
    hide Lead, ShortRuns, Stripped, FindCloser;
    CloserIsTheFence(body, n, tail);
    assert (body + tail)[..|body|] == body && (body + tail)[|body| + n..] == tail[n..];
    assert LineEndingsToSpaces(body) == body;
  }

  /** A fenced text that neither starts nor ends with a backtick is read back, up to its side spaces. */
  lemma ReadFenced(n: nat, body: string, rest: string)
    requires n > 0 && body != [] && ShortRuns(body, n)
    requires body[0] != '`' && body[|body| - 1] != '`'
    requires rest != [] ==> rest[0] != '`'
    requires '\n' !in body && '\r' !in body
    ensures ReadSpan(Ticks(n) + body + Ticks(n) + rest) == Some(Span(Stripped(body), rest))
  {
    hide Lead, ShortRuns, Stripped, ReadSpan, Ticks;
    var tail := Ticks(n) + rest;
    var s := Ticks(n) + body + Ticks(n) + rest;
    assert s == Ticks(n) + (body + tail);
    LeadOf(n, body + tail);
    LeadOf(n, rest);
    assert s[n..] == body + tail && tail[n..] == rest;
    ReadBetween(s, n, body, tail);
  }

  // ----- A code span says what it was given -----

  lemma PaddedRunsAreShort(s: string, n: nat)
    requires ShortRuns(s, n)
    ensures ShortRuns(" " + s + " ", Max(n, 1))
  {
    var padded := " " + s + " ";
    forall k | 0 <= k <= |padded| ensures Lead(padded[k..]) < Max(n, 1) {
      if 1 <= k <= |s| {
        assert padded[k..] == s[k - 1..] + " ";
        LeadIs(s[k - 1..] + " ", Lead(s[k - 1..]));
      }
    }
  }

  lemma StrippedOfPadding(s: string)
    requires exists c :: c in s && c != ' '
    ensures Stripped(" " + s + " ") == s
  {
    var padded := " " + s + " ";
    var k :| 0 <= k < |s| && s[k] != ' ';
    assert padded[k + 1] == s[k] && s[k] in padded;
    assert padded[1..|padded| - 1] == s;
  }

  lemma ReadPadded(n: nat, clean: string, rest: string)
    requires n > 0 && ShortRuns(clean, n) && '`' in clean && '\n' !in clean && '\r' !in clean
    requires rest != [] ==> rest[0] != '`'
    ensures ReadSpan(Ticks(n) + " " + clean + " " + Ticks(n) + rest) == Some(Span(clean, rest))
  {
    hide Lead, ShortRuns, ReadSpan, Ticks, Stripped;
    var padded := " " + clean + " ";
    PaddedRunsAreShort(clean, n);
    StrippedOfPadding(clean);
    ReadFenced(n, padded, rest);
    assert Ticks(n) + padded + Ticks(n) + rest == Ticks(n) + " " + clean + " " + Ticks(n) + rest;
  }

  lemma ReadPrintedSpan(text: string, rest: string)
    requires rest != [] ==> rest[0] != '`'
    requires CleanInline(text) != []
    ensures ReadSpan(CodeSpan(text) + rest) == Some(Span(
      if '`' in CleanInline(text) then CleanInline(text) else Stripped(CleanInline(text)), rest))
  {
    hide Lead, ShortRuns, ReadSpan, Ticks, LongestRun, Stripped, Filtered;
    var clean := CleanInline(text);
    var n := LongestRun(clean) + 1;
    LongestBoundsRuns(clean, n);
    if '`' in clean {
      ReadPadded(n, clean, rest);
    } else {
      ReadFenced(n, clean, rest);
    }
  }

  /**
   * The reader gets the control-free text back, and whatever follows is untouched by it, exactly
   * unless that text is empty, or has no backtick and both starts and ends with a space.
   */
  lemma CodeSpanSurvivesExactly(text: string, rest: string)
    requires rest != [] ==> rest[0] != '`'
    ensures var clean := CleanInline(text);
      ReadSpan(CodeSpan(text) + rest) == Some(Span(clean, rest)) <==>
      (clean != [] && ('`' in clean || !LosesItsSpaces(clean)))
  {
    hide ReadSpan, CodeSpan, CleanInline;
    var clean := CleanInline(text);
    if clean != [] {
      ReadPrintedSpan(text, rest);
      assert LosesItsSpaces(clean) ==> Stripped(clean) != clean;
    } else {
      SpansAreNeverEmpty(CodeSpan(text) + rest);
    }
  }

  lemma FirstCloserIsLater(s: string, n: nat)
    requires n > 0 && s != [] && s[0] != '`'
    ensures FindCloser(s, n) != Some(0)
  {
  }

  /** CommonMark has no empty code span. */
  lemma SpansAreNeverEmpty(s: string)
    ensures ReadSpan(s).Some? ==> ReadSpan(s).value.content != []
  {
    var n := Lead(s);
    if ReadSpan(s).Some? {
      var at := FindCloser(s[n..], n).value;
      FirstCloserIsLater(s[n..], n);
    }
  }

  // ----- Reading fenced blocks: CommonMark 0.31.2, section 4.5 -----

  /** How far the first line of a text goes: to a line feed, a carriage return, or the end. */
  function LineEnd(s: string): (n: nat)
    ensures n <= |s|
    ensures forall k :: 0 <= k < n ==> s[k] != '\n' && s[k] != '\r'
    ensures n < |s| ==> s[n] == '\n' || s[n] == '\r'
  {
    if s == [] || s[0] == '\n' || s[0] == '\r' then 0 else 1 + LineEnd(s[1..])
  }

  /** What follows the first line and its line ending. */
  function NextLine(s: string): (rest: string)
    ensures s != [] ==> |rest| < |s|
  {
    var n := LineEnd(s);
    if n == |s| then []
    else if s[n] == '\r' && n + 1 < |s| && s[n + 1] == '\n' then s[n + 2..]
    else s[n + 1..]
  }

  function Spaces(line: string): (n: nat)
    ensures n <= |line|
  {
    if line == [] || line[0] != ' ' then 0 else 1 + Spaces(line[1..])
  }

  /** A closing fence: at most three spaces, enough backticks, and then only spaces or tabs. */
  predicate Closes(line: string, n: nat) {
    var fence := line[Spaces(line)..];
    Spaces(line) <= 3 && Lead(fence) >= n && forall c :: c in fence[Lead(fence)..] ==> c == ' ' || c == '\t'
  }

  datatype Block = Block(info: string, content: string, rest: string, closed: bool)

  /** The lines up to the closing fence, or to the end of the document when there is none. */
  function ReadLines(s: string, n: nat): Block
    decreases |s|
  {
    if s == [] then Block("", "", "", false)
    else
      var line := s[..LineEnd(s)];
      if Closes(line, n) then Block("", "", NextLine(s), true)
      else
        var more := ReadLines(NextLine(s), n);
        more.(content := line + "\n" + more.content)
  }

  /** The block a text starts with, when its first line is a fence at the margin. */
  function ReadBlock(s: string): Option<Block> {
    var line := s[..LineEnd(s)];
    var n := Lead(line);
    if n < 3 || '`' in line[n..] then None else Some(ReadLines(NextLine(s), n).(info := line[n..]))
  }

  predicate StartsNewLine(rest: string) {
    rest != [] ==> rest[0] == '\n' || rest[0] == '\r'
  }

  lemma LineEndIs(s: string, n: nat)
    requires n <= |s| && (forall k :: 0 <= k < n ==> s[k] != '\n' && s[k] != '\r')
    requires n < |s| ==> s[n] == '\n' || s[n] == '\r'
    ensures LineEnd(s) == n
  {
    assert LineEnd(s) <= n;
  }

  lemma {:induction false} LeadOfPrefix(s: string, n: nat)
    requires n <= |s|
    ensures Lead(s[..n]) <= Lead(s)
  {
    if n > 0 && s[0] == '`' {
      LeadOfPrefix(s[1..], n - 1);
      assert s[..n][1..] == s[1..][..n - 1];
    }
  }

  /** No line of a text closes a fence longer than every run of backticks in it. */
  lemma LinesDoNotClose(s: string, n: nat, end: nat)
    requires ShortRuns(s, n) && end <= |s|
    ensures !Closes(s[..end], n)
  {
    hide Lead, Spaces;
    var line := s[..end];
    var from := Spaces(line);
    assert line[from..] == s[from..][..end - from];
    LeadOfPrefix(s[from..], end - from);
  }

  lemma FenceCloses(n: nat)
    ensures Closes(Ticks(n), n)
  {
    LeadIs(Ticks(n), n);
    if n > 0 {
      assert Ticks(n)[0] == '`';
    }
    assert Ticks(n)[0..] == Ticks(n);
  }

  lemma FirstLine(line: string, rest: string)
    requires '\n' !in line && '\r' !in line
    ensures var s := line + "\n" + rest; s[..LineEnd(s)] == line && NextLine(s) == rest
  {
    var s := line + "\n" + rest;
    LineEndIs(s, |line|);
  }

  lemma ReadOneLine(line: string, rest: string, n: nat)
    requires '\n' !in line && '\r' !in line && !Closes(line, n)
    ensures ReadLines(line + "\n" + rest, n)
      == var more := ReadLines(rest, n); more.(content := line + "\n" + more.content)
  {
    hide Closes;
    FirstLine(line, rest);
  }

  lemma {:induction false} BodyIsRead(body: string, n: nat, tail: string)
    requires ShortRuns(body, n) && '\r' !in body
    ensures ReadLines(body + "\n" + tail, n)
      == var more := ReadLines(tail, n); more.(content := body + "\n" + more.content)
    decreases |body|
  {
    hide ShortRuns, Closes, ReadLines;
    var end := LineEnd(body);
    LinesDoNotClose(body, n, end);
    if end == |body| {
      assert body[..end] == body;
      ReadOneLine(body, tail, n);
    } else {
      var line, below := body[..end], body[end + 1..];
      assert body == line + "\n" + below;
      assert body + "\n" + tail == line + "\n" + (below + "\n" + tail);
      ReadOneLine(line, below + "\n" + tail, n);
      ShortRunsOfSuffix(body, n, end + 1);
      BodyIsRead(below, n, tail);
      var more := ReadLines(tail, n).content;
      assert line + "\n" + (below + "\n" + more) == body + "\n" + more;
    }
  }

  lemma FenceIsRead(n: nat, rest: string)
    requires n > 0 && StartsNewLine(rest)
    ensures ReadLines(Ticks(n) + rest, n) == Block("", "", NextLine(rest), true)
  {
    var s := Ticks(n) + rest;
    LineEndIs(s, n);
    LineEndIs(rest, 0);
    assert s[..n] == Ticks(n);
    FenceCloses(n);
  }

  lemma OpeningIsRead(n: nat, inner: string)
    requires n >= 3
    ensures ReadBlock(Ticks(n) + "\n" + inner) == Some(ReadLines(inner, n).(info := ""))
  {
    hide ReadLines, Lead, LineEnd, NextLine, Ticks;
    FirstLine(Ticks(n), inner);
    LeadIs(Ticks(n), n);
    assert Ticks(n)[n..] == "";
  }

  lemma BlockIsRead(n: nat, body: string, rest: string)
    requires n >= 3 && ShortRuns(body, n) && '\r' !in body && StartsNewLine(rest)
    ensures ReadBlock(Ticks(n) + "\n" + body + "\n" + Ticks(n) + rest)
      == Some(Block("", body + "\n", NextLine(rest), true))
  {
    hide *;
    var tail := Ticks(n) + rest;
    OpeningIsRead(n, body + "\n" + tail);
    BodyIsRead(body, n, tail);
    FenceIsRead(n, rest);
    assert body + "\n" + "" == body + "\n";
    assert Ticks(n) + "\n" + (body + "\n" + tail) == Ticks(n) + "\n" + body + "\n" + Ticks(n) + rest;
  }

  // ----- A code block says what it was given -----

  lemma ShortRunsOfPrefix(s: string, n: nat, to: nat)
    requires ShortRuns(s, n) && to <= |s|
    ensures ShortRuns(s[..to], n)
  {
    forall k | 0 <= k <= to ensures Lead(s[..to][k..]) < n {
      assert s[..to][k..] == s[k..][..to - k];
      LeadOfPrefix(s[k..], to - k);
    }
  }

  lemma TrimmedRunsAreShort(s: string, n: nat)
    requires ShortRuns(s, n)
    ensures ShortRuns(TrimNewlines(s), n)
  {
    hide ShortRuns, TrimStart, TrimEnd;
    var inner := TrimStart(s);
    ShortRunsOfSuffix(s, n, |s| - |inner|);
    var body := TrimEnd(inner);
    assert body == inner[..|body|];
    ShortRunsOfPrefix(inner, n, |body|);
  }

  function Newlines(n: nat): string {
    seq(n, _ => '\n')
  }

  /** Trimming takes newlines off both ends, all of them, and nothing else. */
  lemma TrimTakesOnlyNewlines(s: string)
    ensures exists a: nat, b: nat :: s == Newlines(a) + TrimNewlines(s) + Newlines(b)
    ensures var t := TrimNewlines(s); t != [] ==> t[0] != '\n' && t[|t| - 1] != '\n'
  {
    hide TrimStart, TrimEnd;
    var inner := TrimStart(s);
    var body := TrimEnd(inner);
    var a, b := |s| - |inner|, |inner| - |body|;
    assert inner == body + Newlines(b);
    assert s == Newlines(a) + inner;
    assert s == Newlines(a) + body + Newlines(b);
  }

  /**
   * The reader gets exactly one block with no info string, closed by its own fence, holding the
   * cleaned text trimmed of newlines plus one newline; what follows the block is untouched.
   */
  lemma CodeBlockSurvives(text: string, rest: string)
    requires StartsNewLine(rest)
    ensures ReadBlock(CodeBlock(text) + rest)
      == Some(Block("", TrimNewlines(CleanBlock(text)) + "\n", NextLine(rest), true))
  {
    hide ShortRuns, Ticks, LongestRun, ReadBlock, Filtered, TrimStart, TrimEnd;
    var clean := CleanBlock(text);
    var n := Max(LongestRun(clean), 2) + 1;
    LongestBoundsRuns(clean, n);
    TrimmedRunsAreShort(clean, n);
    assert forall c :: c in TrimNewlines(clean) ==> c in clean;
    BlockIsRead(n, TrimNewlines(clean), rest);
  }

  // ----- Where a code span fails -----

  /** Empty text prints two backticks, which open a span that swallows what follows. */
  lemma EmptySpanSwallows(text: string, rest: string)
    requires CleanInline(text) == [] && rest != [] && ShortRuns(rest, 2)
    requires rest[0] != '`' && rest[|rest| - 1] != '`' && '\n' !in rest && '\r' !in rest
    ensures CodeSpan(text) == Ticks(2)
    ensures ReadSpan(CodeSpan(text) + (rest + Ticks(2))) == Some(Span(Stripped(rest), ""))
  {
    hide ShortRuns, ReadSpan, Stripped, Lead;
    assert CodeSpan(text) == Ticks(2);
    ReadFenced(2, rest, "");
    assert Ticks(2) + (rest + Ticks(2)) == Ticks(2) + rest + Ticks(2) + "";
  }

  // ----- Nothing else is dropped, and no fence is longer than it says -----

  lemma FilterStep(c: char, rest: string, keep: char -> bool)
    ensures Filtered([c] + rest, keep) == (if keep(c) then [c] else []) + Filtered(rest, keep)
    ensures Filtered([], keep) == []
  {
    assert ([c] + rest)[1..] == rest;
  }

  lemma {:induction false} FilterPieces(a: string, b: string, keep: char -> bool)
    ensures Filtered(a + b, keep) == Filtered(a, keep) + Filtered(b, keep)
    decreases |a|
  {
    hide Filtered;
    if a == [] {
      assert a + b == b;
      FilterStep('a', [], keep);
    } else {
      FilterPieces(a[1..], b, keep);
      FilterStep(a[0], a[1..], keep);
      FilterStep(a[0], a[1..] + b, keep);
      assert [a[0]] + a[1..] == a && [a[0]] + (a[1..] + b) == a + b;
    }
  }

  /** Cleaning goes piece by piece, and drops the control characters: none but line feeds and tabs stay in a block. */
  lemma CleaningDropsOnlyControls(a: string, b: string, c: char)
    ensures CleanInline(a + b) == CleanInline(a) + CleanInline(b)
    ensures CleanBlock(a + b) == CleanBlock(a) + CleanBlock(b)
    ensures var control := c < ' ' || ('\U{7F}' <= c && c < '\U{A0}');
      && CleanInline([c]) == (if control then [] else [c])
      && CleanBlock([c]) == (if control && c != '\n' && c != '\t' then [] else [c])
  {
    FilterPieces(a, b, c => !IsControl(c));
    FilterPieces(a, b, c => !IsControl(c) || c == '\n' || c == '\t');
  }

  lemma {:induction false} RunIsSomewhere(s: string, j: nat) returns (k: nat)
    requires j < |Runs(s)|
    ensures k <= |s| && Lead(s[k..]) == Runs(s)[j]
  {
    hide Lead;
    if j == 0 {
      FirstRunIsLead(s);
      k := 0;
      assert s[0..] == s;
    } else {
      var before := RunIsSomewhere(s[1..], if s[0] == '`' then j else j - 1);
      k := before + 1;
      assert s[k..] == s[1..][before..];
    }
  }

  /** The longest run of backticks in `s` has length `n`. */
  ghost predicate LongestIs(s: string, n: nat) {
    && (exists k :: 0 <= k <= |s| && Lead(s[k..]) == n)
    && ShortRuns(s, n + 1)
  }

  lemma LongestRunIsARun(s: string)
    ensures LongestIs(s, LongestRun(s))
  {
    LongestBoundsRuns(s, LongestRun(s) + 1);
    if LongestRun(s) == 0 {
      assert Lead(s[|s|..]) == 0;
    } else {
      var j :| 0 <= j < |Runs(s)| && Runs(s)[j] == LongestRun(s);
      var k := RunIsSomewhere(s, j);
    }
  }

  /**
   * A printed span is its fences, one longer than the longest run of backticks inside, the clean text,
   * and a space on either side of it when it has a backtick: nothing more.
   */
  lemma SpanIsNoLonger(text: string, longest: nat)
    requires CleanInline(text) != [] && LongestIs(CleanInline(text), longest)
    ensures var clean := CleanInline(text);
      && Lead(CodeSpan(text)) == longest + 1
      && |CodeSpan(text)| == |clean| + 2 * (longest + 1) + if '`' in clean then 2 else 0
  {
    hide ShortRuns, Lead, LongestRun, Filtered;
    var clean := CleanInline(text);
    var n := longest + 1;
    OneLongest(clean, longest);
    if '`' in clean {
      LeadOf(n, " " + clean + " " + Ticks(n));
      assert CodeSpan(text) == Ticks(n) + (" " + clean + " " + Ticks(n));
    } else {
      LeadOf(n, clean + Ticks(n));
      assert CodeSpan(text) == Ticks(n) + (clean + Ticks(n));
    }
  }

  lemma OneLongest(s: string, n: nat)
    requires LongestIs(s, n)
    ensures n == LongestRun(s)
  {
    hide Lead, LongestRun;
    LongestRunIsARun(s);
    var m := LongestRun(s);
    var i :| 0 <= i <= |s| && Lead(s[i..]) == n;
    var j :| 0 <= j <= |s| && Lead(s[j..]) == m;
  }

  /** The fences of a block are one longer than the longest run inside too, but never shorter than three. */
  lemma BlockIsNoLonger(text: string, longest: nat)
    requires LongestIs(CleanBlock(text), longest)
    ensures var n := if longest < 2 then 3 else longest + 1;
      && Lead(CodeBlock(text)) == n
      && |CodeBlock(text)| == |TrimNewlines(CleanBlock(text))| + 2 * n + 2
  {
    hide ShortRuns, Lead, LongestRun, Filtered, TrimNewlines;
    var clean := CleanBlock(text);
    OneLongest(clean, longest);
    var n := if longest < 2 then 3 else longest + 1;
    var tail := "\n" + TrimNewlines(clean) + "\n" + Ticks(n);
    LeadOf(n, tail);
    assert CodeBlock(text) == Ticks(n) + tail;
  }
}
