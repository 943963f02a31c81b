/** Which cuts the walk makes, whose symbol each of them gets, and where it goes on inside a node. */
module CutSymbols {
  import opened Prelude
  import opened Text
  import opened Chunks
  import opened TreeSplitter
  import opened CutPoints
  import opened WholeNodes

  // ----- Kinds -----

  predicate OccursAt(s: string, part: string, k: nat) {
    k + |part| <= |s| && s[k..k + |part|] == part
  }

  /** A kind is a comment's when the word occurs anywhere in it. */
  lemma {:induction false} ContainsIsSomewhere(s: string, part: string)
    ensures Contains(s, part) <==> exists k: nat :: OccursAt(s, part, k)
  {
    if OccursAt(s, part, 0) {
      assert s[0..|part|] == s[..|part|];
    } else if |part| <= |s| {
      ContainsIsSomewhere(s[1..], part);
      if k: nat :| OccursAt(s, part, k) {
        assert s[1..][k - 1..k - 1 + |part|] == part;
        assert OccursAt(s[1..], part, k - 1);
      }
      if k: nat :| OccursAt(s[1..], part, k) {
        assert s[k + 1..k + 1 + |part|] == part;
        assert OccursAt(s, part, k + 1);
      }
    }
  }

  // ----- Where the walk goes on inside a node -----

  /** The part of a wrapper that has the members: its declaration, or failing that its definition. */
  function Wrapped(node: Node): Option<Node> {
    if Field(node, node.declaration).Some? then Field(node, node.declaration) else Field(node, node.definition)
  }

  /** From a node through wrappers without a body of their own, each one inside the one before. */
  predicate Unwraps(chain: seq<Node>, node: Node) {
    && chain != [] && chain[0] == node
    && forall k :: 0 <= k < |chain| - 1 ==>
      Field(chain[k], chain[k].body).None? && Wrapped(chain[k]) == Some(chain[k + 1])
  }

  predicate FirstOfKind(children: seq<Node>, k: nat) {
    && k < |children| && children[k].kind in CONTAINERS
    && forall j :: 0 <= j < k ==> children[j].kind !in CONTAINERS
  }

  lemma {:induction false} FirstContainerIsFirst(children: seq<Node>)
    ensures match FirstContainer(children)
      case Some(inside) => exists k: nat :: FirstOfKind(children, k) && inside == children[k]
      case None => forall k :: 0 <= k < |children| ==> children[k].kind !in CONTAINERS
  {
    hide CONTAINERS;
    if children != [] {
      if children[0].kind in CONTAINERS {
        assert FirstOfKind(children, 0);
      } else {
        FirstContainerIsFirst(children[1..]);
        if FirstContainer(children).Some? {
          var k: nat :| FirstOfKind(children[1..], k) && FirstContainer(children[1..]).value == children[1..][k];
          assert FirstOfKind(children, k + 1);
        }
      }
    }
  }

  /**
   * The body is found at the end of the longest chain of wrappers: the last one's body field, or else
   * its first child that is a container, or else itself, unless it is the node one started from.
   */
  lemma {:induction false} BodyIsBehindTheWrappers(node: Node) returns (chain: seq<Node>)
    ensures Unwraps(chain, node)
    ensures var last := chain[|chain| - 1];
      if Field(last, last.body).Some? then BodyOf(node) == Field(last, last.body)
      else
        && Wrapped(last) == None
        && BodyOf(node) == match FirstContainer(last.children)
             case Some(inside) => Some(inside)
             case None => if |chain| == 1 then None else Some(last)
    decreases node
  {
    if Field(node, node.body).None? && Wrapped(node).Some? {
      var inner := Wrapped(node).value;
      assert inner in node.children;
      var rest := BodyIsBehindTheWrappers(inner);
      chain := [node] + rest;
    } else {
      chain := [node];
    }
  }

  /** The file's own containers are opened, and theirs, but none further in. */
  lemma TwoLevelsAreOpened(child: Node, options: Options, depth: nat)
    requires IsDefinition(child.kind) && child.kind in CONTAINERS && child.start + options.targetChars < child.end
    ensures Opened(child, options, depth) <==> depth <= 1 && BodyOf(child).Some?
  {
    hide BodyOf, IsDefinition;
  }

  // ----- Whose cut it is -----

  /** Child `k`, or a definition below it when the walk opens it, wants a cut at `x`. */
  predicate WantedAt(node: Node, k: nat, source: Bytes, options: Options, depth: nat, x: nat)
    requires k < |node.children|
    decreases MAX_DEPTH - depth, 0
  {
    && IsDefinition(node.children[k].kind)
    && (x == LeadingStart(node.children, k, source)
        || (Opened(node.children[k], options, depth)
            && Wanted(BodyOf(node.children[k]).value, 0, source, options, depth + 1, x)))
  }

  predicate Wanted(node: Node, from: nat, source: Bytes, options: Options, depth: nat, x: nat)
    decreases MAX_DEPTH - depth, 1
  {
    exists k: nat :: from <= k < |node.children| && WantedAt(node, k, source, options, depth, x)
  }

  /** `symbol` is that of the outermost, then first, definition that wants a cut at `x`. */
  predicate NamedAt(
      node: Node, k: nat, source: Bytes, options: Options, depth: nat, x: nat, symbol: Option<string>)
    requires k < |node.children|
    decreases MAX_DEPTH - depth, 0
  {
    && IsDefinition(node.children[k].kind)
    && if x == LeadingStart(node.children, k, source) then symbol == node.children[k].symbol
       else
         && Opened(node.children[k], options, depth)
         && Named(BodyOf(node.children[k]).value, 0, source, options, depth + 1, x, symbol)
  }

  predicate Named(
      node: Node, from: nat, source: Bytes, options: Options, depth: nat, x: nat, symbol: Option<string>)
    decreases MAX_DEPTH - depth, 1
  {
    exists k: nat :: from <= k < |node.children| && NamedAt(node, k, source, options, depth, x, symbol)
      && forall j: nat :: from <= j < k ==> !WantedAt(node, j, source, options, depth, x)
  }

  lemma WantedFrom(node: Node, from: nat, source: Bytes, options: Options, depth: nat, x: nat)
    requires from < |node.children|
    ensures Wanted(node, from, source, options, depth, x) <==>
      (WantedAt(node, from, source, options, depth, x) || Wanted(node, from + 1, source, options, depth, x))
  {
    hide WantedAt;
  }

  lemma NamedFrom(
      node: Node, from: nat, source: Bytes, options: Options, depth: nat, x: nat, symbol: Option<string>)
    requires from < |node.children|
    requires if WantedAt(node, from, source, options, depth, x)
      then NamedAt(node, from, source, options, depth, x, symbol)
      else Named(node, from + 1, source, options, depth, x, symbol)
    ensures Named(node, from, source, options, depth, x, symbol)
  {
    hide WantedAt, NamedAt;
  }

  /** What the walk has recorded after child `index`. */
  function AfterChild(node: Node, index: nat, source: Bytes, options: Options, depth: nat, cuts: Cuts): Cuts
    requires index < |node.children|
  {
    var child := node.children[index];
    if !IsDefinition(child.kind) then cuts
    else
      var here := OrInsert(cuts, LeadingStart(node.children, index, source), child.symbol);
      if Opened(child, options, depth) then CollectFrom(BodyOf(child).value, 0, source, options, depth + 1, here)
      else here
  }

  lemma OneChild(node: Node, index: nat, source: Bytes, options: Options, depth: nat, cuts: Cuts)
    requires index < |node.children|
    ensures CollectFrom(node, index, source, options, depth, cuts)
      == CollectFrom(node, index + 1, source, options, depth, AfterChild(node, index, source, options, depth, cuts))
  {
    hide IsDefinition, BodyOf, LeadingStart;
  }

  /**
   * The walk cuts exactly where some definition it meets wants a cut, gives each new cut the symbol of
   * the outermost and then first such definition, and leaves what was recorded before as it was.
   */
  lemma {:induction false} CutsAreNamed(
      node: Node, index: nat, source: Bytes, options: Options, depth: nat, cuts: Cuts, x: nat)
    ensures var all := CollectFrom(node, index, source, options, depth, cuts);
      && (x in all <==> x in cuts || Wanted(node, index, source, options, depth, x))
      && (x in cuts ==> all[x] == cuts[x])
      && (x in all && x !in cuts ==> Named(node, index, source, options, depth, x, all[x]))
    decreases MAX_DEPTH - depth, |node.children| - index, 1
  {
    hide *;
    if index < |node.children| {
      var after := AfterChild(node, index, source, options, depth, cuts);
      OneChild(node, index, source, options, depth, cuts);
      ChildIsNamed(node, index, source, options, depth, cuts, x);
      CutsAreNamed(node, index + 1, source, options, depth, after, x);
      WantedFrom(node, index, source, options, depth, x);
      var all := CollectFrom(node, index, source, options, depth, cuts);
      if x in all && x !in cuts {
        NamedFrom(node, index, source, options, depth, x, all[x]);
      }
    } else {
      NothingLeft(node, index, source, options, depth, cuts, x);
    }
  }

  lemma NothingLeft(node: Node, index: nat, source: Bytes, options: Options, depth: nat, cuts: Cuts, x: nat)
    requires index >= |node.children|
    ensures CollectFrom(node, index, source, options, depth, cuts) == cuts
    ensures !Wanted(node, index, source, options, depth, x)
  {
  }

  lemma {:induction false} ChildIsNamed(
      node: Node, index: nat, source: Bytes, options: Options, depth: nat, cuts: Cuts, x: nat)
    requires index < |node.children|
    ensures var after := AfterChild(node, index, source, options, depth, cuts);
      && (x in after <==> x in cuts || WantedAt(node, index, source, options, depth, x))
      && (x in cuts ==> after[x] == cuts[x])
      && (x in after && x !in cuts ==> NamedAt(node, index, source, options, depth, x, after[x]))
    decreases MAX_DEPTH - depth, |node.children| - index, 0
  {
    hide IsDefinition, BodyOf, LeadingStart, CollectFrom, Wanted, Named;
    var child := node.children[index];
    if IsDefinition(child.kind) && Opened(child, options, depth) {
      var here := OrInsert(cuts, LeadingStart(node.children, index, source), child.symbol);
      CutsAreNamed(BodyOf(child).value, 0, source, options, depth + 1, here, x);
    }
  }

  predicate Starts(segments: seq<Segment>, x: nat) {
    exists k :: 0 <= k < |segments| && segments[k].start == x
  }

  /**
   * The segments of a parsed file: one starts at zero and wherever a definition wants a cut, and each
   * carries the symbol of the outermost and then first definition that wanted it, or none at the head
   * of a file where no definition starts.
   */
  lemma SegmentsAreNamed(source: Bytes, root: Node, options: Options)
    requires source != []
    ensures forall x: nat :: x < |source| ==>
      (Starts(TreeSegments(source, root, options), x) <==> x == 0 || Wanted(root, 0, source, options, 0, x))
    ensures forall k :: 0 <= k < |TreeSegments(source, root, options)| ==>
      var segment := TreeSegments(source, root, options)[k];
      if Wanted(root, 0, source, options, 0, segment.start)
      then Named(root, 0, source, options, 0, segment.start, segment.symbol)
      else segment.start == 0 && segment.symbol == None
  {
    hide CollectFrom, Wanted, Named, Segments, Contiguous;
    var cuts := TreeCuts(source, root, options);
    var segments := TreeSegments(source, root, options);
    ZeroIsACut(source, root, options);
    SegmentsTileTheFile(cuts, |source|);
    forall x: nat | x < |source|
      ensures Starts(segments, x) <==> x == 0 || Wanted(root, 0, source, options, 0, x)
    {
      CutsAreNamed(root, 0, source, options, 0, map[], x);
      if x in cuts {
        var k := CutStartsASegment(cuts, |source|, x);
      }
    }
    forall k | 0 <= k < |segments|
      ensures if Wanted(root, 0, source, options, 0, segments[k].start)
        then Named(root, 0, source, options, 0, segments[k].start, segments[k].symbol)
        else segments[k].start == 0 && segments[k].symbol == None
    {
      CutsAreNamed(root, 0, source, options, 0, map[], segments[k].start);
    }
  }
}
