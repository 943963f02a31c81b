/**
 * Where the symbol-aware splitter may cut: a walk over the syntax tree that collects the starts of
 * definitions and opens up only oversized containers.
 *
 * The parser is abstract. A node is a kind, a byte range, its named children and the fields the
 * walk asks for, each of which is one of those children. `symbol` is the node's label.
 */
module CutPoints {
  import opened Prelude
  import opened Text
  import opened Chunks
  import opened TreeSplitter

  datatype Node = Node(
    kind: string, start: nat, end: nat, children: seq<Node>,
    body: Option<nat>, declaration: Option<nat>, definition: Option<nat>, symbol: Option<string>)

  const MAX_DEPTH: nat := 3

  const CONTAINERS: seq<string> := [
    "impl_item", "mod_item", "trait_item", "declaration_list",
    "class_declaration", "abstract_class_declaration", "class_body", "export_statement",
    "internal_module", "module",
    "class_definition", "decorated_definition",
    "interface_body", "enum_body", "enum_body_declarations",
    "class", "singleton_class"]

  const EXTRA_DEFINITIONS: seq<string> := [
    "export_statement", "import_statement", "decorated_definition", "method_definition",
    "public_field_definition", "method", "singleton_method", "class", "module", "singleton_class"]

  predicate EndsWith(s: string, suffix: string) {
    |suffix| <= |s| && s[|s| - |suffix|..] == suffix
  }

  predicate IsDefinition(kind: string) {
    EndsWith(kind, "_item") || EndsWith(kind, "_declaration") || EndsWith(kind, "_definition")
    || kind in EXTRA_DEFINITIONS
  }

  predicate Contains(s: string, part: string) {
    |part| <= |s| && (s[..|part|] == part || (s != [] && Contains(s[1..], part)))
  }

  predicate IsComment(kind: string) {
    Contains(kind, "comment")
  }

  /** A tree as a parser hands it over: ordered, nested, in range, on char boundaries. */
  predicate Nested(node: Node, source: Bytes) {
    && node.start <= node.end <= |source| && Boundary(source, node.start)
    && (forall k :: 0 <= k < |node.children| ==>
      && Nested(node.children[k], source)
      && node.start <= node.children[k].start && node.children[k].end <= node.end)
    && (forall i, j :: 0 <= i < j < |node.children| ==> node.children[i].end <= node.children[j].start)
    && (node.body.Some? ==> node.body.value < |node.children|)
    && (node.declaration.Some? ==> node.declaration.value < |node.children|)
    && (node.definition.Some? ==> node.definition.value < |node.children|)
  }

  function FirstContainer(children: seq<Node>): Option<Node> {
    if children == [] then None
    else if children[0].kind in CONTAINERS then Some(children[0])
    else FirstContainer(children[1..])
  }

  function Field(node: Node, index: Option<nat>): Option<Node> {
    if index.Some? && index.value < |node.children| then Some(node.children[index.value]) else None
  }

  /** Where the walk goes on inside a node: its body field, however many wrappers deep, or its first container. */
  function BodyOf(node: Node): Option<Node>
    decreases node
  {
    if Field(node, node.body).Some? then Field(node, node.body)
    else
      var wrapped := if Field(node, node.declaration).Some? then node.declaration else node.definition;
      if Field(node, wrapped).Some? then
        var inner := node.children[wrapped.value];
        if BodyOf(inner).Some? then BodyOf(inner) else Some(inner)
      else FirstContainer(node.children)
  }

  lemma {:induction false} FirstContainerIsAChild(children: seq<Node>)
    requires FirstContainer(children).Some?
    ensures FirstContainer(children).value in children
  {
    if children[0].kind !in CONTAINERS {
      FirstContainerIsAChild(children[1..]);
    }
  }

  /** However many wrappers it looks through, the body is a well-nested part of the node. */
  lemma {:induction false} BodyIsInside(node: Node, source: Bytes)
    requires Nested(node, source) && BodyOf(node).Some?
    ensures Nested(BodyOf(node).value, source)
    ensures node.start <= BodyOf(node).value.start && BodyOf(node).value.end <= node.end
    decreases node
  {
    if Field(node, node.body).Some? {
    } else {
      var wrapped := if Field(node, node.declaration).Some? then node.declaration else node.definition;
      if Field(node, wrapped).Some? {
        if BodyOf(node.children[wrapped.value]).Some? {
          BodyIsInside(node.children[wrapped.value], source);
        }
      } else {
        FirstContainerIsAChild(node.children);
      }
    }
  }

  // ----- Leading comments -----

  predicate Attached(previous: Node, start: nat, source: Bytes) {
    && IsComment(previous.kind)
    && (previous.end <= start <= |source| ==> Newlines(source[previous.end..start]) <= 1)
  }

  /** The topmost comment attached to `children[cursor]`, through others if need be, or that child itself. */
  function LeadingIndex(children: seq<Node>, cursor: nat, source: Bytes): (first: nat)
    requires cursor < |children|
    ensures first <= cursor
  {
    if cursor > 0 && Attached(children[cursor - 1], children[cursor].start, source)
    then LeadingIndex(children, cursor - 1, source)
    else cursor
  }

  function LeadingStart(children: seq<Node>, index: nat, source: Bytes): nat
    requires index < |children|
  {
    children[LeadingIndex(children, index, source)].start
  }

  method WithLeadingComments(children: seq<Node>, index: nat, source: Bytes) returns (start: nat)
    requires index < |children|
    requires forall k :: 0 <= k < |children| ==> Nested(children[k], source)
    requires forall i, j :: 0 <= i < j < |children| ==> children[i].end <= children[j].start
    ensures start == LeadingStart(children, index, source)
  {
    start := children[index].start;
    var cursor := index;
    while cursor > 0
      invariant cursor <= index && start == children[cursor].start
      invariant LeadingIndex(children, cursor, source) == LeadingIndex(children, index, source)
    {
      var previous := children[cursor - 1];
      if !IsComment(previous.kind) {
        break;
      }
      if Newlines(source[previous.end..start]) > 1 {
        break;
      }
      start := previous.start;
      cursor := cursor - 1;
    }
  }

  /** At most one line feed lies between a child and the next. */
  predicate Adjacent(children: seq<Node>, k: nat, source: Bytes)
    requires k + 1 < |children|
  {
    children[k].end <= children[k + 1].start <= |source| ==>
      Newlines(source[children[k].end..children[k + 1].start]) <= 1
  }

  /** A cut is pulled back over comments with no blank line below them only, and over all of them. */
  lemma {:induction false} CutStopsAtTheLastNonComment(children: seq<Node>, index: nat, source: Bytes)
    requires index < |children|
    ensures var first := LeadingIndex(children, index, source);
      && LeadingStart(children, index, source) == children[first].start
      && (forall k :: first <= k < index ==> IsComment(children[k].kind) && Adjacent(children, k, source))
      && (first > 0 ==> !(IsComment(children[first - 1].kind) && Adjacent(children, first - 1, source)))
  {
    if index > 0 && Attached(children[index - 1], children[index].start, source) {
      CutStopsAtTheLastNonComment(children, index - 1, source);
    }
  }

  // ----- The walk -----

  predicate Opened(child: Node, options: Options, depth: nat) {
    && IsDefinition(child.kind)
    && depth + 1 < MAX_DEPTH
    && child.end - child.start > options.targetChars
    && child.kind in CONTAINERS
    && BodyOf(child).Some?
  }

  function OrInsert(cuts: Cuts, at: nat, symbol: Option<string>): Cuts {
    if at in cuts then cuts else cuts[at := symbol]
  }

  function CollectFrom(node: Node, index: nat, source: Bytes, options: Options, depth: nat, cuts: Cuts): Cuts
    decreases MAX_DEPTH - depth, |node.children| - index
  {
    if index >= |node.children| then cuts
    else
      var child := node.children[index];
      if !IsDefinition(child.kind) then CollectFrom(node, index + 1, source, options, depth, cuts)
      else
        var here := OrInsert(cuts, LeadingStart(node.children, index, source), child.symbol);
        var inside := if Opened(child, options, depth)
          then CollectFrom(BodyOf(child).value, 0, source, options, depth + 1, here) else here;
        CollectFrom(node, index + 1, source, options, depth, inside)
  }

  method CollectCuts(node: Node, source: Bytes, options: Options, depth: nat, cuts: Cuts) returns (collected: Cuts)
    requires Nested(node, source)
    ensures collected == CollectFrom(node, 0, source, options, depth, cuts)
    decreases MAX_DEPTH - depth
  {
    hide BodyOf, IsDefinition, LeadingStart, Boundary, Newlines, Contains;
    collected := cuts;
    for index := 0 to |node.children|
      invariant CollectFrom(node, index, source, options, depth, collected)
        == CollectFrom(node, 0, source, options, depth, cuts)
    {
      var child := node.children[index];
      if !IsDefinition(child.kind) {
        continue;
      }
      var start := WithLeadingComments(node.children, index, source);
      if start !in collected {
        collected := collected[start := child.symbol];
      }
      if depth + 1 < MAX_DEPTH && child.end - child.start > options.targetChars && child.kind in CONTAINERS {
        var body := BodyOf(child);
        if body.Some? {
          BodyIsInside(child, source);
          collected := CollectCuts(body.value, source, options, depth + 1, collected);
        }
      }
    }
  }

  // ----- Cuts respect everything the walk did not open -----

  predicate Inside(cut: nat, node: Node) {
    node.start < cut < node.end
  }

  /** `child` is looked at by a walk that starts at `node`, `depth` levels down, and ends at `level`. */
  predicate Visits(node: Node, options: Options, depth: nat, child: Node, level: nat)
    decreases MAX_DEPTH - depth
  {
    || (child in node.children && level == depth)
    || exists k :: 0 <= k < |node.children| && Opened(node.children[k], options, depth)
         && Visits(BodyOf(node.children[k]).value, options, depth + 1, child, level)
  }

  /** Every key of `cuts` that the walk may add lies in the node's range, at a whole character. */
  predicate Confined(cuts: Cuts, extra: Cuts, node: Node, source: Bytes) {
    && cuts.Keys <= extra.Keys
    && forall x :: x in extra && x !in cuts ==> node.start <= x <= node.end && Boundary(source, x)
  }

  lemma LeadingStartInRange(node: Node, index: nat, source: Bytes)
    requires Nested(node, source) && index < |node.children|
    ensures node.start <= LeadingStart(node.children, index, source) <= node.end
    ensures Boundary(source, LeadingStart(node.children, index, source))
    ensures forall k | 0 <= k < |node.children| ::
      !Inside(LeadingStart(node.children, index, source), node.children[k])
  {
    var first := LeadingIndex(node.children, index, source);
    assert Nested(node.children[first], source);
    forall k | 0 <= k < |node.children|
      ensures !Inside(LeadingStart(node.children, index, source), node.children[k])
    {
      assert Nested(node.children[k], source);
    }
  }

  lemma ConfinedHere(node: Node, index: nat, source: Bytes, cuts: Cuts, symbol: Option<string>)
    requires Nested(node, source) && index < |node.children|
    ensures Confined(cuts, OrInsert(cuts, LeadingStart(node.children, index, source), symbol), node, source)
  {
    hide Nested, LeadingIndex, Boundary;
    LeadingStartInRange(node, index, source);
  }

  lemma ConfinedTwice(first: Cuts, second: Cuts, third: Cuts, inner: Node, node: Node, source: Bytes)
    requires Confined(first, second, inner, source) && Confined(second, third, node, source)
    requires node.start <= inner.start && inner.end <= node.end
    ensures Confined(first, third, node, source)
  {
  }

  lemma BodyIsWithin(node: Node, index: nat, source: Bytes)
    requires Nested(node, source) && index < |node.children| && BodyOf(node.children[index]).Some?
    ensures var body := BodyOf(node.children[index]).value;
      Nested(body, source) && node.start <= body.start && body.end <= node.end
  {
    hide BodyOf;
    BodyIsInside(node.children[index], source);
  }

  lemma {:induction false} WalkIsConfined(
      node: Node, index: nat, source: Bytes, options: Options, depth: nat, cuts: Cuts)
    requires Nested(node, source) && index <= |node.children|
    ensures Confined(cuts, CollectFrom(node, index, source, options, depth, cuts), node, source)
    decreases MAX_DEPTH - depth, |node.children| - index
  {
    if index == |node.children| {
    } else {
      hide Nested, Confined, BodyOf, IsDefinition, LeadingStart, OrInsert;
      var child := node.children[index];
      if !IsDefinition(child.kind) {
        WalkIsConfined(node, index + 1, source, options, depth, cuts);
      } else {
        var here := OrInsert(cuts, LeadingStart(node.children, index, source), child.symbol);
        var all := CollectFrom(node, index, source, options, depth, cuts);
        ConfinedHere(node, index, source, cuts, child.symbol);
        if Opened(child, options, depth) {
          var body := BodyOf(child).value;
          var inside := CollectFrom(body, 0, source, options, depth + 1, here);
          BodyIsWithin(node, index, source);
          WalkIsConfined(body, 0, source, options, depth + 1, here);
          WalkIsConfined(node, index + 1, source, options, depth, inside);
          ConfinedTwice(here, inside, all, body, node, source);
        } else {
          WalkIsConfined(node, index + 1, source, options, depth, here);
        }
        ConfinedTwice(cuts, here, all, node, node, source);
      }
    }
  }

  lemma {:induction false} VisitedIsInRange(
      node: Node, source: Bytes, options: Options, depth: nat, child: Node, level: nat)
    requires Nested(node, source) && Visits(node, options, depth, child, level)
    ensures node.start <= child.start <= child.end <= node.end
    decreases MAX_DEPTH - depth
  {
    if !(child in node.children && level == depth) {
      var k :| 0 <= k < |node.children| && Opened(node.children[k], options, depth)
        && Visits(BodyOf(node.children[k]).value, options, depth + 1, child, level);
      BodyIsInside(node.children[k], source);
      VisitedIsInRange(BodyOf(node.children[k]).value, source, options, depth + 1, child, level);
    }
  }

  /** A cut outside child `k` is outside everything the walk visits below it. */
  lemma OutsideTheChild(
      node: Node, k: nat, source: Bytes, options: Options, depth: nat, x: nat, child: Node, level: nat)
    requires Nested(node, source) && k < |node.children| && Opened(node.children[k], options, depth)
    requires Visits(BodyOf(node.children[k]).value, options, depth + 1, child, level)
    requires !Inside(x, node.children[k])
    ensures !Inside(x, child)
  {
    BodyIsInside(node.children[k], source);
    VisitedIsInRange(BodyOf(node.children[k]).value, source, options, depth + 1, child, level);
  }

  /** A cut made at child `i` itself lies inside no visited node. */
  lemma LeadingStartRespects(
      node: Node, i: nat, source: Bytes, options: Options, depth: nat, child: Node, level: nat)
    requires Nested(node, source) && i < |node.children| && Visits(node, options, depth, child, level)
    ensures !Inside(LeadingStart(node.children, i, source), child)
  {
    LeadingStartInRange(node, i, source);
    if !(child in node.children && level == depth) {
      var k :| 0 <= k < |node.children| && Opened(node.children[k], options, depth)
        && Visits(BodyOf(node.children[k]).value, options, depth + 1, child, level);
      OutsideTheChild(node, k, source, options, depth, LeadingStart(node.children, i, source), child, level);
    }
  }

  /** A cut made within child `i` lies inside no other child, nor anything visited below one. */
  lemma SiblingsAreRespected(
      node: Node, i: nat, source: Bytes, options: Options, depth: nat, x: nat, child: Node, level: nat)
    requires Nested(node, source) && i < |node.children| && Opened(node.children[i], options, depth)
    requires node.children[i].start <= x <= node.children[i].end
    requires Visits(node, options, depth, child, level) && !Opened(child, options, level)
    ensures Inside(x, child) ==> Visits(BodyOf(node.children[i]).value, options, depth + 1, child, level)
  {
    if child in node.children && level == depth {
      var k :| 0 <= k < |node.children| && node.children[k] == child;
      assert k != i;
      assert Nested(node.children[i], source);
    } else {
      var k :| 0 <= k < |node.children| && Opened(node.children[k], options, depth)
        && Visits(BodyOf(node.children[k]).value, options, depth + 1, child, level);
      if k != i {
        assert Nested(node.children[i], source);
        OutsideTheChild(node, k, source, options, depth, x, child, level);
      }
    }
  }

  /**
   * No cut the walk collects lies strictly inside any node the walk visits, unless that node is an
   * oversized container above the depth limit, which is to say one it opened.
   */
  lemma {:induction false} CutsRespectUnopenedNodes(
      node: Node, index: nat, source: Bytes, options: Options, depth: nat, cuts: Cuts, x: nat, child: Node, level: nat)
    requires Nested(node, source) && index <= |node.children|
    requires x in CollectFrom(node, index, source, options, depth, cuts) && x !in cuts
    requires Visits(node, options, depth, child, level) && !Opened(child, options, level)
    ensures !Inside(x, child)
    decreases MAX_DEPTH - depth, |node.children| - index
  {
    hide Nested, LeadingIndex, BodyOf, IsDefinition, Visits, Opened;
    if index < |node.children| {
      var i := node.children[index];
      if !IsDefinition(i.kind) {
        CutsRespectUnopenedNodes(node, index + 1, source, options, depth, cuts, x, child, level);
      } else {
        var here := OrInsert(cuts, LeadingStart(node.children, index, source), i.symbol);
        LeadingStartRespects(node, index, source, options, depth, child, level);
        var inside := here;
        if Opened(i, options, depth) {
          var body := OpenedBody(node, index, source, options, depth);
          inside := CollectFrom(body, 0, source, options, depth + 1, here);
          if x in inside && x !in here {
            WalkIsConfined(body, 0, source, options, depth + 1, here);
            SiblingsAreRespected(node, index, source, options, depth, x, child, level);
            if Inside(x, child) {
              CutsRespectUnopenedNodes(body, 0, source, options, depth + 1, here, x, child, level);
            }
          }
        }
        if x !in inside {
          CutsRespectUnopenedNodes(node, index + 1, source, options, depth, inside, x, child, level);
        }
      }
    }
  }

  lemma OpenedBody(node: Node, index: nat, source: Bytes, options: Options, depth: nat) returns (body: Node)
    requires Nested(node, source) && index < |node.children| && Opened(node.children[index], options, depth)
    ensures BodyOf(node.children[index]) == Some(body) && Nested(body, source)
    ensures node.children[index].start <= body.start && body.end <= node.children[index].end
    ensures depth + 1 < MAX_DEPTH
  {
    BodyIsInside(node.children[index], source);
    body := BodyOf(node.children[index]).value;
  }
}
