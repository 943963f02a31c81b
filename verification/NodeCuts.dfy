/**
 * What the walk does to every node of the tree, visited or not: when a cut falls inside it. The
 * walk visits the children of the bodies it opens and steps through the wrappers above a body.
 */
module NodeCuts {
  import opened Prelude
  import opened Text
  import opened Chunks
  import opened TreeSplitter
  import opened CutPoints

  /** `n` is somewhere below `node`, visited by the walk or not. */
  predicate Below(node: Node, n: Node)
    decreases node
  {
    exists k :: 0 <= k < |node.children| && (node.children[k] == n || Below(node.children[k], n))
  }

  /** `n` is `c`, a declaration or definition the walk steps through inside it, or the body it goes on in. */
  predicate OnTheWay(c: Node, n: Node)
    decreases c
  {
    || n == c
    || (if Field(c, c.body).Some? then Field(c, c.body) == Some(n)
        else
          var wrapped := if Field(c, c.declaration).Some? then c.declaration else c.definition;
          if Field(c, wrapped).Some? then OnTheWay(c.children[wrapped.value], n)
          else FirstContainer(c.children) == Some(n))
  }

  predicate Within(n: Node, node: Node) {
    node.start <= n.start <= n.end <= node.end
  }

  predicate Apart(n: Node, node: Node) {
    n.end <= node.start || node.end <= n.start
  }

  lemma ChildIsWithin(node: Node, k: nat, source: Bytes)
    requires Nested(node, source) && k < |node.children|
    ensures Nested(node.children[k], source) && Within(node.children[k], node)
  {
  }

  lemma SiblingsAreApart(node: Node, k: nat, j: nat, source: Bytes, n: Node, m: Node)
    requires Nested(node, source) && k < |node.children| && j < |node.children| && k != j
    requires Within(n, node.children[k]) && Within(m, node.children[j])
    ensures Apart(n, m)
  {
  }

  lemma {:induction false} BelowIsWithin(node: Node, n: Node, source: Bytes)
    requires Nested(node, source) && Below(node, n)
    ensures Nested(n, source) && Within(n, node)
    decreases node
  {
    hide Nested;
    var k :| 0 <= k < |node.children| && (node.children[k] == n || Below(node.children[k], n));
    ChildIsWithin(node, k, source);
    if node.children[k] != n {
      BelowIsWithin(node.children[k], n, source);
    }
  }

  lemma {:induction false} OnTheWayIsWithin(c: Node, n: Node, source: Bytes)
    requires Nested(c, source) && OnTheWay(c, n)
    ensures Nested(n, source) && Within(n, c)
    decreases c
  {
    if n != c {
      if Field(c, c.body).Some? {
        ChildIsWithin(c, c.body.value, source);
      } else {
        var wrapped := if Field(c, c.declaration).Some? then c.declaration else c.definition;
        if Field(c, wrapped).Some? {
          ChildIsWithin(c, wrapped.value, source);
          OnTheWayIsWithin(c.children[wrapped.value], n, source);
        } else {
          FirstContainerIsAChild(c.children);
          var k :| 0 <= k < |c.children| && c.children[k] == n;
          ChildIsWithin(c, k, source);
        }
      }
    }
  }

  /** Where the one child leads in which the body of `c` is, or that is the body itself. */
  lemma BodyIsUnder(c: Node, source: Bytes) returns (j: nat, through: bool)
    requires Nested(c, source) && BodyOf(c).Some?
    ensures j < |c.children| && Within(BodyOf(c).value, c.children[j])
    ensures if through then BodyOf(c.children[j]) == BodyOf(c) else BodyOf(c).value == c.children[j]
    ensures OnTheWay(c, c.children[j])
    ensures through ==> forall n :: OnTheWay(c.children[j], n) ==> OnTheWay(c, n)
  {
    if Field(c, c.body).Some? {
      j, through := c.body.value, false;
    } else {
      var wrapped := if Field(c, c.declaration).Some? then c.declaration else c.definition;
      if Field(c, wrapped).Some? {
        j, through := wrapped.value, BodyOf(c.children[wrapped.value]).Some?;
      } else {
        FirstContainerIsAChild(c.children);
        j :| 0 <= j < |c.children| && c.children[j] == BodyOf(c).value;
        through := false;
      }
    }
    ChildIsWithin(c, j, source);
    if through {
      BodyIsInside(c.children[j], source);
    }
  }

  /** A node below an opened one is on the way to its body, below the body, or apart from it. */
  lemma {:induction false} WhereItLies(c: Node, n: Node, source: Bytes)
    requires Nested(c, source) && BodyOf(c).Some? && Below(c, n)
    ensures OnTheWay(c, n) || Below(BodyOf(c).value, n) || Apart(n, BodyOf(c).value)
    decreases c
  {
    hide Nested, BodyOf, OnTheWay;
    var j, through := BodyIsUnder(c, source);
    var k :| 0 <= k < |c.children| && (c.children[k] == n || Below(c.children[k], n));
    ChildIsWithin(c, k, source);
    if k == j {
      if c.children[k] != n && through {
        WhereItLies(c.children[j], n, source);
      }
    } else {
      if c.children[k] != n {
        BelowIsWithin(c.children[k], n, source);
      }
      SiblingsAreApart(c, k, j, source, n, BodyOf(c).value);
    }
  }

  /** A cut made at one of the children lies inside no node below. */
  lemma LeadingStartIsOutside(node: Node, index: nat, source: Bytes, n: Node)
    requires Nested(node, source) && index < |node.children| && Below(node, n)
    ensures !Inside(LeadingStart(node.children, index, source), n)
  {
    hide Nested, LeadingIndex;
    LeadingStartInRange(node, index, source);
    var k :| 0 <= k < |node.children| && (node.children[k] == n || Below(node.children[k], n));
    ChildIsWithin(node, k, source);
    if node.children[k] != n {
      BelowIsWithin(node.children[k], n, source);
    }
  }

  /** Where a new cut of the walk comes from: one of the children's own, or the walk of an opened one's body. */
  lemma {:induction false} WhereACutComesFrom(
      node: Node, index: nat, source: Bytes, options: Options, depth: nat, cuts: Cuts, x: nat)
    returns (i: nat, before: Cuts)
    requires Nested(node, source) && index <= |node.children|
    requires x in CollectFrom(node, index, source, options, depth, cuts) && x !in cuts
    ensures index <= i < |node.children| && IsDefinition(node.children[i].kind)
    ensures x == LeadingStart(node.children, i, source) ||
      (Opened(node.children[i], options, depth) && x !in before
       && x in CollectFrom(BodyOf(node.children[i]).value, 0, source, options, depth + 1, before))
    decreases |node.children| - index
  {
    hide Nested, LeadingStart, BodyOf, IsDefinition;
    var child := node.children[index];
    if !IsDefinition(child.kind) {
      i, before := WhereACutComesFrom(node, index + 1, source, options, depth, cuts, x);
    } else {
      var here := OrInsert(cuts, LeadingStart(node.children, index, source), child.symbol);
      var inside := if Opened(child, options, depth)
        then CollectFrom(BodyOf(child).value, 0, source, options, depth + 1, here) else here;
      if x in inside {
        i, before := index, here;
      } else {
        i, before := WhereACutComesFrom(node, index + 1, source, options, depth, inside, x);
      }
    }
  }

  /** A cut from the walk of child `i`'s body lies inside no node below another child. */
  lemma CutStaysInItsChild(
      node: Node, i: nat, k: nat, source: Bytes, options: Options, depth: nat, before: Cuts, x: nat, n: Node)
    requires Nested(node, source) && i < |node.children| && Opened(node.children[i], options, depth)
    requires x in CollectFrom(BodyOf(node.children[i]).value, 0, source, options, depth + 1, before) && x !in before
    requires k < |node.children| && Within(n, node.children[k]) && Inside(x, n)
    ensures k == i && BodyOf(node.children[i]).value.start <= x <= BodyOf(node.children[i]).value.end
  {
    hide BodyOf, IsDefinition, CollectFrom;
    var body := OpenedBody(node, i, source, options, depth);
    WalkIsConfined(body, 0, source, options, depth + 1, before);
    if k != i {
      SiblingsAreApart(node, k, i, source, n, node.children[i]);
    }
  }

  /** The walk of `node` cuts strictly between `lo` and `hi`. */
  predicate CutsBetween(node: Node, source: Bytes, options: Options, depth: nat, lo: nat, hi: nat)
    decreases MAX_DEPTH - depth
  {
    exists i :: 0 <= i < |node.children| && IsDefinition(node.children[i].kind)
      && (lo < LeadingStart(node.children, i, source) < hi
          || (Opened(node.children[i], options, depth)
              && CutsBetween(BodyOf(node.children[i]).value, source, options, depth + 1, lo, hi)))
  }

  lemma {:induction false} NewCutsAreBetween(
      node: Node, source: Bytes, options: Options, depth: nat, cuts: Cuts, x: nat, lo: nat, hi: nat)
    requires Nested(node, source) && lo < x < hi
    requires x in CollectFrom(node, 0, source, options, depth, cuts) && x !in cuts
    ensures CutsBetween(node, source, options, depth, lo, hi)
    decreases MAX_DEPTH - depth
  {
    hide Nested, LeadingStart, BodyOf, IsDefinition, CollectFrom;
    var i, before := WhereACutComesFrom(node, 0, source, options, depth, cuts, x);
    if x != LeadingStart(node.children, i, source) {
      var body := OpenedBody(node, i, source, options, depth);
      NewCutsAreBetween(body, source, options, depth + 1, before, x, lo, hi);
    }
  }

  lemma {:induction false} WalkKeepsCuts(
      node: Node, index: nat, source: Bytes, options: Options, depth: nat, cuts: Cuts)
    ensures cuts.Keys <= CollectFrom(node, index, source, options, depth, cuts).Keys
    decreases MAX_DEPTH - depth, |node.children| - index
  {
    hide LeadingStart, BodyOf, IsDefinition;
    if index < |node.children| {
      var child := node.children[index];
      if !IsDefinition(child.kind) {
        WalkKeepsCuts(node, index + 1, source, options, depth, cuts);
      } else {
        var here := OrInsert(cuts, LeadingStart(node.children, index, source), child.symbol);
        var inside := here;
        if Opened(child, options, depth) {
          inside := CollectFrom(BodyOf(child).value, 0, source, options, depth + 1, here);
          WalkKeepsCuts(BodyOf(child).value, 0, source, options, depth + 1, here);
        }
        WalkKeepsCuts(node, index + 1, source, options, depth, inside);
      }
    }
  }

  /** The walk gets to every definition among the children, and into every one it opens. */
  lemma {:induction false} WalkReaches(
      node: Node, index: nat, i: nat, source: Bytes, options: Options, depth: nat, cuts: Cuts) returns (before: Cuts)
    requires index <= i < |node.children| && IsDefinition(node.children[i].kind)
    ensures var all := CollectFrom(node, index, source, options, depth, cuts);
      && LeadingStart(node.children, i, source) in all
      && (Opened(node.children[i], options, depth) ==>
            CollectFrom(BodyOf(node.children[i]).value, 0, source, options, depth + 1, before).Keys <= all.Keys)
    decreases i - index
  {
    hide LeadingStart, BodyOf, IsDefinition;
    var child := node.children[index];
    if !IsDefinition(child.kind) {
      before := WalkReaches(node, index + 1, i, source, options, depth, cuts);
    } else {
      var here := OrInsert(cuts, LeadingStart(node.children, index, source), child.symbol);
      var inside := if Opened(child, options, depth)
        then CollectFrom(BodyOf(child).value, 0, source, options, depth + 1, here) else here;
      if i == index {
        before := here;
        if Opened(child, options, depth) {
          WalkKeepsCuts(BodyOf(child).value, 0, source, options, depth + 1, here);
        }
        WalkKeepsCuts(node, index + 1, source, options, depth, inside);
      } else {
        before := WalkReaches(node, index + 1, i, source, options, depth, inside);
      }
    }
  }

  lemma {:induction false} BetweenIsCut(
      node: Node, source: Bytes, options: Options, depth: nat, cuts: Cuts, lo: nat, hi: nat) returns (x: nat)
    requires CutsBetween(node, source, options, depth, lo, hi)
    ensures lo < x < hi && x in CollectFrom(node, 0, source, options, depth, cuts)
    decreases MAX_DEPTH - depth
  {
    hide LeadingStart, BodyOf, IsDefinition, CollectFrom;
    var i :| 0 <= i < |node.children| && IsDefinition(node.children[i].kind)
      && (lo < LeadingStart(node.children, i, source) < hi
          || (Opened(node.children[i], options, depth)
              && CutsBetween(BodyOf(node.children[i]).value, source, options, depth + 1, lo, hi)));
    var before := WalkReaches(node, 0, i, source, options, depth, cuts);
    x := LeadingStart(node.children, i, source);
    if !(lo < x < hi) {
      x := BetweenIsCut(BodyOf(node.children[i]).value, source, options, depth + 1, before, lo, hi);
    }
  }

  /** Some node the walk opened has `n` on the way to its body. */
  predicate SteppedThrough(node: Node, options: Options, depth: nat, n: Node)
    decreases MAX_DEPTH - depth
  {
    exists k :: 0 <= k < |node.children| && Opened(node.children[k], options, depth)
      && (OnTheWay(node.children[k], n) || SteppedThrough(BodyOf(node.children[k]).value, options, depth + 1, n))
  }

  /** And below that body the walk cuts strictly inside `n`. */
  predicate CutThrough(node: Node, source: Bytes, options: Options, depth: nat, n: Node)
    decreases MAX_DEPTH - depth
  {
    exists k :: 0 <= k < |node.children| && Opened(node.children[k], options, depth)
      && ((OnTheWay(node.children[k], n)
           && CutsBetween(BodyOf(node.children[k]).value, source, options, depth + 1, n.start, n.end))
          || CutThrough(BodyOf(node.children[k]).value, source, options, depth + 1, n))
  }

  lemma {:induction false} CutThroughIsSteppedThrough(
      node: Node, source: Bytes, options: Options, depth: nat, n: Node)
    requires CutThrough(node, source, options, depth, n)
    ensures SteppedThrough(node, options, depth, n)
    decreases MAX_DEPTH - depth
  {
    hide BodyOf, IsDefinition, OnTheWay, CutsBetween;
    var k :| 0 <= k < |node.children| && Opened(node.children[k], options, depth)
      && ((OnTheWay(node.children[k], n)
           && CutsBetween(BodyOf(node.children[k]).value, source, options, depth + 1, n.start, n.end))
          || CutThrough(BodyOf(node.children[k]).value, source, options, depth + 1, n));
    if !OnTheWay(node.children[k], n) {
      CutThroughIsSteppedThrough(BodyOf(node.children[k]).value, source, options, depth + 1, n);
    }
  }

  /**
   * A new cut inside a node, any node of the tree, is there because the walk stepped through that
   * node on its way into an oversized container above the depth limit, and cut below.
   */
  lemma {:induction false} CutsRespectTheTree(
      node: Node, source: Bytes, options: Options, depth: nat, cuts: Cuts, x: nat, n: Node)
    requires Nested(node, source) && Below(node, n) && Inside(x, n)
    requires x in CollectFrom(node, 0, source, options, depth, cuts) && x !in cuts
    ensures CutThrough(node, source, options, depth, n)
    decreases MAX_DEPTH - depth
  {
    hide Nested, LeadingIndex, BodyOf, IsDefinition, OnTheWay, CollectFrom, CutsBetween;
    var i, before := WhereACutComesFrom(node, 0, source, options, depth, cuts, x);
    LeadingStartIsOutside(node, i, source, n);
    var body := OpenedBody(node, i, source, options, depth);
    NewCutsAreBetween(body, source, options, depth + 1, before, x, n.start, n.end);
    var k :| 0 <= k < |node.children| && (node.children[k] == n || Below(node.children[k], n));
    ChildIsWithin(node, k, source);
    if node.children[k] == n {
      CutStaysInItsChild(node, i, k, source, options, depth, before, x, n);
      ItselfIsOnTheWay(n);
    } else {
      BelowIsWithin(node.children[k], n, source);
      CutStaysInItsChild(node, i, k, source, options, depth, before, x, n);
      WhereItLies(node.children[i], n, source);
      if Below(body, n) {
        CutsRespectTheTree(body, source, options, depth + 1, before, x, n);
      }
    }
  }

  lemma {:induction false} CutThroughIsCut(
      node: Node, source: Bytes, options: Options, depth: nat, cuts: Cuts, n: Node) returns (x: nat)
    requires CutThrough(node, source, options, depth, n)
    ensures Inside(x, n) && x in CollectFrom(node, 0, source, options, depth, cuts)
    decreases MAX_DEPTH - depth
  {
    hide BodyOf, OnTheWay, CutsBetween, CollectFrom, LeadingStart;
    var k :| 0 <= k < |node.children| && Opened(node.children[k], options, depth)
      && ((OnTheWay(node.children[k], n)
           && CutsBetween(BodyOf(node.children[k]).value, source, options, depth + 1, n.start, n.end))
          || CutThrough(BodyOf(node.children[k]).value, source, options, depth + 1, n));
    var body := BodyOf(node.children[k]).value;
    var before := WalkReaches(node, 0, k, source, options, depth, cuts);
    if CutsBetween(body, source, options, depth + 1, n.start, n.end) {
      x := BetweenIsCut(body, source, options, depth + 1, before, n.start, n.end);
    } else {
      x := CutThroughIsCut(body, source, options, depth + 1, before, n);
    }
  }

  /**
   * When a node on the way to a body is cut, if it starts before that body: exactly when a
   * definition among the body's children, comments included, starts before the node ends. Without
   * empty nodes that is any definition at all.
   */
  lemma AnyDefinitionCuts(body: Node, source: Bytes, options: Options, depth: nat, n: Node)
    requires Nested(body, source) && n.start < body.start && body.end <= n.end
    ensures CutsBetween(body, source, options, depth, n.start, n.end) <==>
      exists i :: 0 <= i < |body.children| && IsDefinition(body.children[i].kind)
        && LeadingStart(body.children, i, source) < n.end
    ensures (forall i :: 0 <= i < |body.children| ==> body.children[i].start < body.children[i].end) ==>
      (CutsBetween(body, source, options, depth, n.start, n.end) <==>
       exists i :: 0 <= i < |body.children| && IsDefinition(body.children[i].kind))
  {
    hide Nested, BodyOf, IsDefinition, LeadingIndex;
    forall i | 0 <= i < |body.children|
      ensures n.start < LeadingStart(body.children, i, source) <= body.children[i].start
      ensures body.children[i].end <= n.end
      ensures Opened(body.children[i], options, depth)
        && CutsBetween(BodyOf(body.children[i]).value, source, options, depth + 1, n.start, n.end)
        ==> LeadingStart(body.children, i, source) < n.end
    {
      LeadingStartInRange(body, i, source);
      LeadingStartIsBefore(body, i, source);
      ChildIsWithin(body, i, source);
      if Opened(body.children[i], options, depth)
        && CutsBetween(BodyOf(body.children[i]).value, source, options, depth + 1, n.start, n.end)
      {
        var inner := OpenedBody(body, i, source, options, depth);
        var x := BetweenIsCut(inner, source, options, depth + 1, map[], n.start, n.end);
        WalkIsConfined(inner, 0, source, options, depth + 1, map[]);
      }
    }
  }

  lemma LeadingStartIsBefore(node: Node, index: nat, source: Bytes)
    requires Nested(node, source) && index < |node.children|
    ensures LeadingStart(node.children, index, source) <= node.children[index].start
  {
    var first := LeadingIndex(node.children, index, source);
    ChildIsWithin(node, first, source);
  }

  lemma ItselfIsOnTheWay(n: Node)
    ensures OnTheWay(n, n)
  {
  }
}
