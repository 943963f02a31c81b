/** Values, merges and filters pinned down by what lies at every path, tables included. */
module ConfigShapes {
  import opened Prelude
  import opened ConfigLayers
  import opened ConfigPaths
  import opened ConfigOverlay

  predicate TableAt(value: Value, path: Path)
    decreases value
  {
    && value.Table?
    && (path != [] ==> path[0] in value.entries && TableAt(value.entries[path[0]], path[1..]))
  }

  /** The same leaves and the same tables, empty ones included, at every path. */
  ghost predicate Alike(a: Value, b: Value) {
    forall path :: LeafAt(a, path) == LeafAt(b, path) && (TableAt(a, path) <==> TableAt(b, path))
  }

  lemma BelowKey(value: Value, key: string, path: Path)
    requires value.Table?
    ensures LeafAt(value, [key] + path) == if key in value.entries then LeafAt(value.entries[key], path) else None
    ensures TableAt(value, [key] + path) <==> key in value.entries && TableAt(value.entries[key], path)
  {
    assert ([key] + path)[1..] == path;
  }

  lemma {:induction false} AlikeIsEqual(a: Value, b: Value)
    requires Alike(a, b)
    ensures a == b
    decreases a
  {
    hide LeafAt, TableAt;
    AtTheTop(a);
    AtTheTop(b);
    assert LeafAt(a, []) == LeafAt(b, []) && (TableAt(a, []) <==> TableAt(b, []));
    if a.Table? {
      forall key ensures key in a.entries <==> key in b.entries {
        BelowKey(a, key, []);
        BelowKey(b, key, []);
        if key in a.entries {
          AtTheTop(a.entries[key]);
        }
        if key in b.entries {
          AtTheTop(b.entries[key]);
        }
        assert LeafAt(a, [key] + []) == LeafAt(b, [key] + []);
        assert TableAt(a, [key] + []) <==> TableAt(b, [key] + []);
      }
      forall key | key in a.entries ensures a.entries[key] == b.entries[key] {
        forall path
          ensures LeafAt(a.entries[key], path) == LeafAt(b.entries[key], path)
          ensures TableAt(a.entries[key], path) <==> TableAt(b.entries[key], path)
        {
          BelowKey(a, key, path);
          BelowKey(b, key, path);
          assert LeafAt(a, [key] + path) == LeafAt(b, [key] + path);
          assert TableAt(a, [key] + path) <==> TableAt(b, [key] + path);
        }
        AlikeIsEqual(a.entries[key], b.entries[key]);
      }
    }
  }

  lemma AtTheTop(value: Value)
    ensures LeafAt(value, []) == match value { case Leaf(text) => Some(text) case Table(_) => None }
    ensures TableAt(value, []) <==> value.Table?
  {
  }

  /** The merge law for tables: where the upper one has a say it alone decides, and elsewhere nothing changes. */
  lemma {:induction false} TableLaw(base: Value, over: Value, path: Path)
    ensures TableAt(Merge(base, over), path) <==>
      if Touches(over, path) then TableAt(over, path) else TableAt(base, path)
    decreases over
  {
    if base.Table? && over.Table? && path != [] && path[0] in over.entries {
      var key := path[0];
      var merged := Merge(base, over);
      assert merged.entries[key] == MergeEntry(base.entries, key, over.entries[key]);
      if key in base.entries {
        TableLaw(base.entries[key], over.entries[key], path[1..]);
      } else {
        UntouchedHasNoTable(over.entries[key], path[1..]);
      }
    } else if base.Leaf? {
      UntouchedHasNoTable(over, path);
    }
  }

  lemma {:induction false} UntouchedHasNoTable(value: Value, path: Path)
    ensures !Touches(value, path) ==> !TableAt(value, path)
    decreases value
  {
    if path != [] && value.Table? && path[0] in value.entries {
      UntouchedHasNoTable(value.entries[path[0]], path[1..]);
    }
  }

  /** `merged` holds, at every path, what the upper table has there if it has a say, and the lower one's otherwise. */
  ghost predicate Overlaid(base: Value, over: Value, merged: Value) {
    forall path ::
      var deciding := if Touches(over, path) then over else base;
      LeafAt(merged, path) == LeafAt(deciding, path) && (TableAt(merged, path) <==> TableAt(deciding, path))
  }

  /** The merge is the one value that does so. */
  lemma MergeIsDetermined(base: Value, over: Value, merged: Value)
    ensures Overlaid(base, over, merged) <==> merged == Merge(base, over)
  {
    hide LeafAt, TableAt, Touches, Merge;
    var exact := Merge(base, over);
    forall path
      ensures var deciding := if Touches(over, path) then over else base;
        LeafAt(exact, path) == LeafAt(deciding, path) && (TableAt(exact, path) <==> TableAt(deciding, path))
    {
      MergeLaw(base, over, path);
      TableLaw(base, over, path);
    }
    if Overlaid(base, over, merged) {
      assert Alike(merged, exact);
      AlikeIsEqual(merged, exact);
    }
  }

  // ----- The filter -----

  /** No table strictly below the top is empty. */
  predicate DenseBelow(entries: map<string, Value>) {
    forall key :: key in entries ==> Dense(entries[key])
  }

  lemma {:induction false} DenseIsItsLeaves(a: Value, b: Value)
    requires Dense(a) && Dense(b) && forall path :: LeafAt(a, path) == LeafAt(b, path)
    ensures a == b
    decreases a, 1
  {
    AtTheTop(a);
    AtTheTop(b);
    if a.Leaf? || b.Leaf? {
      assert LeafAt(a, []) == LeafAt(b, []);
    } else {
      TablesAreTheirLeaves(a.entries, b.entries);
    }
  }

  lemma {:induction false} TablesAreTheirLeaves(a: map<string, Value>, b: map<string, Value>)
    requires DenseBelow(a) && DenseBelow(b) && forall path :: LeafAt(Table(a), path) == LeafAt(Table(b), path)
    ensures a == b
    decreases Table(a), 0
  {
    hide LeafAt, Dense;
    forall key ensures key in a <==> key in b {
      if key in a {
        KeyHasALeaf(a, b, key);
      }
      if key in b {
        KeyHasALeaf(b, a, key);
      }
    }
    forall key | key in a ensures a[key] == b[key] {
      forall path ensures LeafAt(a[key], path) == LeafAt(b[key], path) {
        BelowKey(Table(a), key, path);
        BelowKey(Table(b), key, path);
        assert LeafAt(Table(a), [key] + path) == LeafAt(Table(b), [key] + path);
      }
      DenseIsItsLeaves(a[key], b[key]);
    }
  }

  lemma KeyHasALeaf(a: map<string, Value>, b: map<string, Value>, key: string)
    requires key in a && DenseBelow(a) && forall path :: LeafAt(Table(a), path) == LeafAt(Table(b), path)
    ensures key in b
  {
    hide LeafAt, Dense;
    var path := DenseHasALeaf(a[key]);
    BelowKey(Table(a), key, path);
    BelowKey(Table(b), key, path);
    assert LeafAt(Table(a), [key] + path) == LeafAt(Table(b), [key] + path);
  }

  /**
   * What the filter keeps is the one table that has no empty table below its top and has, at every
   * path, the document's leaf when its dotted name is listed and none otherwise.
   */
  lemma FilterIsDetermined(document: map<string, Value>, kept: map<string, Value>)
    ensures Table(kept) == Filtered(document) <==>
      (DenseBelow(kept)
       && forall path ::
            LeafAt(Table(kept), path) == if Overridable(Dotted(path)) then LeafAt(Table(document), path) else None)
  {
    hide LeafAt, Dense, Overridable, Dotted, Kept;
    var exact := Filtered(document).entries;
    forall key | key in exact ensures Dense(exact[key]) {
      KeptIsDense(document[key], Join("", key));
    }
    forall path
      ensures LeafAt(Table(exact), path) == if Overridable(Dotted(path)) then LeafAt(Table(document), path) else None
    {
      FilterKeepsExactlyTheAllowed(document, path);
    }
    if DenseBelow(kept) && forall path ::
      LeafAt(Table(kept), path) == if Overridable(Dotted(path)) then LeafAt(Table(document), path) else None
    {
      forall path ensures LeafAt(Table(kept), path) == LeafAt(Table(exact), path) {
      }
      TablesAreTheirLeaves(kept, exact);
    }
  }

  /** A name is reported exactly when some leaf of that name was not kept. */
  lemma TheLostAreReported(document: map<string, Value>, name: string)
    ensures name in Refused(LeafNames(Table(document), "")) <==>
      exists path :: LeafAt(Table(document), path).Some? && Dotted(path) == name
        && LeafAt(Filtered(document), path).None?
  {
    hide LeafAt, Overridable, LeafNames;
    if name in Refused(LeafNames(Table(document), "")) {
      var path := NameHasItsLeaf(Table(document), "", name);
      FilterKeepsExactlyTheAllowed(document, path);
    }
    if path :| LeafAt(Table(document), path).Some? && Dotted(path) == name && LeafAt(Filtered(document), path).None? {
      LeafHasItsName(Table(document), "", path);
      FilterKeepsExactlyTheAllowed(document, path);
    }
  }
}
