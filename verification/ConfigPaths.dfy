/** What the layered merge means, path by path, and what its dotted names can be trusted for. */
module ConfigPaths {
  import opened Prelude
  import opened ConfigLayers

  /** The leaf at a path, when there is one. */
  function LeafAt(value: Value, path: Path): Option<string>
    decreases value
  {
    match value
    case Leaf(text) => if path == [] then Some(text) else None
    case Table(entries) => if path != [] && path[0] in entries then LeafAt(entries[path[0]], path[1..]) else None
  }

  /** `over` has a say at `path`: something sits exactly there, or a leaf sits above it. */
  predicate Touches(over: Value, path: Path)
    decreases over
  {
    || path == []
    || over.Leaf?
    || (path[0] in over.entries && Touches(over.entries[path[0]], path[1..]))
  }

  /** The merge law: where the upper table has a say, it alone decides; elsewhere nothing changes. */
  lemma {:induction false} MergeLaw(base: Value, over: Value, path: Path)
    ensures LeafAt(Merge(base, over), path) == if Touches(over, path) then LeafAt(over, path) else LeafAt(base, path)
    decreases over
  {
    if base.Table? && over.Table? && path != [] && path[0] in over.entries {
      var key := path[0];
      var merged := Merge(base, over);
      assert merged.entries[key] == MergeEntry(base.entries, key, over.entries[key]);
      if key in base.entries {
        MergeLaw(base.entries[key], over.entries[key], path[1..]);
      } else {
        UntouchedIsEmpty(over.entries[key], path[1..]);
      }
    } else if base.Leaf? {
      UntouchedIsEmpty(over, path);
    }
  }

  lemma {:induction false} UntouchedIsEmpty(value: Value, path: Path)
    ensures !Touches(value, path) ==> LeafAt(value, path) == None
    decreases value
  {
    if path != [] && value.Table? && path[0] in value.entries {
      UntouchedIsEmpty(value.entries[path[0]], path[1..]);
    }
  }

  /** Merging the same layer again changes nothing. */
  lemma {:induction false} MergeIsIdempotent(base: Value, over: Value)
    ensures Merge(Merge(base, over), over) == Merge(base, over)
    decreases over
  {
    var once := Merge(base, over);
    if over.Table? && base.Table? {
      forall key | key in over.entries
        ensures MergeEntry(once.entries, key, over.entries[key]) == MergeEntry(base.entries, key, over.entries[key])
      {
        if key in base.entries {
          MergeIsIdempotent(base.entries[key], over.entries[key]);
        } else {
          MergeWithItself(over.entries[key]);
        }
      }
      assert Merge(once, over).entries == once.entries;
    } else {
      MergeWithItself(over);
    }
  }

  lemma {:induction false} MergeWithItself(value: Value)
    ensures Merge(value, value) == value
    decreases value
  {
    if value.Table? {
      forall key | key in value.entries
        ensures MergeEntry(value.entries, key, value.entries[key]) == value.entries[key]
      {
        MergeWithItself(value.entries[key]);
      }
      assert Merge(value, value).entries == value.entries;
    }
  }

  // ----- Dotted names -----

  function DottedFrom(prefix: string, path: Path): string
    decreases |path|
  {
    if path == [] then prefix else DottedFrom(Join(prefix, path[0]), path[1..])
  }

  /** The name a path is recorded under. */
  function Dotted(path: Path): string {
    DottedFrom("", path)
  }

  function Split(s: string): (parts: seq<string>)
    ensures parts != []
  {
    if s == [] then [[]]
    else
      var rest := Split(s[1..]);
      if s[0] == '.' then [[]] + rest else [[s[0]] + rest[0]] + rest[1..]
  }

  predicate PlainKey(key: string) {
    key != [] && '.' !in key
  }

  predicate PlainPath(path: Path) {
    forall k :: 0 <= k < |path| ==> PlainKey(path[k])
  }

  predicate PlainTable(value: Value)
    decreases value
  {
    value.Table? ==> forall key :: key in value.entries ==> PlainKey(key) && PlainTable(value.entries[key])
  }

  lemma {:induction false} SplitKey(key: string, rest: string)
    requires '.' !in key
    ensures Split(key) == [key]
    ensures Split(key + "." + rest) == [key] + Split(rest)
  {
    if key == [] {
      assert key + "." + rest == "." + rest;
      assert ("." + rest)[1..] == rest;
    } else {
      SplitKey(key[1..], rest);
      assert (key + "." + rest)[1..] == key[1..] + "." + rest;
      assert [key[0]] + key[1..] == key;
    }
  }

  lemma {:induction false} SplitDotted(prefix: string, path: Path)
    requires PlainKey(prefix) && PlainPath(path)
    ensures Split(DottedFrom(prefix, path)) == [prefix] + path
    decreases |path|
  {
    if path == [] {
      SplitKey(prefix, "");
    } else {
      DottedFromSplits(prefix, path);
      SplitDotted(path[0], path[1..]);
      SplitKey(prefix, DottedFrom(path[0], path[1..]));
      assert [path[0]] + path[1..] == path;
    }
  }

  lemma {:induction false} DottedFromSplits(prefix: string, path: Path)
    requires prefix != "" && path != [] && PlainPath(path)
    ensures DottedFrom(prefix, path) == prefix + "." + DottedFrom(path[0], path[1..])
    decreases |path|
  {
    if |path| > 1 {
      DottedFromSplits(prefix + "." + path[0], path[1..]);
      DottedFromSplits(path[0], path[1..]);
      assert prefix + "." + path[0] + "." + DottedFrom(path[1], path[1..][1..])
          == prefix + "." + (path[0] + "." + DottedFrom(path[1], path[1..][1..]));
    }
  }

  /** Between plain keys, the dotted name is the path: splitting it on dots gives the keys back. */
  lemma DottedRoundTrip(path: Path)
    requires path != [] && PlainPath(path)
    ensures Split(Dotted(path)) == path
  {
    SplitDotted(path[0], path[1..]);
    assert [path[0]] + path[1..] == path;
  }

  lemma DottedIsInjective(p: Path, q: Path)
    requires p != [] && q != [] && PlainPath(p) && PlainPath(q) && Dotted(p) == Dotted(q)
    ensures p == q
  {
    DottedRoundTrip(p);
    DottedRoundTrip(q);
  }

  // ----- Names and leaves -----

  lemma {:induction false} LeafHasItsName(value: Value, prefix: string, path: Path)
    requires LeafAt(value, path).Some?
    ensures DottedFrom(prefix, path) in LeafNames(value, prefix)
    decreases value
  {
    if path != [] {
      LeafHasItsName(value.entries[path[0]], Join(prefix, path[0]), path[1..]);
    }
  }

  lemma {:induction false} NameHasItsLeaf(value: Value, prefix: string, name: string) returns (path: Path)
    requires name in LeafNames(value, prefix)
    ensures LeafAt(value, path).Some? && DottedFrom(prefix, path) == name
    ensures PlainTable(value) ==> PlainPath(path)
    decreases value
  {
    match value {
      case Leaf(_) => path := [];
      case Table(entries) =>
        var key :| key in entries && name in LeafNames(entries[key], Join(prefix, key));
        var rest := NameHasItsLeaf(entries[key], Join(prefix, key), name);
        path := [key] + rest;
        assert path[1..] == rest;
    }
  }

  lemma {:induction false} LeafPathIsPlain(value: Value, path: Path)
    requires PlainTable(value) && LeafAt(value, path).Some?
    ensures PlainPath(path) && (value.Table? ==> path != [])
    decreases value
  {
    if path != [] {
      LeafPathIsPlain(value.entries[path[0]], path[1..]);
      assert path == [path[0]] + path[1..];
    }
  }

  /** In a plain table, a name is recorded exactly for the path it spells. */
  lemma NamesAreExact(value: Value, path: Path)
    requires value.Table? && PlainTable(value) && path != [] && PlainPath(path)
    ensures Dotted(path) in LeafNames(value, "") <==> LeafAt(value, path).Some?
  {
    if LeafAt(value, path).Some? {
      LeafHasItsName(value, "", path);
    }
    if Dotted(path) in LeafNames(value, "") {
      var other := NameHasItsLeaf(value, "", Dotted(path));
      LeafPathIsPlain(value, other);
      DottedIsInjective(path, other);
    }
  }

  // ----- Provenance over a whole stack of layers -----

  predicate PlainLayers(layers: seq<LayerTable>) {
    forall k :: 0 <= k < |layers| ==> layers[k].table.Table? && PlainTable(layers[k].table)
  }

  /** Layer `i` is the last one with a leaf at `path`, and nothing above it has a say there. */
  predicate LastWriter(layers: seq<LayerTable>, path: Path, i: nat) {
    && i < |layers|
    && LeafAt(layers[i].table, path).Some?
    && forall j :: i < j < |layers| ==> !Touches(layers[j].table, path)
  }

  /** With or without plain keys, an effective leaf holds what its last writer wrote. */
  lemma {:induction false} EffectiveLeafHasAWriter(layers: seq<LayerTable>, path: Path) returns (i: nat)
    requires LeafAt(Stacked(layers), path).Some?
    ensures LastWriter(layers, path, i)
    ensures LeafAt(Stacked(layers), path) == LeafAt(layers[i].table, path)
    decreases |layers|
  {
    var n := |layers| - 1;
    MergeLaw(Stacked(layers[..n]), layers[n].table, path);
    if Touches(layers[n].table, path) {
      i := n;
    } else {
      i := EffectiveLeafHasAWriter(layers[..n], path);
      assert forall j :: i < j < n ==> layers[..n][j] == layers[j];
    }
  }

  /** And whatever the last writer wrote is effective. */
  lemma {:induction false} WriterIsEffective(layers: seq<LayerTable>, path: Path, i: nat)
    requires LastWriter(layers, path, i)
    ensures LeafAt(Stacked(layers), path) == LeafAt(layers[i].table, path)
    decreases |layers|
  {
    var n := |layers| - 1;
    MergeLaw(Stacked(layers[..n]), layers[n].table, path);
    if i < n {
      WriterIsEffective(layers[..n], path, i);
    } else {
      UntouchedIsEmpty(layers[n].table, path);
    }
  }

  /** The ledger names, for every path, the last layer with a leaf there, and nothing else. */
  lemma {:induction false} LedgerNamesTheLastLeaf(layers: seq<LayerTable>, path: Path, i: nat)
    requires PlainLayers(layers) && path != [] && PlainPath(path)
    requires i < |layers| && LeafAt(layers[i].table, path).Some?
    requires forall j :: i < j < |layers| ==> LeafAt(layers[j].table, path).None?
    ensures Dotted(path) in Recorded(layers) && Recorded(layers)[Dotted(path)] == layers[i].layer
    decreases |layers|
  {
    var n := |layers| - 1;
    NamesAreExact(layers[n].table, path);
    if i < n {
      LedgerNamesTheLastLeaf(layers[..n], path, i);
    }
  }

  lemma {:induction false} LedgerHoldsOnlyLeaves(layers: seq<LayerTable>, path: Path)
    requires PlainLayers(layers) && path != [] && PlainPath(path)
    ensures Dotted(path) in Recorded(layers) <==>
      exists i :: 0 <= i < |layers| && LeafAt(layers[i].table, path).Some?
    decreases |layers|
  {
    hide LeafAt, PlainTable;
    if layers != [] {
      var n := |layers| - 1;
      LedgerHoldsOnlyLeaves(layers[..n], path);
      NamesAreExact(layers[n].table, path);
      if i :| 0 <= i < n && LeafAt(layers[..n][i].table, path).Some? {
        assert LeafAt(layers[i].table, path).Some?;
      }
      if i :| 0 <= i < |layers| && LeafAt(layers[i].table, path).Some? {
        assert i < n ==> LeafAt(layers[..n][i].table, path).Some?;
      }
    }
  }

  /**
   * Last writer wins, and the ledger says so. Every leaf of the effective configuration has one
   * last writer: its value is that layer's, no later layer has anything at that path or above it,
   * and the ledger credits exactly that layer. Conversely, whatever has a last writer is effective.
   */
  lemma ProvenanceIsLastWriterWins(layers: seq<LayerTable>, path: Path)
    requires PlainLayers(layers)
    ensures LeafAt(Stacked(layers), path).Some? <==> exists i: nat :: LastWriter(layers, path, i)
    ensures forall i: nat | LastWriter(layers, path, i) ::
      && LeafAt(Stacked(layers), path) == LeafAt(layers[i].table, path)
      && Dotted(path) in Recorded(layers) && Recorded(layers)[Dotted(path)] == layers[i].layer
  {
    if LeafAt(Stacked(layers), path).Some? {
      var i := EffectiveLeafHasAWriter(layers, path);
    }
    forall i: nat | LastWriter(layers, path, i)
      ensures LeafAt(Stacked(layers), path) == LeafAt(layers[i].table, path)
      ensures Dotted(path) in Recorded(layers) && Recorded(layers)[Dotted(path)] == layers[i].layer
    {
      WriterIsEffective(layers, path, i);
      LeafPathIsPlain(layers[i].table, path);
      forall j | i < j < |layers| ensures LeafAt(layers[j].table, path).None? {
        UntouchedIsEmpty(layers[j].table, path);
      }
      LedgerNamesTheLastLeaf(layers, path, i);
    }
  }

  /**
   * The other direction does not hold: an entry can outlive its leaf. A ledger entry is live exactly
   * when no layer above the last one with that leaf put a table there or a leaf above it.
   */
  lemma LedgerEntryIsLiveExactly(layers: seq<LayerTable>, path: Path, i: nat)
    requires PlainLayers(layers) && path != [] && PlainPath(path)
    requires i < |layers| && LeafAt(layers[i].table, path).Some?
    requires forall j :: i < j < |layers| ==> LeafAt(layers[j].table, path).None?
    ensures Dotted(path) in Recorded(layers)
    ensures LeafAt(Stacked(layers), path).Some? <==> forall j :: i < j < |layers| ==> !Touches(layers[j].table, path)
  {
    LedgerNamesTheLastLeaf(layers, path, i);
    if LeafAt(Stacked(layers), path).Some? {
      var writer := EffectiveLeafHasAWriter(layers, path);
      UntouchedIsEmpty(layers[i].table, path);
      assert writer == i;
    } else if forall j :: i < j < |layers| ==> !Touches(layers[j].table, path) {
      WriterIsEffective(layers, path, i);
    }
  }

  /** So entries do go stale: a lower layer sets `a.b` and the repository then sets `a` itself. */
  lemma LedgerEntriesCanGoStale(lower: Value, upper: Value, layers: seq<LayerTable>)
    requires lower == Table(map["a" := Table(map["b" := Leaf("1")])]) && upper == Table(map["a" := Leaf("2")])
    requires layers == [LayerTable(Defaults, lower), LayerTable(Repo, upper)]
    ensures Dotted(["a", "b"]) in Recorded(layers) && LeafAt(Stacked(layers), ["a", "b"]).None?
  {
    hide Recorded, Stacked, Dotted;
    var path := ["a", "b"];
    assert path[1..] == ["b"] && ["b"][1..] == [];
    assert LeafAt(layers[0].table, path) == Some("1") && LeafAt(layers[1].table, path).None?;
    assert Touches(layers[1].table, path);
    LedgerEntryIsLiveExactly(layers, path, 0);
  }

  /** Whatever the keys look like, a name is credited to the last layer with a leaf of that name. */
  lemma {:induction false} LedgerCreditsTheLastOfTheName(layers: seq<LayerTable>, name: string, i: nat)
    requires i < |layers| && name in LeafNames(layers[i].table, "")
    requires forall j :: i < j < |layers| ==> name !in LeafNames(layers[j].table, "")
    ensures name in Recorded(layers) && Recorded(layers)[name] == layers[i].layer
    decreases |layers|
  {
    var n := |layers| - 1;
    if i < n {
      LedgerCreditsTheLastOfTheName(layers[..n], name, i);
    }
  }

  lemma {:induction false} LastOfTheName(layers: seq<LayerTable>, name: string, from: nat) returns (i: nat)
    requires from < |layers| && name in LeafNames(layers[from].table, "")
    ensures from <= i < |layers| && name in LeafNames(layers[i].table, "")
    ensures forall j :: i < j < |layers| ==> name !in LeafNames(layers[j].table, "")
    decreases |layers| - from
  {
    if k :| from < k < |layers| && name in LeafNames(layers[k].table, "") {
      i := LastOfTheName(layers, name, k);
    } else {
      i := from;
    }
  }

  /**
   * Without plain keys the credit can go astray, and exactly so: it is right when no layer above the
   * writer has a leaf whose dotted name merely reads the same.
   */
  lemma CreditIsRightExactly(layers: seq<LayerTable>, path: Path, i: nat)
    requires LastWriter(layers, path, i)
    requires forall j :: i < j < |layers| ==> layers[j].layer != layers[i].layer
    ensures Dotted(path) in Recorded(layers)
    ensures Recorded(layers)[Dotted(path)] == layers[i].layer <==>
      forall j :: i < j < |layers| ==> Dotted(path) !in LeafNames(layers[j].table, "")
  {
    hide Recorded;
    LeafHasItsName(layers[i].table, "", path);
    var last := LastOfTheName(layers, Dotted(path), i);
    LedgerCreditsTheLastOfTheName(layers, Dotted(path), last);
  }

  /** It does go astray once a key holds a dot: two paths can then share one name. */
  lemma DottedKeysShareAName()
    ensures exists layers: seq<LayerTable>, path: Path, i: nat ::
      && LastWriter(layers, path, i) && Dotted(path) in Recorded(layers)
      && Recorded(layers)[Dotted(path)] != layers[i].layer
  {
    var lower := Table(map["a" := Table(map["b" := Leaf("1")])]);
    var upper := Table(map["a.b" := Leaf("2")]);
    var layers := [LayerTable(Defaults, lower), LayerTable(Repo, upper)];
    var path, quoted := ["a", "b"], ["a.b"];
    assert path[1..] == ["b"] && ["b"][1..] == [] && quoted[1..] == [];
    assert LeafAt(lower, path) == Some("1") && LeafAt(upper, quoted) == Some("2");
    assert Dotted(path) == "a.b" by {
      assert DottedFrom("a", ["b"]) == DottedFrom("a" + "." + "b", []);
    }
    assert Dotted(quoted) == "a.b";
    LeafHasItsName(upper, "", quoted);
    assert LastWriter(layers, path, 0);
    assert Recorded(layers)[Dotted(path)] == Repo;
  }
}
