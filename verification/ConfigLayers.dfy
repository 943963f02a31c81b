/**
 * Layered configuration: tables merge key by key, anything else replaces, and the merge records
 * under each leaf's dotted name which layer wrote it.
 */
module ConfigLayers {
  /** A TOML value. A leaf is a scalar or a whole array, kept as its text. */
  datatype Value = Leaf(text: string) | Table(entries: map<string, Value>)

  type Path = seq<string>

  datatype Layer = Defaults | Preset | Repo | Flag

  type Provenance = map<string, Layer>

  function Join(prefix: string, key: string): string {
    if prefix == "" then key else prefix + "." + key
  }

  // ----- Merging -----

  function MergeEntry(base: map<string, Value>, key: string, over: Value): Value
    decreases over, 1
  {
    if key in base then Merge(base[key], over) else over
  }

  function Merge(base: Value, over: Value): Value
    decreases over, 0
  {
    if base.Table? && over.Table? then
      Table(map key | key in base.entries.Keys + over.entries.Keys ::
        if key in over.entries then MergeEntry(base.entries, key, over.entries[key]) else base.entries[key])
    else over
  }

  /** The dotted names of the leaves below a value. */
  function LeafNames(value: Value, name: string): set<string>
    decreases value
  {
    match value
    case Leaf(_) => {name}
    case Table(entries) =>
      set key, n | key in entries && n in LeafNames(entries[key], Join(name, key)) :: n
  }

  function NamesAt(entries: map<string, Value>, keys: set<string>, prefix: string): set<string> {
    set key, n | key in keys && key in entries && n in LeafNames(entries[key], Join(prefix, key)) :: n
  }

  /** The ledger after one layer claims every one of `names`. */
  function Stamp(provenance: Provenance, names: set<string>, layer: Layer): Provenance {
    map n | n in provenance.Keys + names :: if n in names then layer else provenance[n]
  }

  lemma StampTwice(provenance: Provenance, first: set<string>, second: set<string>, layer: Layer)
    ensures Stamp(Stamp(provenance, first, layer), second, layer) == Stamp(provenance, first + second, layer)
  {
  }

  lemma NamesOfOneMore(entries: map<string, Value>, done: set<string>, key: string, prefix: string)
    requires key in entries
    ensures NamesAt(entries, done + {key}, prefix)
      == NamesAt(entries, done, prefix) + LeafNames(entries[key], Join(prefix, key))
  {
  }

  lemma NoNamesYet(provenance: Provenance, value: Value, layer: Layer, prefix: string)
    requires value.Table?
    ensures Stamp(provenance, NamesAt(value.entries, {}, prefix), layer) == provenance
    ensures NamesAt(value.entries, value.entries.Keys, prefix) == LeafNames(value, prefix)
  {
  }

  method RecordValue(value: Value, layer: Layer, provenance: Provenance, path: string) returns (recorded: Provenance)
    ensures recorded == Stamp(provenance, LeafNames(value, path), layer)
    decreases value
  {
    match value {
      case Leaf(_) =>
        recorded := provenance[path := layer];
      case Table(entries) =>
        recorded := provenance;
        var rest := entries.Keys;
        ghost var done: set<string> := {};
        while rest != {}
          invariant done + rest == entries.Keys && done !! rest
          invariant recorded == Stamp(provenance, NamesAt(entries, done, path), layer)
          decreases rest
        {
          var key :| key in rest;
          recorded := RecordValue(entries[key], layer, recorded, Join(path, key));
          StampTwice(provenance, NamesAt(entries, done, path), LeafNames(entries[key], Join(path, key)), layer);
          NamesOfOneMore(entries, done, key, path);
          rest, done := rest - {key}, done + {key};
        }
        assert done == entries.Keys;
        assert NamesAt(entries, entries.Keys, path) == LeafNames(value, path);
    }
  }

  /** Merge one table into another in place, recording every leaf it brings. */
  method MergeTable(base: map<string, Value>, over: Value, layer: Layer, provenance: Provenance, prefix: string)
    returns (merged: map<string, Value>, recorded: Provenance)
    requires over.Table?
    ensures Table(merged) == Merge(Table(base), over)
    ensures recorded == Stamp(provenance, LeafNames(over, prefix), layer)
    decreases over
  {
    hide Stamp, LeafNames, NamesAt;
    NoNamesYet(provenance, over, layer, prefix);
    merged, recorded := base, provenance;
    var entries := over.entries;
    var rest := entries.Keys;
    ghost var done: set<string> := {};
    while rest != {}
      invariant done + rest == entries.Keys && done !! rest
      invariant merged.Keys == base.Keys + done
      invariant forall k :: k in done ==> merged[k] == MergeEntry(base, k, entries[k])
      invariant forall k :: k in base && k !in done ==> merged[k] == base[k]
      invariant recorded == Stamp(provenance, NamesAt(entries, done, prefix), layer)
      decreases rest
    {
      var key :| key in rest;
      var path, value := Join(prefix, key), entries[key];
      if key in merged && merged[key].Table? && value.Table? {
        var inner;
        inner, recorded := MergeTable(merged[key].entries, value, layer, recorded, path);
        merged := merged[key := Table(inner)];
      } else {
        merged := merged[key := value];
        recorded := RecordValue(value, layer, recorded, path);
      }
      StampTwice(provenance, NamesAt(entries, done, prefix), LeafNames(value, path), layer);
      NamesOfOneMore(entries, done, key, prefix);
      rest, done := rest - {key}, done + {key};
    }
    assert done == entries.Keys;
    assert merged == Merge(Table(base), over).entries;
  }

  datatype LayerTable = LayerTable(layer: Layer, table: Value)

  /** The merged table and its ledger, one layer at a time. */
  function Stacked(layers: seq<LayerTable>): Value
    decreases |layers|
  {
    if layers == [] then Table(map[])
    else Merge(Stacked(layers[..|layers| - 1]), layers[|layers| - 1].table)
  }

  function Recorded(layers: seq<LayerTable>): Provenance
    decreases |layers|
  {
    if layers == [] then map[]
    else
      var last := layers[|layers| - 1];
      Stamp(Recorded(layers[..|layers| - 1]), LeafNames(last.table, ""), last.layer)
  }

  /** The configuration being built, updated in place by each layer. */
  class Configuration {
    var table: map<string, Value>
    var provenance: Provenance
    ghost var layers: seq<LayerTable>

    ghost predicate Valid()
      reads this
    {
      Table(table) == Stacked(layers) && provenance == Recorded(layers)
    }

    /** Start from the lowest layer, every leaf of which is recorded as its own. */
    constructor (layer: Layer, base: map<string, Value>)
      ensures Valid() && layers == [LayerTable(layer, Table(base))]
    {
      table := base;
      provenance := map[];
      layers := [LayerTable(layer, Table(base))];
      new;
      var recorded := RecordValue(Table(base), layer, map[], "");
      provenance := recorded;
      assert layers[..0] == [];
      assert Merge(Table(map[]), Table(base)).entries == base;
    }

    method MergeLayer(over: map<string, Value>, layer: Layer)
      requires Valid()
      modifies this
      ensures Valid() && layers == old(layers) + [LayerTable(layer, Table(over))]
    {
      var merged, recorded := MergeTable(table, Table(over), layer, provenance, "");
      table, provenance := merged, recorded;
      layers := layers + [LayerTable(layer, Table(over))];
      assert layers[..|layers| - 1] == old(layers);
    }
  }
}
