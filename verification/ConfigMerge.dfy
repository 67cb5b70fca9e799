/**
Layered configuration (src/configuration-sources.js): each source is merged over what the earlier ones gave, and a map
shared by all merges records which source supplied the value at each path.
*/
module ConfigMerge {
  import opened Wrappers

  type Key = string
  type Path = seq<Key>
  type Source = string

  // A record of fields, or anything else: text, numbers, arrays.
  datatype Value = Leaf(text: string) | Record(fields: map<Key, Value>)

  const RESERVED: set<Key> := {"__proto__", "prototype", "constructor"}

  /** Reading a tree by path. */

  function Lookup(v: Value, p: Path): Option<Value>
    decreases |p|
  {
    if p == [] then Some(v)
    else if v.Leaf? || p[0] !in v.fields then None
    else Lookup(v.fields[p[0]], p[1..])
  }

  function LeafAt(v: Value, p: Path): Option<string> {
    var found := Lookup(v, p);
    if found.Some? && found.value.Leaf? then Some(found.value.text) else None
  }

  // A layer decides what is at a path: it has a value there, or a leaf above it.
  predicate Touches(v: Value, p: Path)
    decreases |p|
  {
    if p == [] || v.Leaf? then true
    else p[0] in v.fields && Touches(v.fields[p[0]], p[1..])
  }

  predicate HasReserved(v: Value) {
    v.Record? && exists k :: k in v.fields && (k in RESERVED || HasReserved(v.fields[k]))
  }

  /** Merging. */

  function FieldsOf(v: Option<Value>): map<Key, Value> {
    if v.Some? && v.value.Record? then v.value.fields else map[]
  }

  function Field(fields: map<Key, Value>, k: Key): Option<Value> {
    if k in fields then Some(fields[k]) else None
  }

  function Merged(base: Option<Value>, incoming: Value): Value
    decreases incoming
  {
    if incoming.Leaf? then incoming
    else
      var fields := FieldsOf(base);
      Record(map k | k in fields.Keys + incoming.fields.Keys ::
        if k in incoming.fields then Merged(Field(fields, k), incoming.fields[k]) else fields[k])
  }

  /** Winners. */

  predicate Under(prefix: Path, p: Path) {
    prefix <= p
  }

  function Cut(prefix: Path, p: Path): Path
    requires Under(prefix, p)
  {
    p[|prefix|..]
  }

  function WithoutUnder(winners: map<Path, Source>, prefix: Path): map<Path, Source> {
    map p | p in winners && !Under(prefix, p) :: winners[p]
  }

  // Laying the layer over the base clears the winner at the path: the layer has a leaf there or above it, or a record where
  // the base has none.
  predicate Clears(base: Option<Value>, v: Value, p: Path)
    decreases |p|
  {
    if v.Leaf? || base.None? || base.value.Leaf? then true
    else p != [] && p[0] in v.fields && Clears(Field(base.value.fields, p[0]), v.fields[p[0]], p[1..])
  }

  // The winners once a layer is laid over a base at a prefix: the layer's leaves, and all that it does not clear.
  ghost predicate Overlaid(winners: map<Path, Source>, base: Option<Value>, v: Value, prefix: Path, source: Source,
                           after: map<Path, Source>)
  {
    forall p :: Decided(winners, base, v, prefix, source, after, p)
  }

  ghost predicate Decided(winners: map<Path, Source>, base: Option<Value>, v: Value, prefix: Path, source: Source,
                          after: map<Path, Source>, p: Path)
  {
    if !Under(prefix, p) then Same(winners, after, p)
    else if LeafAt(v, Cut(prefix, p)).Some? then p in after && after[p] == source
    else if Clears(base, v, Cut(prefix, p)) then p !in after
    else Same(winners, after, p)
  }

  predicate Same(winners: map<Path, Source>, after: map<Path, Source>, p: Path) {
    (p in winners <==> p in after) && (p in winners ==> winners[p] == after[p])
  }

  /** The winners that a declared route adds: the layer that names a route's provider owns the selection of it. */

  predicate SelectionPath(p: Path) {
    |p| == 3 && p[0] == "routes" && p[2] == "selection_id"
  }

  function RoutesOf(manifest: Value): map<Key, Value> {
    FieldsOf(Field(FieldsOf(Some(manifest)), "routes"))
  }

  predicate NamesProvider(route: Value) {
    route.Record? && ("provider_id" in route.fields || "connection_id" in route.fields)
  }

  predicate SelectsRoute(manifest: Value, p: Path) {
    SelectionPath(p) && p[1] in RoutesOf(manifest) && NamesProvider(RoutesOf(manifest)[p[1]])
  }

  ghost predicate Selected(winners: map<Path, Source>, manifest: Value, source: Source, after: map<Path, Source>) {
    forall p :: if SelectsRoute(manifest, p) then p in after && after[p] == source else Same(winners, after, p)
  }

  ghost predicate SelectedAt(winners: map<Path, Source>, manifest: Value, source: Source, after: map<Path, Source>,
                             todo: set<Key>, p: Path)
  {
    if SelectsRoute(manifest, p) && p[1] !in todo then p in after && after[p] == source else Same(winners, after, p)
  }

  function SelectionOf(role: Key): Path {
    ["routes", role, "selection_id"]
  }

  /** What counts as a reserved key, and as a route that names its provider, path by path. */

  ghost predicate IsReservedAt(v: Value, p: Path) {
    p != [] && Lookup(v, p).Some? && p[|p| - 1] in {"__proto__", "prototype", "constructor"}
  }

  lemma {:induction false} ReservedExact(v: Value)
    ensures HasReserved(v) <==> exists p :: IsReservedAt(v, p)
    decreases v
  {
    if HasReserved(v) {
      var k :| k in v.fields && (k in RESERVED || HasReserved(v.fields[k]));
      if k in RESERVED {
        assert Lookup(v, [k]) == Lookup(v.fields[k], []) && IsReservedAt(v, [k]);
      } else {
        ReservedExact(v.fields[k]);
        var p :| IsReservedAt(v.fields[k], p);
        assert ([k] + p)[1..] == p;
        assert IsReservedAt(v, [k] + p);
      }
    }
    if p :| IsReservedAt(v, p) {
      assert v.Record? && p[0] in v.fields;
      if |p| > 1 {
        ReservedExact(v.fields[p[0]]);
        assert IsReservedAt(v.fields[p[0]], p[1..]);
      }
    }
  }

  predicate Names(manifest: Value, role: Key, field: Key) {
    Lookup(manifest, ["routes", role, field]).Some?
  }

  lemma SelectsRouteExact(manifest: Value, p: Path)
    ensures SelectsRoute(manifest, p)
      <==> exists role ::
             p == ["routes", role, "selection_id"] && (Names(manifest, role, "provider_id") || Names(manifest, role, "connection_id"))
  {
    if SelectionPath(p) {
      assert p == ["routes", p[1], "selection_id"];
      RouteFieldExact(manifest, p[1], "provider_id");
      RouteFieldExact(manifest, p[1], "connection_id");
    }
  }

  lemma RouteFieldExact(manifest: Value, role: Key, field: Key)
    ensures Names(manifest, role, field)
      <==> role in RoutesOf(manifest) && RoutesOf(manifest)[role].Record? && field in RoutesOf(manifest)[role].fields
  {
    var path := ["routes", role, field];
    assert path[1..] == [role, field] && [role, field][1..] == [field] && [field][1..] == [];
    if manifest.Record? && "routes" in manifest.fields {
      var routes := manifest.fields["routes"];
      assert Lookup(manifest, path) == Lookup(routes, [role, field]);
      if routes.Record? && role in routes.fields {
        assert Lookup(routes, [role, field]) == Lookup(routes.fields[role], [field]);
        LookupOne(routes.fields[role], field);
      }
    }
  }

  lemma LookupOne(v: Value, k: Key)
    ensures Lookup(v, [k]).Some? <==> v.Record? && k in v.fields
  {
    if v.Record? && k in v.fields {
      assert Lookup(v, [k]) == Lookup(v.fields[k], [k][1..]);
    }
  }

  class Winners {
    var entries: map<Path, Source>

    constructor ()
      ensures entries == map[]
    {
      entries := map[];
    }

    method ClearWinners(path: Path)
      modifies this
      ensures entries == WithoutUnder(old(entries), path)
    {
      var keys := entries.Keys;
      ghost var start := entries;
      while keys != {}
        invariant keys <= start.Keys && entries.Keys <= start.Keys
        invariant forall p <- start ::
          (p in entries <==> p in keys || !Under(path, p)) && (p in entries ==> entries[p] == start[p])
        decreases |keys|
      {
        var key :| key in keys;
        if Under(path, key) {
          entries := entries - {key};
        }
        keys := keys - {key};
      }
      assert entries == WithoutUnder(start, path);
    }

    // One key of a layer: a leaf replaces what is there, a record is merged into a record or replaces anything else.
    method MergeKey(existing: Option<Value>, value: Value, path: Path, source: Source) returns (result: Option<Value>)
      modifies this
      ensures result.None? <==> HasReserved(value)
      ensures result.Some? ==> result.value == Merged(existing, value)
      ensures result.Some? ==> Overlaid(old(entries), existing, value, path, source, entries)
      decreases value, 1
    {
      hide Overlaid;
      ghost var before := entries;
      if value.Leaf? || existing.None? || existing.value.Leaf? {
        ClearWinners(path);
      }
      if value.Leaf? {
        entries := entries[path := source];
        LeafLaid(before, existing, value, path, source);
        return Some(value);
      }
      var inner := if existing.Some? && existing.value.Record? then existing.value else Record(map[]);
      ghost var cleared := entries;
      result := Merge(inner, value, path, source);
      if result.Some? {
        MergedOverNothing(existing, inner, value);
        RecordLaid(before, cleared, entries, existing, inner, value, path, source);
      }
    }

    // The incoming record is laid over the base; None where it holds a reserved key.
    method Merge(base: Value, incoming: Value, prefix: Path, source: Source) returns (result: Option<Value>)
      requires base.Record? && incoming.Record?
      modifies this
      ensures result.None? <==> HasReserved(incoming)
      ensures result.Some? ==> result.value == Merged(Some(base), incoming)
      ensures result.Some? ==> Overlaid(old(entries), Some(base), incoming, prefix, source, entries)
      decreases incoming, 0
    {
      hide Overlaid, Laid, Merged;
      var fields := base.fields;
      var todo := incoming.fields.Keys;
      ghost var start := entries;
      NothingLaid(start, base, incoming, prefix, source);
      while todo != {}
        invariant todo <= incoming.fields.Keys
        invariant forall k :: k in incoming.fields && k !in todo ==> k !in RESERVED && !HasReserved(incoming.fields[k])
        invariant forall k :: Field(fields, k) == MergedField(base, incoming, todo, k)
        invariant Laid(start, base, incoming, prefix, source, entries, todo)
        decreases |todo|
      {
        var key :| key in todo;
        if key in RESERVED {
          return None;
        }
        var value := incoming.fields[key];
        assert Field(fields, key) == Field(base.fields, key);
        ghost var before := entries;
        var merged := MergeKey(Field(fields, key), value, prefix + [key], source);
        if merged.None? {
          return None;
        }
        OneFieldMore(base, incoming, todo, fields, key, merged.value);
        fields := fields[key := merged.value];
        LaidOneMore(start, before, entries, base, incoming, prefix, source, todo, key);
        todo := todo - {key};
      }
      AllLaid(start, base, incoming, prefix, source, entries);
      assert Record(fields) == Merged(Some(base), incoming) by {
        MergedByField(base, incoming, fields);
      }
      return Some(Record(fields));
    }

    method RecordRouteSelectionWinners(manifest: Value, source: Source)
      modifies this
      ensures Selected(old(entries), manifest, source, entries)
    {
      var routes := RoutesOf(manifest);
      var todo := routes.Keys;
      ghost var start := entries;
      while todo != {}
        invariant todo <= routes.Keys
        invariant forall p :: SelectedAt(start, manifest, source, entries, todo, p)
        decreases |todo|
      {
        var role :| role in todo;
        ghost var before := entries;
        if NamesProvider(routes[role]) {
          entries := entries[SelectionOf(role) := source];
        }
        forall p
          ensures SelectedAt(start, manifest, source, entries, todo - {role}, p)
        {
          assert SelectedAt(start, manifest, source, before, todo, p);
          assert SelectionPath(p) && p[1] == role ==> p == SelectionOf(role);
        }
        todo := todo - {role};
      }
      forall p
        ensures if SelectsRoute(manifest, p) then p in entries && entries[p] == source else Same(start, entries, p)
      {
        assert SelectedAt(start, manifest, source, entries, {}, p);
      }
    }
  }

  // What a key holds while some keys are still to be merged.
  function MergedField(base: Value, incoming: Value, todo: set<Key>, k: Key): Option<Value>
    requires base.Record? && incoming.Record?
  {
    if k in incoming.fields && k !in todo then Some(Merged(Field(base.fields, k), incoming.fields[k]))
    else Field(base.fields, k)
  }

  lemma OneFieldMore(base: Value, incoming: Value, todo: set<Key>, fields: map<Key, Value>, key: Key, merged: Value)
    requires base.Record? && incoming.Record? && key in todo && key in incoming.fields
    requires forall k :: Field(fields, k) == MergedField(base, incoming, todo, k)
    requires merged == Merged(Field(base.fields, key), incoming.fields[key])
    ensures forall k :: Field(fields[key := merged], k) == MergedField(base, incoming, todo - {key}, k)
  {
    hide Merged;
    forall k
      ensures Field(fields[key := merged], k) == MergedField(base, incoming, todo - {key}, k)
    {
      assert Field(fields, k) == MergedField(base, incoming, todo, k);
    }
  }

  lemma MergedByField(base: Value, incoming: Value, fields: map<Key, Value>)
    requires base.Record? && incoming.Record?
    requires forall k :: Field(fields, k) == MergedField(base, incoming, {}, k)
    ensures Record(fields) == Merged(Some(base), incoming)
  {
    var merged := Merged(Some(base), incoming).fields;
    forall k
      ensures k in fields <==> k in merged
      ensures k in fields ==> fields[k] == merged[k]
    {
      assert Field(fields, k) == MergedField(base, incoming, {}, k);
    }
    assert fields == merged;
  }

  // The winners while some keys of the layer are still to be laid.
  ghost predicate Laid(start: map<Path, Source>, base: Value, v: Value, prefix: Path, source: Source,
                       now: map<Path, Source>, todo: set<Key>)
    requires base.Record? && v.Record?
  {
    forall p :: PathLaid(start, base, v, prefix, source, now, todo, p)
  }

  predicate LaidKey(v: Value, prefix: Path, todo: set<Key>, p: Path)
    requires v.Record?
  {
    Under(prefix, p) && p != prefix && p[|prefix|] in v.fields && p[|prefix|] !in todo
  }

  ghost predicate PathLaid(start: map<Path, Source>, base: Value, v: Value, prefix: Path, source: Source,
                           now: map<Path, Source>, todo: set<Key>, p: Path)
    requires base.Record? && v.Record?
  {
    if LaidKey(v, prefix, todo, p) then
      Decided(start, Field(base.fields, p[|prefix|]), v.fields[p[|prefix|]], prefix + [p[|prefix|]], source, now, p)
    else Same(start, now, p)
  }

  lemma NothingLaid(start: map<Path, Source>, base: Value, v: Value, prefix: Path, source: Source)
    requires base.Record? && v.Record?
    ensures Laid(start, base, v, prefix, source, start, v.fields.Keys)
  {
  }

  lemma CutBelow(prefix: Path, key: Key, p: Path)
    requires Under(prefix + [key], p)
    ensures Under(prefix, p) && p != prefix && p[|prefix|] == key
    ensures Cut(prefix, p) == [key] + Cut(prefix + [key], p)
  {
    assert p[..|prefix| + 1] == prefix + [key];
    assert p[|prefix|] == key && p[..|prefix|] == prefix;
  }

  lemma UnderKey(prefix: Path, p: Path)
    requires Under(prefix, p) && p != prefix
    ensures Under(prefix + [p[|prefix|]], p)
  {
    assert p[..|prefix| + 1] == prefix + [p[|prefix|]];
  }

  lemma LookupBelow(base: Value, v: Value, key: Key, rest: Path)
    requires base.Record? && v.Record?
    ensures LeafAt(v, [key] + rest) == if key in v.fields then LeafAt(v.fields[key], rest) else None
    ensures Clears(Some(base), v, [key] + rest)
      <==> key in v.fields && Clears(Field(base.fields, key), v.fields[key], rest)
  {
    assert ([key] + rest)[1..] == rest;
  }

  lemma MergedOverNothing(existing: Option<Value>, inner: Value, v: Value)
    requires v.Record?
    requires inner == if existing.Some? && existing.value.Record? then existing.value else Record(map[])
    ensures Merged(existing, v) == Merged(Some(inner), v)
  {
    assert FieldsOf(existing) == FieldsOf(Some(inner));
  }

  // Where no record was, all winners there were cleared before the record is laid over an empty one.
  lemma RecordLaid(before: map<Path, Source>, cleared: map<Path, Source>, after: map<Path, Source>,
                   existing: Option<Value>, inner: Value, v: Value, path: Path, source: Source)
    requires v.Record?
    requires if existing.Some? && existing.value.Record? then cleared == before && inner == existing.value
             else cleared == WithoutUnder(before, path)
    requires Overlaid(cleared, Some(inner), v, path, source, after)
    ensures Overlaid(before, existing, v, path, source, after)
  {
    if existing.None? || existing.value.Leaf? {
      forall p
        ensures Decided(before, existing, v, path, source, after, p)
      {
        assert Decided(cleared, Some(inner), v, path, source, after, p);
      }
    }
  }

  lemma LeafLaid(before: map<Path, Source>, existing: Option<Value>, v: Value, path: Path, source: Source)
    requires v.Leaf?
    ensures Overlaid(before, existing, v, path, source, WithoutUnder(before, path)[path := source])
  {
    var after := WithoutUnder(before, path)[path := source];
    forall p
      ensures Decided(before, existing, v, path, source, after, p)
    {
      if Under(path, p) {
        assert Cut(path, p) == [] <==> p == path;
      }
    }
  }

  lemma LaidOneMore(start: map<Path, Source>, before: map<Path, Source>, after: map<Path, Source>, base: Value, v: Value,
                    prefix: Path, source: Source, todo: set<Key>, key: Key)
    requires base.Record? && v.Record? && key in todo && key in v.fields
    requires Laid(start, base, v, prefix, source, before, todo)
    requires Overlaid(before, Field(base.fields, key), v.fields[key], prefix + [key], source, after)
    ensures Laid(start, base, v, prefix, source, after, todo - {key})
  {
    forall p
      ensures PathLaid(start, base, v, prefix, source, after, todo - {key}, p)
    {
      assert PathLaid(start, base, v, prefix, source, before, todo, p);
      assert Decided(before, Field(base.fields, key), v.fields[key], prefix + [key], source, after, p);
      if Under(prefix + [key], p) {
        CutBelow(prefix, key, p);
      } else if Under(prefix, p) && p != prefix {
        UnderKey(prefix, p);
      }
    }
  }

  lemma AllLaid(start: map<Path, Source>, base: Value, v: Value, prefix: Path, source: Source, now: map<Path, Source>)
    requires base.Record? && v.Record?
    requires Laid(start, base, v, prefix, source, now, {})
    ensures Overlaid(start, Some(base), v, prefix, source, now)
  {
    forall p
      ensures Decided(start, Some(base), v, prefix, source, now, p)
    {
      assert PathLaid(start, base, v, prefix, source, now, {}, p);
      if Under(prefix, p) {
        if p == prefix {
          assert Cut(prefix, p) == [];
        } else {
          UnderKey(prefix, p);
          CutBelow(prefix, p[|prefix|], p);
          LookupBelow(base, v, p[|prefix|], Cut(prefix + [p[|prefix|]], p));
        }
      }
    }
  }
}
