/** What the layers come to: the last layer to decide a path wins there, and the winner map says which one it was. */
module ConfigProvenance {
  import opened ConfigMerge
  import opened Wrappers

  datatype Layer = Layer(name: Source, manifest: Value)

  const LAYER_LIMIT := 8

  function MergeAll(layers: seq<Layer>): Value {
    if layers == [] then Record(map[])
    else Merged(Some(MergeAll(layers[..|layers| - 1])), layers[|layers| - 1].manifest)
  }

  // The value and the name of the last layer that decides the path, unless it decides that no leaf is there.
  function LastWriter(layers: seq<Layer>, p: Path): Option<(string, Source)> {
    if layers == [] then None
    else
      var last := layers[|layers| - 1];
      if !Touches(last.manifest, p) then LastWriter(layers[..|layers| - 1], p)
      else if LeafAt(last.manifest, p).Some? then Some((LeafAt(last.manifest, p).value, last.name))
      else None
  }

  predicate AllRecords(layers: seq<Layer>) {
    forall i :: 0 <= i < |layers| ==> layers[i].manifest.Record?
  }

  /** One merge at one path. */
  lemma {:induction false} MergedAt(base: Option<Value>, v: Value, p: Path)
    ensures LeafAt(Merged(base, v), p)
      == if Touches(v, p) then LeafAt(v, p) else if base.Some? then LeafAt(base.value, p) else None
    decreases |p|
  {
    if p != [] && v.Record? {
      var merged := Merged(base, v);
      assert merged.Record?;
      if p[0] in v.fields {
        MergedAt(Field(FieldsOf(base), p[0]), v.fields[p[0]], p[1..]);
      }
    }
  }

  /** Folding the merge over the layers gives at every path what the last writer put there. */
  lemma {:induction false} LastWriterWins(layers: seq<Layer>, p: Path)
    requires AllRecords(layers)
    ensures LeafAt(MergeAll(layers), p) == if LastWriter(layers, p).Some? then Some(LastWriter(layers, p).value.0) else None
    decreases |layers|
  {
    if layers != [] {
      var init, last := layers[..|layers| - 1], layers[|layers| - 1];
      LastWriterWins(init, p);
      MergedAt(Some(MergeAll(init)), last.manifest, p);
    }
  }

  /** Winners, with the selections that declared routes add. */

  // The name at a path: the last layer that has a leaf there or names the route's provider, unless a later one clears it.
  function WinnerOf(layers: seq<Layer>, p: Path): Option<Source> {
    if layers == [] then None
    else
      var init, last := layers[..|layers| - 1], layers[|layers| - 1];
      if SelectsRoute(last.manifest, p) || LeafAt(last.manifest, p).Some? then Some(last.name)
      else if Clears(Some(MergeAll(init)), last.manifest, p) then None
      else WinnerOf(init, p)
  }

  ghost predicate NamesWinners(layers: seq<Layer>, winners: map<Path, Source>) {
    forall p :: NamesWinner(layers, winners, p)
  }

  ghost predicate NamesWinner(layers: seq<Layer>, winners: map<Path, Source>, p: Path) {
    && (p in winners <==> WinnerOf(layers, p).Some?)
    && (p in winners ==> WinnerOf(layers, p) == Some(winners[p]))
  }

  lemma MergeAllIsRecord(layers: seq<Layer>)
    requires AllRecords(layers)
    ensures MergeAll(layers).Record?
  {
  }

  lemma LayerNamesWinners(layers: seq<Layer>, last: Layer, winners: map<Path, Source>, merged: map<Path, Source>,
                          after: map<Path, Source>)
    requires NamesWinners(layers, winners)
    requires Overlaid(winners, Some(MergeAll(layers)), last.manifest, [], last.name, merged)
    requires Selected(merged, last.manifest, last.name, after)
    ensures NamesWinners(layers + [last], after)
  {
    forall p
      ensures NamesWinner(layers + [last], after, p)
    {
      assert NamesWinner(layers, winners, p);
      assert Decided(winners, Some(MergeAll(layers)), last.manifest, [], last.name, merged, p);
      assert Cut([], p) == p;
      assert (layers + [last])[..|layers|] == layers;
    }
  }

  method ResolveConfiguration(layers: seq<Layer>) returns (merged: Option<Value>, winners: map<Path, Source>)
    ensures merged.Some? <==>
      && 1 <= |layers| <= LAYER_LIMIT && AllRecords(layers)
      && forall i :: 0 <= i < |layers| ==> !HasReserved(layers[i].manifest)
    ensures merged.Some? ==> merged.value == MergeAll(layers) && NamesWinners(layers, winners)
  {
    if |layers| == 0 || |layers| > LAYER_LIMIT {
      return None, map[];
    }
    hide NamesWinners, Overlaid, Selected, Merged;
    var state := new Winners();
    var result := Record(map[]);
    var k := 0;
    NothingWritten(state.entries);
    while k < |layers|
      invariant k <= |layers|
      invariant AllRecords(layers[..k]) && forall i :: 0 <= i < k ==> !HasReserved(layers[i].manifest)
      invariant result == MergeAll(layers[..k])
      invariant NamesWinners(layers[..k], state.entries)
    {
      var layer := layers[k];
      if !layer.manifest.Record? {
        return None, map[];
      }
      MergeAllIsRecord(layers[..k]);
      ghost var before := state.entries;
      var next := state.Merge(result, layer.manifest, [], layer.name);
      if next.None? {
        return None, map[];
      }
      ghost var overlaid := state.entries;
      state.RecordRouteSelectionWinners(layer.manifest, layer.name);
      LayerNamesWinners(layers[..k], layer, before, overlaid, state.entries);
      result := next.value;
      assert layers[..k + 1] == layers[..k] + [layer] && layers[..k + 1][..k] == layers[..k];
      k := k + 1;
    }
    assert layers[..k] == layers;
    return Some(result), state.entries;
  }

  lemma NothingWritten(winners: map<Path, Source>)
    requires winners == map[]
    ensures NamesWinners([], winners)
  {
  }

  // What is cleared and not decided was no leaf; what is decided without a leaf or clearing is a record.
  lemma {:induction false} ClearedAgainstTouched(base: Option<Value>, v: Value, p: Path)
    ensures LeafAt(v, p).Some? ==> Touches(v, p)
    ensures Clears(base, v, p) && !Touches(v, p) ==> base.None? || LeafAt(base.value, p).None?
    ensures Touches(v, p) && LeafAt(v, p).None? && !Clears(base, v, p) ==> base.Some? && LeafAt(base.value, p).None?
    decreases |p|
  {
    if p != [] && v.Record? && p[0] in v.fields {
      ClearedAgainstTouched(Field(FieldsOf(base), p[0]), v.fields[p[0]], p[1..]);
    }
  }

  /** Away from the selections of routes the winner of a path is its last writer. */
  lemma {:induction false} WinnerIsLastWriter(layers: seq<Layer>, p: Path)
    requires AllRecords(layers) && !SelectionPath(p)
    ensures WinnerOf(layers, p) == if LastWriter(layers, p).Some? then Some(LastWriter(layers, p).value.1) else None
    decreases |layers|
  {
    if layers != [] {
      var init, last := layers[..|layers| - 1], layers[|layers| - 1];
      WinnerIsLastWriter(init, p);
      LastWriterWins(init, p);
      ClearedAgainstTouched(Some(MergeAll(init)), last.manifest, p);
      MergeAllIsRecord(init);
    }
  }

  /** The winner map's keys are exactly the leaf paths of what was merged, each naming the layer that supplied it, save for
      the selections of routes; there every leaf has a winner too. */
  lemma WinnersAreTheLeaves(layers: seq<Layer>, winners: map<Path, Source>, p: Path)
    requires AllRecords(layers) && NamesWinners(layers, winners)
    ensures LeafAt(MergeAll(layers), p).Some? ==> p in winners
    ensures !SelectionPath(p) ==> (p in winners <==> LeafAt(MergeAll(layers), p).Some?)
    ensures !SelectionPath(p) && p in winners ==>
      exists i :: 0 <= i < |layers| && layers[i].name == winners[p] && Supplies(layers, i, p)
                  && LeafAt(layers[i].manifest, p) == LeafAt(MergeAll(layers), p)
  {
    assert NamesWinner(layers, winners, p);
    LastWriterWins(layers, p);
    if SelectionPath(p) {
      LeafHasWinner(layers, p);
    } else {
      WinnerIsLastWriter(layers, p);
      if p in winners {
        var _ := SupplierOf(layers, p);
      }
    }
  }

  lemma {:induction false} LeafHasWinner(layers: seq<Layer>, p: Path)
    requires AllRecords(layers)
    ensures LeafAt(MergeAll(layers), p).Some? ==> WinnerOf(layers, p).Some?
    decreases |layers|
  {
    if layers != [] {
      var init, last := layers[..|layers| - 1], layers[|layers| - 1];
      LeafHasWinner(init, p);
      MergedAt(Some(MergeAll(init)), last.manifest, p);
      ClearedAgainstTouched(Some(MergeAll(init)), last.manifest, p);
      MergeAllIsRecord(init);
    }
  }

  /** The selection of a route is owned by a layer exactly when it names the route's provider or has a leaf there, and no later
      layer does either or clears what is there. */
  lemma {:induction false} SelectionOwner(layers: seq<Layer>, winners: map<Path, Source>, p: Path)
    requires AllRecords(layers) && NamesWinners(layers, winners)
    ensures p in winners <==> exists i :: 0 <= i < |layers| && Holds(layers, i, p)
    ensures forall i :: 0 <= i < |layers| && Holds(layers, i, p) ==> p in winners && winners[p] == layers[i].name
  {
    assert NamesWinner(layers, winners, p);
    HolderIsWinner(layers, p);
  }

  predicate Sets(layer: Layer, p: Path) {
    SelectsRoute(layer.manifest, p) || LeafAt(layer.manifest, p).Some?
  }

  ghost predicate Holds(layers: seq<Layer>, i: nat, p: Path)
    requires i < |layers|
  {
    && Sets(layers[i], p)
    && forall j :: i < j < |layers| ==> Keeps(layers, j, p)
  }

  // The layer neither sets the path nor clears it when it is merged over the ones before it.
  predicate Keeps(layers: seq<Layer>, j: nat, p: Path)
    requires j < |layers|
  {
    !Sets(layers[j], p) && !Clears(Some(MergeAll(layers[..j])), layers[j].manifest, p)
  }

  lemma {:induction false} HolderIsWinner(layers: seq<Layer>, p: Path)
    ensures WinnerOf(layers, p).Some? <==> exists i :: 0 <= i < |layers| && Holds(layers, i, p)
    ensures forall i :: 0 <= i < |layers| && Holds(layers, i, p) ==> WinnerOf(layers, p) == Some(layers[i].name)
    decreases |layers|
  {
    if layers != [] {
      var n := |layers| - 1;
      var init := layers[..n];
      HolderIsWinner(init, p);
      forall i | 0 <= i < n
        ensures Holds(layers, i, p) <==> Holds(init, i, p) && Keeps(layers, n, p)
      {
        HoldsInPrefix(layers, i, p);
      }
      hide Keeps, Holds;
      LastHolds(layers, p);
    }
  }

  lemma LastHolds(layers: seq<Layer>, p: Path)
    requires layers != []
    ensures Holds(layers, |layers| - 1, p) <==> Sets(layers[|layers| - 1], p)
    ensures Keeps(layers, |layers| - 1, p) <==>
      !Sets(layers[|layers| - 1], p)
      && !Clears(Some(MergeAll(layers[..|layers| - 1])), layers[|layers| - 1].manifest, p)
  {
  }

  lemma HoldsInPrefix(layers: seq<Layer>, i: nat, p: Path)
    requires i < |layers| - 1
    ensures Holds(layers, i, p) <==> Holds(layers[..|layers| - 1], i, p) && Keeps(layers, |layers| - 1, p)
  {
    hide Keeps;
    KeepsInPrefix(layers, p);
  }

  lemma KeepsInPrefix(layers: seq<Layer>, p: Path)
    requires layers != []
    ensures var init := layers[..|layers| - 1];
      forall j :: 0 <= j < |init| ==> (Keeps(layers, j, p) <==> Keeps(init, j, p))
  {
    var init := layers[..|layers| - 1];
    forall j | 0 <= j < |init|
      ensures Keeps(layers, j, p) <==> Keeps(init, j, p)
    {
      assert init[..j] == layers[..j];
    }
  }

  // The layer has the leaf, and no later one decides the path.
  predicate Supplies(layers: seq<Layer>, i: nat, p: Path)
    requires i < |layers|
  {
    LeafAt(layers[i].manifest, p).Some? && forall j :: i < j < |layers| ==> !Touches(layers[j].manifest, p)
  }

  lemma {:induction false} SupplierOf(layers: seq<Layer>, p: Path) returns (i: nat)
    requires LastWriter(layers, p).Some?
    ensures i < |layers| && Supplies(layers, i, p)
    ensures LastWriter(layers, p).value == (LeafAt(layers[i].manifest, p).value, layers[i].name)
    decreases |layers|
  {
    i := |layers| - 1;
    if !Touches(layers[i].manifest, p) {
      var init := layers[..i];
      i := SupplierOf(init, p);
    }
  }

  /** Looking up who owns a path. */

  // The names of layers are not empty where this finds the layer; an empty name is passed over.
  function WalkUp(winners: map<Path, Source>, parts: Path): Option<Source> {
    if parts == [] then None
    else if parts in winners && winners[parts] != "" then Some(winners[parts])
    else WalkUp(winners, parts[..|parts| - 1])
  }

  const FIRST_PROVIDER: Path := ["providers", "0"]

  function Candidates(winners: map<Path, Source>, path: Path): seq<Path> {
    if |path| > 2 && path[..2] == FIRST_PROVIDER && ["providers"] !in winners then [["provider"] + path[2..], path]
    else [path]
  }

  function FirstOwner(winners: map<Path, Source>, candidates: seq<Path>): Option<Source> {
    if candidates == [] then None
    else if WalkUp(winners, candidates[0]).Some? then WalkUp(winners, candidates[0])
    else FirstOwner(winners, candidates[1..])
  }

  method WinningSource(path: Path, winners: map<Path, Source>) returns (source: Option<Source>)
    ensures source == FirstOwner(winners, Candidates(winners, path))
  {
    var candidates := Candidates(winners, path);
    var k := 0;
    assert candidates[0..] == candidates;
    while k < |candidates|
      invariant k <= |candidates|
      invariant FirstOwner(winners, candidates[k..]) == FirstOwner(winners, candidates)
    {
      var parts := candidates[k];
      while |parts| > 0
        invariant WalkUp(winners, parts) == WalkUp(winners, candidates[k])
      {
        if parts in winners && winners[parts] != "" {
          return Some(winners[parts]);
        }
        parts := parts[..|parts| - 1];
      }
      assert candidates[k..][1..] == candidates[k + 1..];
      k := k + 1;
    }
    return None;
  }

  /** A leaf has nothing below it. */
  lemma {:induction false} NothingBelowLeaf(v: Value, p: Path, q: Path)
    requires LeafAt(v, p).Some? && p <= q && p != q
    ensures LeafAt(v, q).None?
    decreases |p|
  {
    if p != [] {
      assert q[0] == p[0] && p[1..] <= q[1..];
      NothingBelowLeaf(v.fields[p[0]], p[1..], q[1..]);
    }
  }

  /** Every path has at most one owner among the winners, at it or above it, and walking up finds that one. */
  lemma OwnerIsUnique(layers: seq<Layer>, winners: map<Path, Source>, path: Path, p: Path, q: Path)
    requires AllRecords(layers) && NamesWinners(layers, winners) && !SelectionPath(p) && !SelectionPath(q)
    requires p in winners && p <= path && q in winners && q <= path
    ensures p == q
  {
    WinnersAreTheLeaves(layers, winners, p);
    WinnersAreTheLeaves(layers, winners, q);
    if p != q {
      assert p == path[..|p|] && q == path[..|q|];
      if |p| < |q| {
        assert q[..|p|] == p;
        NothingBelowLeaf(MergeAll(layers), p, q);
      } else {
        assert p[..|q|] == q;
        NothingBelowLeaf(MergeAll(layers), q, p);
      }
    }
  }

  predicate Owns(winners: map<Path, Source>, path: Path, p: Path, s: Source) {
    p != [] && p <= path && p in winners && winners[p] == s
  }

  // Every winner nearer to the path has an empty name.
  predicate Nearest(winners: map<Path, Source>, path: Path, p: Path, s: Source) {
    Owns(winners, path, p, s) && forall q <- winners :: q <= path && |q| > |p| ==> winners[q] == ""
  }

  /** Walking up finds the nearest winner with a name. */
  lemma {:induction false} WalkFindsNearest(winners: map<Path, Source>, path: Path, s: Source)
    ensures WalkUp(winners, path) == Some(s) <==> s != "" && exists p :: Nearest(winners, path, p, s)
    decreases |path|
  {
    if path != [] {
      if path in winners && winners[path] != "" {
        assert Nearest(winners, path, path, winners[path]);
        if s != "" && exists p :: Nearest(winners, path, p, s) {
          var p :| Nearest(winners, path, p, s);
          assert p == path;
        }
      } else {
        var up := path[..|path| - 1];
        WalkFindsNearest(winners, up, s);
        forall q <- winners | q <= path && q != path
          ensures q <= up
        {
        }
        forall p | s != "" && p != path
          ensures Nearest(winners, path, p, s) <==> Nearest(winners, up, p, s)
        {
        }
      }
    }
  }

  ghost predicate NamedBy(winners: map<Path, Source>, path: Path, s: Source) {
    s != "" && exists p :: Nearest(winners, path, p, s)
  }

  // The name under which the first provider was once configured, as long as no list of providers was.
  predicate IsAliased(winners: map<Path, Source>, path: Path) {
    |path| > 2 && path[0] == "providers" && path[1] == "0" && ["providers"] !in winners
  }

  /** A path has the nearest name at or above it, save that a path of the first provider takes that of its old name first. */
  lemma WinningSourceExact(path: Path, winners: map<Path, Source>, s: Source)
    ensures FirstOwner(winners, Candidates(winners, path)) == Some(s)
      <==> if !IsAliased(winners, path) then NamedBy(winners, path, s)
           else
             var alias := ["provider"] + path[2..];
             || NamedBy(winners, alias, s)
             || (NamedBy(winners, path, s) && forall t :: !NamedBy(winners, alias, t))
  {
    assert |path| > 2 ==> (path[..2] == FIRST_PROVIDER <==> path[0] == "providers" && path[1] == "0");
    WalkFindsNearest(winners, path, s);
    if IsAliased(winners, path) {
      var alias := ["provider"] + path[2..];
      forall t
        ensures WalkUp(winners, alias) == Some(t) <==> NamedBy(winners, alias, t)
      {
        WalkFindsNearest(winners, alias, t);
      }
      assert [alias, path][1..] == [path];
      assert FirstOwner(winners, [alias, path])
        == if WalkUp(winners, alias).Some? then WalkUp(winners, alias) else FirstOwner(winners, [path]);
    }
    OneCandidate(winners, path);
  }

  lemma OneCandidate(winners: map<Path, Source>, path: Path)
    ensures FirstOwner(winners, [path]) == WalkUp(winners, path)
  {
    assert [path][1..] == [];
  }

  lemma NotASelection(path: Path, p: Path)
    requires p <= path && (|path| >= 3 ==> !SelectionPath(path[..3]))
    ensures !SelectionPath(p)
  {
    assert p == path[..|p|];
  }

  /** Away from the selections of routes a path has one owner at most, and walking up finds it. */
  lemma WalkFindsTheOwner(layers: seq<Layer>, winners: map<Path, Source>, path: Path, s: Source)
    requires AllRecords(layers) && NamesWinners(layers, winners) && (|path| >= 3 ==> !SelectionPath(path[..3]))
    ensures WalkUp(winners, path) == Some(s) <==> s != "" && exists p :: Owns(winners, path, p, s)
  {
    WalkFindsNearest(winners, path, s);
    if p :| Owns(winners, path, p, s) {
      NotASelection(path, p);
      forall q <- winners | q <= path
        ensures q == p
      {
        NotASelection(path, q);
        OwnerIsUnique(layers, winners, path, p, q);
      }
      assert Nearest(winners, path, p, s);
    }
  }
}

/**
Paths as the dotted text that the winner map is keyed by. The text of a path says which atoms its keys come to when they are
split at their dots, and no more; for keys without dots these are the keys.
*/
module ConfigPaths {
  import opened ConfigMerge

  function JoinPath(base: string, key: Key): string {
    if base == "" then key else base + "." + key
  }

  function Text(p: Path): string {
    if p == [] then "" else JoinPath(Text(p[..|p| - 1]), p[|p| - 1])
  }

  predicate StartsWith(text: string, start: string) {
    |start| <= |text| && text[..|start|] == start
  }

  // The comparison that clearing makes: the path itself, or its text and a dot at the start.
  predicate AtOrBelow(text: string, path: string) {
    text == path || StartsWith(text, path + ".")
  }

  /** Atoms. */

  // A key split at its dots: as many pieces as dots, and one more.
  function Split(text: string): (atoms: seq<string>)
    ensures atoms != []
  {
    if text == "" then [""]
    else if text[0] == '.' then [""] + Split(text[1..])
    else [[text[0]] + Split(text[1..])[0]] + Split(text[1..])[1..]
  }

  // The keys of a path split at their dots, one after another; empty keys at the start leave nothing.
  function Atoms(p: Path): (atoms: seq<string>)
    ensures atoms != []
  {
    if p == [] then [""]
    else
      var before, last := Atoms(p[..|p| - 1]), Split(p[|p| - 1]);
      if before == [""] then last else before + last
  }

  function Glue(atoms: seq<string>): string
    requires atoms != []
  {
    if |atoms| == 1 then atoms[0] else atoms[0] + "." + Glue(atoms[1..])
  }

  lemma {:induction false} GlueSplit(text: string)
    ensures Glue(Split(text)) == text
  {
    if text != "" {
      var rest := Split(text[1..]);
      GlueSplit(text[1..]);
      assert text == [text[0]] + text[1..];
      if text[0] == '.' {
        assert ([""] + rest)[1..] == rest;
      } else if |rest| > 1 {
        assert Split(text)[1..] == rest[1..];
      }
    }
  }

  lemma {:induction false} SplitAtDot(a: string, b: string)
    ensures Split(a + "." + b) == Split(a) + Split(b)
  {
    var text := a + "." + b;
    if a == "" {
      assert text[1..] == b;
    } else {
      assert text[1..] == a[1..] + "." + b;
      SplitAtDot(a[1..], b);
    }
  }

  lemma {:induction false} GlueJoin(a: seq<string>, b: seq<string>)
    requires a != [] && b != []
    ensures Glue(a + b) == Glue(a) + "." + Glue(b)
  {
    if |a| == 1 {
      assert (a + b)[1..] == b;
    } else {
      assert (a + b)[1..] == a[1..] + b;
      GlueJoin(a[1..], b);
    }
  }

  lemma {:induction false} TextHasAtoms(p: Path)
    ensures Split(Text(p)) == Atoms(p)
    decreases |p|
  {
    if p != [] {
      var init, last := p[..|p| - 1], p[|p| - 1];
      TextHasAtoms(init);
      GlueSplit(Text(init));
      if Text(init) != "" {
        SplitAtDot(Text(init), last);
      }
    }
  }

  /** Two paths have the same text exactly when they have the same atoms. */
  lemma SameTextIffSameAtoms(p: Path, q: Path)
    ensures Text(p) == Text(q) <==> Atoms(p) == Atoms(q)
  {
    TextHasAtoms(p);
    TextHasAtoms(q);
    GlueSplit(Text(p));
    GlueSplit(Text(q));
  }

  /** Clearing a path clears exactly the paths that begin with its atoms. */
  lemma ClearedIffAtomPrefix(p: Path, q: Path)
    ensures AtOrBelow(Text(q), Text(p)) <==> Atoms(p) <= Atoms(q)
  {
    TextHasAtoms(p);
    TextHasAtoms(q);
    SplitPrefix(Text(p), Text(q));
  }

  lemma SplitPrefix(a: string, b: string)
    ensures AtOrBelow(b, a) <==> Split(a) <= Split(b)
  {
    hide Split, StartsWith;
    if b != a && StartsWith(b, a + ".") {
      BelowHasAtoms(a, b);
    }
    if Split(a) <= Split(b) {
      AtomsAreBelow(a, b);
    }
  }

  lemma BelowHasAtoms(a: string, b: string)
    requires StartsWith(b, a + ".")
    ensures Split(a) <= Split(b)
  {
    hide Split;
    var rest := b[|a| + 1..];
    assert b == (a + ".") + rest;
    SplitAtDot(a, rest);
  }

  lemma AtomsAreBelow(a: string, b: string)
    requires Split(a) <= Split(b)
    ensures AtOrBelow(b, a)
  {
    hide Split, Glue, StartsWith;
    GlueSplit(a);
    GlueSplit(b);
    var rest := Split(b)[|Split(a)|..];
    assert Split(b) == Split(a) + rest;
    if rest == [] {
      assert Split(b) == Split(a);
    } else {
      GlueJoin(Split(a), rest);
      ItsStart(a + ".", Glue(rest));
    }
  }

  lemma ItsStart(start: string, rest: string)
    ensures StartsWith(start + rest, start)
  {
  }

  /** Keys without dots. */

  predicate Plain(k: Key) {
    k != "" && '.' !in k
  }

  predicate AllPlain(p: Path) {
    forall i :: 0 <= i < |p| ==> Plain(p[i])
  }

  lemma {:induction false} SplitPlain(k: Key)
    requires '.' !in k
    ensures Split(k) == [k]
  {
    if k != "" {
      assert k == [k[0]] + k[1..];
      SplitPlain(k[1..]);
    }
  }

  lemma {:induction false} AtomsOfPlain(p: Path)
    requires AllPlain(p) && p != []
    ensures Atoms(p) == p
    decreases |p|
  {
    var init, last := p[..|p| - 1], p[|p| - 1];
    assert Plain(last);
    SplitPlain(last);
    assert p == init + [last];
    if init != [] {
      AtomsOfPlain(init);
      assert Plain(init[0]) && init != [""];
    }
  }

  /** For keys without dots the comparison of texts is the comparison of paths. */
  lemma TextPrefixIsPathPrefix(p: Path, q: Path)
    requires AllPlain(p) && AllPlain(q) && p != [] && q != []
    ensures AtOrBelow(Text(q), Text(p)) <==> p <= q
    ensures Text(p) == Text(q) <==> p == q
  {
    AtomsOfPlain(p);
    AtomsOfPlain(q);
    ClearedIffAtomPrefix(p, q);
    SameTextIffSameAtoms(p, q);
  }

  /** A key with a dot collides with the two keys it splits into, wherever they stand. */
  lemma DottedKeysCollide(p: Path, a: Key, b: Key)
    ensures Text(p + [a + "." + b]) == Text(p + [a, b]) <==> a != "" || Atoms(p) != [""]
  {
    var whole, parts := p + [a + "." + b], p + [a, b];
    assert whole[..|p|] == p && parts[..|p| + 1] == p + [a] && (p + [a])[..|p|] == p;
    SplitAtDot(a, b);
    SplitOfEmpty(a);
    SameTextIffSameAtoms(whole, parts);
    assert |Split(a)| >= 1 && |Split(b)| >= 1;
    assert Atoms(whole) == if Atoms(p) == [""] then Split(a) + Split(b) else Atoms(p) + (Split(a) + Split(b));
    if Atoms(p) == [""] {
      assert Atoms(p + [a]) == Split(a);
    } else {
      assert Atoms(p + [a]) == Atoms(p) + Split(a);
      assert (Atoms(p) + Split(a)) + Split(b) == Atoms(p) + (Split(a) + Split(b));
    }
  }

  lemma SplitOfEmpty(a: string)
    ensures Split(a) == [""] <==> a == ""
  {
    GlueSplit(a);
  }
}
