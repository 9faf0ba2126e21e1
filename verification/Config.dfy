/**
  Layered configuration: right-biased merging of trees, a separately kept map of sources,
  typed overrides, and the check of sensitive values that relies on the two agreeing.
*/
module Config {
  import opened DottedKeys
  import opened Strings
  import opened Wrappers

  /** A configuration value. A mapping is `Map`; everything else is a leaf. */
  datatype Val =
    | Nil
    | Bool(b: bool)
    | Int(n: int)
    | Float(r: real)
    | Text(s: string)
    | Items(items: seq<Val>)
    | Map(entries: map<string, Val>)

  type Tree = map<string, Val>

  /** One source of configuration. Environment and flags carry text that is typed on the way in. */
  datatype Layer = Layer(source: string, data: Tree, typed: bool)

  /** The number parsers of the language. */
  datatype Parsers = Parsers(asInt: string -> Option<int>, asFloat: string -> Option<real>)

  // ---------- Merging ----------

  function Merge(dst: Tree, src: Tree): Tree
    decreases Map(src)
  {
    map k | k in dst.Keys + src.Keys ::
      if k !in src then dst[k]
      else if k in dst && dst[k].Map? && src[k].Map? then Map(Merge(dst[k].entries, src[k].entries))
      else src[k]
  }

  method MergeMaps(dst: Tree, src: Tree) returns (ret: Tree)
    ensures ret == Merge(dst, src)
    decreases Map(src)
  {
    ret := dst;
    var rest := src.Keys;
    while rest != {}
      invariant rest <= src.Keys
      invariant ret.Keys == dst.Keys + (src.Keys - rest)
      invariant forall k :: k in ret ==> ret[k] == if k in rest then dst[k] else Merge(dst, src)[k]
      decreases rest
    {
      var key :| key in rest;
      var value := src[key];
      if key in ret && ret[key].Map? && value.Map? {
        assert value == Map(value.entries);
        var merged := MergeMaps(ret[key].entries, value.entries);
        ret := ret[key := Map(merged)];
      } else {
        ret := ret[key := value];
      }
      rest := rest - {key};
    }
  }

  // ---------- Paths ----------

  /** The leaf at a path of keys, if there is one. */
  function LeafAt(data: Tree, nodes: seq<string>): Option<Val>
    decreases |nodes|
  {
    if nodes == [] || nodes[0] !in data then None
    else
      var v := data[nodes[0]];
      if |nodes| == 1 then (if v.Map? then None else Some(v))
      else if v.Map? then LeafAt(v.entries, nodes[1..])
      else None
  }

  /** The source has something at the path, or a leaf above it, that is not the leaf itself. */
  predicate Blocks(src: Tree, nodes: seq<string>)
    decreases |nodes|
  {
    nodes != [] && nodes[0] in src &&
    (|nodes| == 1 || !src[nodes[0]].Map? || Blocks(src[nodes[0]].entries, nodes[1..]))
  }

  /** A leaf of the merged tree is the leaf of the source, or one of the destination that the source leaves alone. */
  lemma {:induction false} LeafOfMerge(dst: Tree, src: Tree, nodes: seq<string>)
    ensures LeafAt(Merge(dst, src), nodes) ==
            if LeafAt(src, nodes).Some? then LeafAt(src, nodes)
            else if Blocks(src, nodes) then None
            else LeafAt(dst, nodes)
    decreases |nodes|
  {
    if |nodes| > 1 && nodes[0] in src && nodes[0] in dst && src[nodes[0]].Map? && dst[nodes[0]].Map? {
      LeafOfMerge(dst[nodes[0]].entries, src[nodes[0]].entries, nodes[1..]);
    } else if |nodes| > 1 && nodes[0] in src && src[nodes[0]].Map? {
      NoLeafBlocked(src[nodes[0]].entries, nodes[1..]);
    }
  }

  lemma {:induction false} NoLeafBlocked(src: Tree, nodes: seq<string>)
    ensures LeafAt(src, nodes).Some? ==> Blocks(src, nodes)
    decreases |nodes|
  {
    if |nodes| > 1 && nodes[0] in src && src[nodes[0]].Map? {
      NoLeafBlocked(src[nodes[0]].entries, nodes[1..]);
    }
  }

  // ---------- Setting one path ----------

  /** The tree with one leaf. */
  function Single(nodes: seq<string>, value: Val): Tree
    requires nodes != []
    decreases |nodes|
  {
    map[nodes[0] := if |nodes| == 1 then value else Map(Single(nodes[1..], value))]
  }

  function SetPath(data: Tree, nodes: seq<string>, value: Val): Tree
    decreases |nodes|
  {
    if nodes == [] then data
    else if |nodes| == 1 then data[nodes[0] := value]
    else
      var next := if nodes[0] in data && data[nodes[0]].Map? then data[nodes[0]].entries else map[];
      data[nodes[0] := Map(SetPath(next, nodes[1..], value))]
  }

  /** Setting a leaf is merging the tree that has only this leaf. */
  lemma {:induction false} SetPathIsMerge(data: Tree, nodes: seq<string>, value: Val)
    requires nodes != [] && !value.Map?
    ensures SetPath(data, nodes, value) == Merge(data, Single(nodes, value))
    decreases |nodes|
  {
    if |nodes| > 1 {
      var next := if nodes[0] in data && data[nodes[0]].Map? then data[nodes[0]].entries else map[];
      SetPathIsMerge(next, nodes[1..], value);
      MergeIntoEmpty(Single(nodes[1..], value));
    }
  }

  lemma MergeIntoEmpty(src: Tree)
    ensures Merge(map[], src) == src
  {
  }

  // ---------- Typed overrides ----------

  function ParseBool(s: string): Option<bool> {
    var low := Lower(s);
    if low in {"true", "1", "t", "yes", "y", "on"} then Some(true)
    else if low in {"false", "0", "f", "no", "n", "off"} then Some(false)
    else None
  }

  /** The type of the value to be replaced decides; without one, the first reading that works. */
  function ParseWithHint(p: Parsers, hint: Option<Val>, s: string): (v: Val)
    ensures !v.Map?
  {
    if hint.Some? && hint.value.Bool? then
      if ParseBool(s).Some? then Bool(ParseBool(s).value) else Text(s)
    else if hint.Some? && hint.value.Int? then
      if p.asInt(s).Some? then Int(p.asInt(s).value) else Text(s)
    else if hint.Some? && hint.value.Float? then
      if p.asFloat(s).Some? then Float(p.asFloat(s).value) else Text(s)
    else if ParseBool(s).Some? then Bool(ParseBool(s).value)
    else if p.asInt(s).Some? then Int(p.asInt(s).value)
    else if p.asFloat(s).Some? then Float(p.asFloat(s).value)
    else Text(s)
  }

  function ApplyTyped(p: Parsers, base: Tree, overrides: Tree): Tree
    decreases Map(overrides)
  {
    map k | k in overrides ::
      var hint := if k in base then Some(base[k]) else None;
      match overrides[k]
      case Map(entries) =>
        Map(ApplyTyped(p, if hint.Some? && hint.value.Map? then hint.value.entries else map[], entries))
      case Text(s) => ParseWithHint(p, hint, s)
      case _ => overrides[k]
  }

  /** What sits at a path, mapping or leaf. */
  function ValueAt(data: Tree, nodes: seq<string>): Option<Val>
    decreases |nodes|
  {
    if nodes == [] || nodes[0] !in data then None
    else if |nodes| == 1 then Some(data[nodes[0]])
    else if data[nodes[0]].Map? then ValueAt(data[nodes[0]].entries, nodes[1..])
    else None
  }

  /** Typing changes no path: a text leaf is read with the value at the same path as its hint, others stay. */
  lemma {:induction false} LeafOfTyped(p: Parsers, base: Tree, overrides: Tree, nodes: seq<string>)
    ensures LeafAt(ApplyTyped(p, base, overrides), nodes) ==
            match LeafAt(overrides, nodes)
            case None => None
            case Some(Text(s)) => Some(ParseWithHint(p, ValueAt(base, nodes), s))
            case Some(v) => Some(v)
    decreases |nodes|
  {
    if |nodes| > 1 && nodes[0] in overrides && overrides[nodes[0]].Map? {
      var hint := if nodes[0] in base && base[nodes[0]].Map? then base[nodes[0]].entries else map[];
      LeafOfTyped(p, hint, overrides[nodes[0]].entries, nodes[1..]);
      assert ValueAt(map[], nodes[1..]) == None;
    }
  }

  /** What counts as a word for true, and for false, in any capitals. */
  ghost predicate MeansTrue(s: string) {
    var w := Lower(s);
    w == "true" || w == "t" || w == "yes" || w == "y" || w == "on" || w == "1"
  }

  ghost predicate MeansFalse(s: string) {
    var w := Lower(s);
    w == "false" || w == "f" || w == "no" || w == "n" || w == "off" || w == "0"
  }

  /**
    How text is typed: where a number is to be replaced, as a number of its kind if it is
    one; otherwise words for true and false are Booleans, and where no Boolean is to be
    replaced a whole number goes before any other. What cannot be read stays text.
  */
  lemma TextIsTyped(p: Parsers, base: Tree, key: string, s: string)
    ensures var v := LeafAt(ApplyTyped(p, base, map[key := Text(s)]), [key]);
            var there := if key in base then base[key] else Nil;
            && (there.Int? ==> v == Some(if p.asInt(s).Some? then Int(p.asInt(s).value) else Text(s)))
            && (there.Float? ==> v == Some(if p.asFloat(s).Some? then Float(p.asFloat(s).value) else Text(s)))
            && (!there.Int? && !there.Float? ==>
                  && (MeansTrue(s) ==> v == Some(Bool(true)))
                  && (MeansFalse(s) ==> v == Some(Bool(false)))
                  && (!MeansTrue(s) && !MeansFalse(s) ==>
                        v == Some(if there.Bool? then Text(s)
                                  else if p.asInt(s).Some? then Int(p.asInt(s).value)
                                  else if p.asFloat(s).Some? then Float(p.asFloat(s).value)
                                  else Text(s))))
  {
  }

  // ---------- Sources ----------

  /** `path` is the dotted path of a leaf. */
  ghost predicate LeafPath(data: Tree, prefix: string, path: string) {
    exists nodes :: LeafAt(data, nodes).Some? && Dotted(prefix, nodes) == path
  }

  /** The leaves' dotted paths, all mapped to the source, over what was recorded before. */
  ghost predicate Recorded(before: map<string, string>, data: Tree, source: string, prefix: string,
                           after: map<string, string>)
  {
    forall path ::
      && (path in after <==> path in before || LeafPath(data, prefix, path))
      && (path in after ==> after[path] == if LeafPath(data, prefix, path) then source else before[path])
  }

  method RecordSources(sources: map<string, string>, data: Tree, source: string, prefix: string)
      returns (after: map<string, string>)
    ensures Recorded(sources, data, source, prefix, after)
    decreases Map(data)
  {
    after := sources;
    var rest := data.Keys;
    while rest != {}
      invariant rest <= data.Keys
      invariant Recorded(sources, data - rest, source, prefix, after)
      decreases rest
    {
      var key :| key in rest;
      var value := data[key];
      var path := GenDbKey(prefix, key);
      ghost var before := after;
      if value.Map? {
        assert value == Map(value.entries);
        after := RecordSources(after, value.entries, source, path);
      } else {
        after := after[path := source];
      }
      ghost var seen := data - rest;
      rest := rest - {key};
      forall p
        ensures LeafPath(data - rest, prefix, p) <==> LeafPath(seen, prefix, p) || LeafUnder(key, value, prefix, p)
      {
        OneMoreKey(data, seen, data - rest, key, prefix, p);
      }
      OneKeyRecorded(before, key, value, source, prefix, after);
    }
    assert data - rest == data;
  }

  /** `path` is the dotted path of a leaf at or below one key. */
  ghost predicate LeafUnder(key: string, value: Val, prefix: string, path: string) {
    if value.Map? then LeafPath(value.entries, GenDbKey(prefix, key), path) else path == GenDbKey(prefix, key)
  }

  lemma LeafUnderIsSingle(key: string, value: Val, prefix: string, path: string)
    ensures LeafUnder(key, value, prefix, path) <==> LeafPath(map[key := value], prefix, path)
  {
    var d := map[key := value];
    if LeafUnder(key, value, prefix, path) {
      if value.Map? {
        var nodes :| LeafAt(value.entries, nodes).Some? && Dotted(GenDbKey(prefix, key), nodes) == path;
        assert ([key] + nodes)[1..] == nodes;
        assert LeafAt(d, [key] + nodes).Some? && Dotted(prefix, [key] + nodes) == path;
      } else {
        assert LeafAt(d, [key]).Some? && Dotted(prefix, [key]) == path;
      }
    }
    if LeafPath(d, prefix, path) {
      var nodes :| LeafAt(d, nodes).Some? && Dotted(prefix, nodes) == path;
      if value.Map? {
        assert LeafAt(value.entries, nodes[1..]).Some? && Dotted(GenDbKey(prefix, key), nodes[1..]) == path;
      } else {
        assert nodes == [key] && nodes[1..] == [];
        assert path == Dotted(GenDbKey(prefix, key), nodes[1..]);
      }
    }
  }

  lemma OneMoreKey(data: Tree, seen: Tree, more: Tree, key: string, prefix: string, path: string)
    requires key in data && key !in seen && more == seen[key := data[key]]
    ensures LeafPath(more, prefix, path) <==> LeafPath(seen, prefix, path) || LeafUnder(key, data[key], prefix, path)
  {
    LeafUnderIsSingle(key, data[key], prefix, path);
    var single := map[key := data[key]];
    if LeafPath(more, prefix, path) {
      var nodes :| LeafAt(more, nodes).Some? && Dotted(prefix, nodes) == path;
      if nodes[0] == key {
        assert LeafAt(single, nodes) == LeafAt(more, nodes);
      } else {
        assert LeafAt(seen, nodes) == LeafAt(more, nodes);
      }
    }
    if LeafPath(seen, prefix, path) {
      var nodes :| LeafAt(seen, nodes).Some? && Dotted(prefix, nodes) == path;
      assert LeafAt(more, nodes) == LeafAt(seen, nodes);
    }
    if LeafPath(single, prefix, path) {
      var nodes :| LeafAt(single, nodes).Some? && Dotted(prefix, nodes) == path;
      assert LeafAt(more, nodes) == LeafAt(single, nodes);
    }
  }

  lemma OneKeyRecorded(before: map<string, string>, key: string, value: Val, source: string, prefix: string,
                       after: map<string, string>)
    requires if value.Map? then Recorded(before, value.entries, source, GenDbKey(prefix, key), after)
             else after == before[GenDbKey(prefix, key) := source]
    ensures forall path ::
              && (path in after <==> path in before || LeafUnder(key, value, prefix, path))
              && (path in after ==> after[path] == if LeafUnder(key, value, prefix, path) then source else before[path])
  {
  }

  // ---------- Flattening ----------

  ghost predicate LeafValue(data: Tree, prefix: string, path: string, v: Val) {
    exists nodes :: LeafAt(data, nodes) == Some(v) && Dotted(prefix, nodes) == path
  }

  /** `flat` has the dotted paths of the leaves, each with the value of such a leaf. */
  ghost predicate FlatOf(data: Tree, prefix: string, flat: map<string, Val>) {
    && (forall path :: path in flat <==> LeafPath(data, prefix, path))
    && (forall path :: path in flat ==> LeafValue(data, prefix, path, flat[path]))
  }

  method FlattenMap(data: Tree, prefix: string) returns (flat: map<string, Val>)
    ensures FlatOf(data, prefix, flat)
    decreases Map(data)
  {
    flat := map[];
    var rest := data.Keys;
    while rest != {}
      invariant rest <= data.Keys
      invariant FlatOf(data - rest, prefix, flat)
      decreases rest
    {
      var key :| key in rest;
      var value := data[key];
      var path := GenDbKey(prefix, key);
      ghost var seen, before := data - rest, flat;
      if value.Map? {
        assert value == Map(value.entries);
        var nested := FlattenMap(value.entries, path);
        flat := flat + nested;
        FlatNested(seen, key, value, prefix, before, nested);
      } else {
        flat := flat[path := value];
        FlatLeaf(seen, key, value, prefix, before);
      }
      rest := rest - {key};
      assert data - rest == seen[key := value];
    }
    assert data - rest == data;
  }

  lemma ValueOfMore(seen: Tree, key: string, value: Val, prefix: string, path: string, v: Val)
    requires key !in seen
    ensures LeafValue(seen, prefix, path, v) ==> LeafValue(seen[key := value], prefix, path, v)
    ensures LeafValue(map[key := value], prefix, path, v) ==> LeafValue(seen[key := value], prefix, path, v)
  {
    var more, single := seen[key := value], map[key := value];
    if LeafValue(seen, prefix, path, v) {
      var nodes :| LeafAt(seen, nodes) == Some(v) && Dotted(prefix, nodes) == path;
      assert LeafAt(more, nodes) == LeafAt(seen, nodes);
    }
    if LeafValue(single, prefix, path, v) {
      var nodes :| LeafAt(single, nodes) == Some(v) && Dotted(prefix, nodes) == path;
      assert LeafAt(more, nodes) == LeafAt(single, nodes);
    }
  }

  lemma ValueUnderKey(key: string, value: Val, prefix: string, path: string, v: Val)
    requires if value.Map? then LeafValue(value.entries, GenDbKey(prefix, key), path, v)
             else path == GenDbKey(prefix, key) && v == value
    ensures LeafValue(map[key := value], prefix, path, v)
  {
    var single := map[key := value];
    if value.Map? {
      var nodes :| LeafAt(value.entries, nodes) == Some(v) && Dotted(GenDbKey(prefix, key), nodes) == path;
      assert ([key] + nodes)[1..] == nodes;
      assert LeafAt(single, [key] + nodes) == Some(v) && Dotted(prefix, [key] + nodes) == path;
    } else {
      assert LeafAt(single, [key]) == Some(v) && Dotted(prefix, [key]) == path;
    }
  }

  lemma FlatNested(seen: Tree, key: string, value: Val, prefix: string, flat: map<string, Val>,
                   nested: map<string, Val>)
    requires key !in seen && value.Map? && FlatOf(seen, prefix, flat)
    requires FlatOf(value.entries, GenDbKey(prefix, key), nested)
    ensures FlatOf(seen[key := value], prefix, flat + nested)
  {
    var more := seen[key := value];
    forall path: string
      ensures path in flat + nested <==> LeafPath(more, prefix, path)
    {
      OneMoreKey(more, seen, more, key, prefix, path);
    }
    forall path: string | path in flat + nested
      ensures LeafValue(more, prefix, path, (flat + nested)[path])
    {
      FlatNestedAt(seen, key, value, prefix, flat, nested, path);
    }
  }

  lemma FlatNestedAt(seen: Tree, key: string, value: Val, prefix: string, flat: map<string, Val>,
                     nested: map<string, Val>, path: string)
    requires key !in seen && value.Map? && FlatOf(seen, prefix, flat)
    requires FlatOf(value.entries, GenDbKey(prefix, key), nested)
    requires path in flat + nested
    ensures LeafValue(seen[key := value], prefix, path, (flat + nested)[path])
  {
    var v := (flat + nested)[path];
    if path in nested {
      ValueUnderKey(key, value, prefix, path, v);
    }
    ValueOfMore(seen, key, value, prefix, path, v);
  }

  lemma FlatLeaf(seen: Tree, key: string, value: Val, prefix: string, flat: map<string, Val>)
    requires key !in seen && !value.Map? && FlatOf(seen, prefix, flat)
    ensures FlatOf(seen[key := value], prefix, flat[GenDbKey(prefix, key) := value])
  {
    var more := seen[key := value];
    var flat' := flat[GenDbKey(prefix, key) := value];
    forall path: string
      ensures path in flat' <==> LeafPath(more, prefix, path)
    {
      OneMoreKey(more, seen, more, key, prefix, path);
    }
    forall path: string | path in flat'
      ensures LeafValue(more, prefix, path, flat'[path])
    {
      if path == GenDbKey(prefix, key) {
        ValueUnderKey(key, value, prefix, path, value);
      }
      ValueOfMore(seen, key, value, prefix, path, flat'[path]);
    }
  }

  // ---------- Loading ----------

  /** Where a configuration comes from: files that may be missing, environment and flags that may be empty. */
  datatype Inputs = Inputs(
    defaults: Option<Tree>,
    envFile: Option<Tree>,
    local: Option<Tree>,
    env: Tree,
    flags: Tree)

  function FileLayer(source: string, file: Option<Tree>): seq<Layer> {
    if file.Some? then [Layer(source, file.value, false)] else []
  }

  function TextLayer(source: string, data: Tree): seq<Layer> {
    if data != map[] then [Layer(source, data, true)] else []
  }

  /** The layers of one load, those that win last. */
  function LayersOf(i: Inputs): seq<Layer> {
    FileLayer("default", i.defaults) + FileLayer("env-file", i.envFile) + FileLayer("local", i.local)
    + TextLayer("env", i.env) + TextLayer("flags", i.flags)
  }

  /** What a layer merges into the tree so far. */
  function Effective(p: Parsers, merged: Tree, layer: Layer): Tree {
    if layer.typed then ApplyTyped(p, merged, layer.data) else layer.data
  }

  /** The trees and source maps after each layer. */
  ghost predicate Loaded(p: Parsers, layers: seq<Layer>, trees: seq<Tree>, maps: seq<map<string, string>>) {
    && |trees| == |maps| == |layers| + 1
    && trees[0] == map[] && maps[0] == map[]
    && forall k :: 0 <= k < |layers| ==>
      && trees[k + 1] == Merge(trees[k], Effective(p, trees[k], layers[k]))
      && Recorded(maps[k], layers[k].data, layers[k].source, "", maps[k + 1])
  }

  lemma LoadedSnoc(p: Parsers, layers: seq<Layer>, layer: Layer, trees: seq<Tree>, maps: seq<map<string, string>>,
                   sources: map<string, string>)
    requires Loaded(p, layers, trees, maps)
    requires Recorded(maps[|layers|], layer.data, layer.source, "", sources)
    ensures var tree := trees[|layers|];
            Loaded(p, layers + [layer], trees + [Merge(tree, Effective(p, tree, layer))], maps + [sources])
  {
    var tree := trees[|layers|];
    var all, trees', maps' := layers + [layer], trees + [Merge(tree, Effective(p, tree, layer))], maps + [sources];
    forall k | 0 <= k < |all|
      ensures trees'[k + 1] == Merge(trees'[k], Effective(p, trees'[k], all[k]))
      ensures Recorded(maps'[k], all[k].data, all[k].source, "", maps'[k + 1])
    {
      if k < |layers| {
        assert trees'[k] == trees[k] && trees'[k + 1] == trees[k + 1] && all[k] == layers[k];
        assert maps'[k] == maps[k] && maps'[k + 1] == maps[k + 1];
      }
    }
  }

  /** The layering of a load, with its history. */
  method MergeLayers(p: Parsers, layers: seq<Layer>)
      returns (merged: Tree, sources: map<string, string>, ghost trees: seq<Tree>, ghost maps: seq<map<string, string>>)
    ensures Loaded(p, layers, trees, maps)
    ensures merged == trees[|layers|] && sources == maps[|layers|]
  {
    merged, sources := map[], map[];
    trees, maps := [merged], [sources];
    for k := 0 to |layers|
      invariant Loaded(p, layers[..k], trees, maps)
      invariant merged == trees[k] && sources == maps[k]
    {
      var layer := layers[k];
      merged := MergeMaps(merged, Effective(p, merged, layer));
      sources := RecordSources(sources, layer.data, layer.source, "");
      LoadedSnoc(p, layers[..k], layer, trees, maps, sources);
      trees, maps := trees + [merged], maps + [sources];
      assert layers[..k + 1] == layers[..k] + [layer];
    }
    assert layers[..|layers|] == layers;
  }

  // ---------- Provenance ----------

  /** No key on the way to a leaf is empty or has a dot. */
  ghost predicate CleanLayers(layers: seq<Layer>) {
    forall i, nodes :: 0 <= i < |layers| && LeafAt(layers[i].data, nodes).Some? ==> Clean(nodes)
  }

  /** The last of the first `k` layers that defines a leaf at the path, or -1. */
  function LastDefiner(layers: seq<Layer>, k: nat, nodes: seq<string>): (i: int)
    requires k <= |layers|
    ensures -1 <= i < k
    ensures i >= 0 ==> LeafAt(layers[i].data, nodes).Some?
    ensures forall j :: i < j < k ==> LeafAt(layers[j].data, nodes).None?
  {
    if k == 0 then -1
    else if LeafAt(layers[k - 1].data, nodes).Some? then k - 1
    else LastDefiner(layers, k - 1, nodes)
  }

  lemma LeafOfEffective(p: Parsers, merged: Tree, layer: Layer, nodes: seq<string>)
    ensures LeafAt(Effective(p, merged, layer), nodes).Some? <==> LeafAt(layer.data, nodes).Some?
  {
    LeafOfTyped(p, merged, layer.data, nodes);
  }

  /**
    Provenance: every leaf of the merged tree has the value, typed as it was merged, of
    the last layer that defines its path, and the source map names that layer, whatever
    leaves and mappings overwrote each other on the way.
  */
  lemma {:induction false} Provenance(p: Parsers, layers: seq<Layer>, trees: seq<Tree>, maps: seq<map<string, string>>,
                                      k: nat, nodes: seq<string>)
    requires Loaded(p, layers, trees, maps) && CleanLayers(layers)
    requires k <= |layers| && LeafAt(trees[k], nodes).Some?
    ensures var i := LastDefiner(layers, k, nodes);
            && i >= 0
            && LeafAt(trees[k], nodes) == LeafAt(Effective(p, trees[i], layers[i]), nodes)
            && Dotted("", nodes) in maps[k] && maps[k][Dotted("", nodes)] == layers[i].source
  {
    if k > 0 {
      var before, layer, path := trees[k - 1], layers[k - 1], Dotted("", nodes);
      assert trees[k - 1 + 1] == Merge(before, Effective(p, before, layer));
      assert Recorded(maps[k - 1], layer.data, layer.source, "", maps[k - 1 + 1]);
      LeafOfMerge(before, Effective(p, before, layer), nodes);
      LeafOfEffective(p, before, layer, nodes);
      if LeafAt(layer.data, nodes).Some? {
        assert LeafPath(layer.data, "", path);
      } else {
        Provenance(p, layers, trees, maps, k - 1, nodes);
        var i := LastDefiner(layers, k - 1, nodes);
        if LeafPath(layer.data, "", path) {
          var other :| LeafAt(layer.data, other).Some? && Dotted("", other) == path;
          DottedInjective("", nodes, other);
        }
      }
    }
  }

  // ---------- The check of sensitive values ----------

  predicate IsEmpty(v: Val) {
    v.Nil? || v == Text("") || v == Items([])
  }

  predicate IsSensitivePath(path: string, sensitive: seq<string>) {
    exists i :: 0 <= i < |sensitive| && sensitive[i] != "" && Contains(Lower(path), Lower(sensitive[i]))
  }

  predicate IsPlaceholder(value: string) {
    var text := Strip(value);
    && text != ""
    && (|| (forall i :: 0 <= i < |text| ==> text[i] == '*')
        || Contains(text, "***")
        || Lower(text) in {"redacted", "<redacted>", "changeme", "replace_me", "placeholder"})
  }

  /**
    The outcome of the check: the last three carry the offending path. `NotText` is the
    attribute error raised when a sensitive value that is not text is stripped.
  */
  datatype Verdict = Accepted | WrongSource(path: string) | PlaceholderFound(path: string) | NotText(path: string)

  /** What the check asks of one leaf, in its order. */
  function CheckLeaf(path: string, v: Val, sources: map<string, string>, sensitive: seq<string>): Verdict {
    if !IsSensitivePath(path, sensitive) || IsEmpty(v) then Accepted
    else if path !in sources || sources[path] !in {"env", "local"} then WrongSource(path)
    else if !v.Text? then NotText(path)
    else if IsPlaceholder(v.s) then PlaceholderFound(path)
    else Accepted
  }

  /** The verdict on flattened leaves: they all pass, or it names one that does not. */
  ghost predicate Judges(verdict: Verdict, flat: map<string, Val>, sources: map<string, string>,
                         sensitive: seq<string>)
  {
    && (verdict.Accepted? <==> AllAccepted(flat, sources, sensitive))
    && (!verdict.Accepted? ==>
          verdict.path in flat && verdict == CheckLeaf(verdict.path, flat[verdict.path], sources, sensitive))
  }

  method ValidateSensitiveSources(data: Tree, sources: map<string, string>, sensitive: seq<string>)
      returns (verdict: Verdict)
    ensures exists flat :: FlatOf(data, "", flat) && Judges(verdict, flat, sources, sensitive)
  {
    var leaves := FlattenMap(data, "");
    var rest := leaves.Keys;
    while rest != {}
      invariant rest <= leaves.Keys
      invariant forall path :: path in leaves && path !in rest ==>
        CheckLeaf(path, leaves[path], sources, sensitive).Accepted?
      decreases rest
    {
      var path :| path in rest;
      verdict := CheckLeaf(path, leaves[path], sources, sensitive);
      if !verdict.Accepted? {
        assert FlatOf(data, "", leaves) && Judges(verdict, leaves, sources, sensitive);
        return;
      }
      rest := rest - {path};
    }
    verdict := Accepted;
    assert FlatOf(data, "", leaves) && Judges(verdict, leaves, sources, sensitive);
  }

  /** One of the words for secrets occurs in the path, in any capitals. */
  ghost predicate NamesSecret(path: string, sensitive: seq<string>) {
    exists i :: 0 <= i < |sensitive| && sensitive[i] != "" && Occurs(Lower(sensitive[i]), Lower(path))
  }

  ghost predicate Blank(v: Val) {
    v == Nil || v == Text("") || v == Items([])
  }

  /** Nothing but stars, three stars anywhere, or one of the usual words, in any capitals. */
  ghost predicate StandsForSecret(s: string) {
    var core, word := Strip(s), Lower(Strip(s));
    && core != ""
    && (|| (forall c :: c in core ==> c == '*')
        || Occurs("***", core)
        || word == "redacted" || word == "<redacted>" || word == "changeme" || word == "replace_me"
        || word == "placeholder")
  }

  lemma SecretsAreNamed(path: string, sensitive: seq<string>)
    ensures IsSensitivePath(path, sensitive) <==> NamesSecret(path, sensitive)
  {
    forall i | 0 <= i < |sensitive|
      ensures Contains(Lower(path), Lower(sensitive[i])) <==> Occurs(Lower(sensitive[i]), Lower(path))
    {
      ContainsIff(Lower(path), Lower(sensitive[i]));
    }
  }

  lemma PlaceholdersStand(s: string)
    ensures IsPlaceholder(s) <==> StandsForSecret(s)
  {
    var core := Strip(s);
    ContainsIff(core, "***");
    assert (forall c :: c in core ==> c == '*') ==> forall i :: 0 <= i < |core| ==> core[i] in core;
  }

  /** What an operator wants of a sensitive leaf: real text, from the environment or the local file. */
  ghost predicate SafeLeaf(layers: seq<Layer>, nodes: seq<string>, v: Val)
    requires LastDefiner(layers, |layers|, nodes) >= 0
  {
    && layers[LastDefiner(layers, |layers|, nodes)].source in {"env", "local"}
    && v.Text? && !StandsForSecret(v.s)
  }

  ghost predicate AllAccepted(flat: map<string, Val>, sources: map<string, string>, sensitive: seq<string>) {
    forall path :: path in flat ==> CheckLeaf(path, flat[path], sources, sensitive).Accepted?
  }

  /** Every sensitive leaf that is not empty is safe. */
  ghost predicate AllSafe(layers: seq<Layer>, tree: Tree, sensitive: seq<string>) {
    forall nodes :: LeafAt(tree, nodes).Some? ==> LeafSafe(layers, tree, nodes, sensitive)
  }

  ghost predicate LeafSafe(layers: seq<Layer>, tree: Tree, nodes: seq<string>, sensitive: seq<string>)
    requires LeafAt(tree, nodes).Some?
  {
    NamesSecret(Dotted("", nodes), sensitive) && !Blank(LeafAt(tree, nodes).value) ==>
      LastDefiner(layers, |layers|, nodes) >= 0 && SafeLeaf(layers, nodes, LeafAt(tree, nodes).value)
  }

  /** On clean paths the flat map has the value of the leaf itself. */
  lemma FlatValue(p: Parsers, layers: seq<Layer>, trees: seq<Tree>, maps: seq<map<string, string>>,
                  flat: map<string, Val>, nodes: seq<string>)
    requires Loaded(p, layers, trees, maps) && CleanLayers(layers)
    requires FlatOf(trees[|layers|], "", flat) && LeafAt(trees[|layers|], nodes).Some?
    ensures Dotted("", nodes) in flat && Some(flat[Dotted("", nodes)]) == LeafAt(trees[|layers|], nodes)
  {
    var n, path := |layers|, Dotted("", nodes);
    assert LeafPath(trees[n], "", path);
    assert LeafValue(trees[n], "", path, flat[path]);
    var other :| LeafAt(trees[n], other) == Some(flat[path]) && Dotted("", other) == path;
    Provenance(p, layers, trees, maps, n, nodes);
    Provenance(p, layers, trees, maps, n, other);
    DottedInjective("", nodes, other);
  }

  lemma LeafAcceptedIff(p: Parsers, layers: seq<Layer>, trees: seq<Tree>, maps: seq<map<string, string>>,
                        nodes: seq<string>, sensitive: seq<string>)
    requires Loaded(p, layers, trees, maps) && CleanLayers(layers)
    requires LeafAt(trees[|layers|], nodes).Some?
    ensures CheckLeaf(Dotted("", nodes), LeafAt(trees[|layers|], nodes).value, maps[|layers|], sensitive).Accepted?
            <==> LeafSafe(layers, trees[|layers|], nodes, sensitive)
  {
    Provenance(p, layers, trees, maps, |layers|, nodes);
    var v := LeafAt(trees[|layers|], nodes).value;
    SecretsAreNamed(Dotted("", nodes), sensitive);
    if v.Text? {
      PlaceholdersStand(v.s);
    }
  }

  /**
    A loaded configuration is accepted exactly when every sensitive leaf that is not
    empty was last defined by the environment or the local file and is text that is no
    placeholder.
  */
  lemma AcceptedIff(p: Parsers, layers: seq<Layer>, trees: seq<Tree>, maps: seq<map<string, string>>,
                    flat: map<string, Val>, sensitive: seq<string>)
    requires Loaded(p, layers, trees, maps) && CleanLayers(layers)
    requires FlatOf(trees[|layers|], "", flat)
    ensures AllAccepted(flat, maps[|layers|], sensitive) <==> AllSafe(layers, trees[|layers|], sensitive)
  {
    var tree := trees[|layers|];
    if AllAccepted(flat, maps[|layers|], sensitive) {
      forall nodes | LeafAt(tree, nodes).Some?
        ensures LeafSafe(layers, tree, nodes, sensitive)
      {
        FlatValue(p, layers, trees, maps, flat, nodes);
        LeafAcceptedIff(p, layers, trees, maps, nodes, sensitive);
      }
    }
    if AllSafe(layers, tree, sensitive) {
      forall path | path in flat
        ensures CheckLeaf(path, flat[path], maps[|layers|], sensitive).Accepted?
      {
        assert LeafValue(tree, "", path, flat[path]);
        var nodes :| LeafAt(tree, nodes) == Some(flat[path]) && Dotted("", nodes) == path;
        LeafAcceptedIff(p, layers, trees, maps, nodes, sensitive);
      }
    }
  }

  // ---------- A whole load ----------

  predicate Defines(data: Tree, nodes: seq<string>) {
    LeafAt(data, nodes).Some?
  }

  /** Which input a leaf comes from: flags before environment before the files, the default file last. */
  function WinnerOf(i: Inputs, nodes: seq<string>): Option<string> {
    if Defines(i.flags, nodes) then Some("flags")
    else if Defines(i.env, nodes) then Some("env")
    else if i.local.Some? && Defines(i.local.value, nodes) then Some("local")
    else if i.envFile.Some? && Defines(i.envFile.value, nodes) then Some("env-file")
    else if i.defaults.Some? && Defines(i.defaults.value, nodes) then Some("default")
    else None
  }

  /** The source of the last of some layers that defines the path. */
  function LastSource(layers: seq<Layer>, nodes: seq<string>): Option<string> {
    var i := LastDefiner(layers, |layers|, nodes);
    if i >= 0 then Some(layers[i].source) else None
  }

  lemma {:induction false} DefinerInPrefix(layers: seq<Layer>, more: seq<Layer>, k: nat, nodes: seq<string>)
    requires k <= |layers|
    ensures LastDefiner(layers + more, k, nodes) == LastDefiner(layers, k, nodes)
  {
    if k > 0 {
      DefinerInPrefix(layers, more, k - 1, nodes);
    }
  }

  /** One more layer: it is the source if it defines the path. */
  lemma LastSourceAppend(layers: seq<Layer>, more: seq<Layer>, nodes: seq<string>)
    requires |more| <= 1
    ensures LastSource(layers + more, nodes) ==
            if |more| == 1 && Defines(more[0].data, nodes) then Some(more[0].source) else LastSource(layers, nodes)
  {
    if more == [] {
      assert layers + more == layers;
    } else {
      DefinerInPrefix(layers, more, |layers|, nodes);
    }
  }

  lemma LastSourceWithFile(layers: seq<Layer>, source: string, file: Option<Tree>, nodes: seq<string>)
    ensures LastSource(layers + FileLayer(source, file), nodes) ==
            if file.Some? && Defines(file.value, nodes) then Some(source) else LastSource(layers, nodes)
  {
    LastSourceAppend(layers, FileLayer(source, file), nodes);
  }

  lemma LastSourceWithText(layers: seq<Layer>, source: string, data: Tree, nodes: seq<string>)
    ensures LastSource(layers + TextLayer(source, data), nodes) ==
            if Defines(data, nodes) then Some(source) else LastSource(layers, nodes)
  {
    LastSourceAppend(layers, TextLayer(source, data), nodes);
  }

  lemma LastSourceIsWinner(i: Inputs, nodes: seq<string>)
    ensures LastSource(LayersOf(i), nodes) == WinnerOf(i, nodes)
  {
    assert LastSource([], nodes) == None;
    hide LastSource, Defines, FileLayer, TextLayer;
    var l1 := [] + FileLayer("default", i.defaults);
    var l2 := l1 + FileLayer("env-file", i.envFile);
    var l3 := l2 + FileLayer("local", i.local);
    var l4 := l3 + TextLayer("env", i.env);
    assert l1 == FileLayer("default", i.defaults);
    LastSourceWithFile([], "default", i.defaults, nodes);
    LastSourceWithFile(l1, "env-file", i.envFile, nodes);
    LastSourceWithFile(l2, "local", i.local, nodes);
    LastSourceWithText(l3, "env", i.env, nodes);
    LastSourceWithText(l4, "flags", i.flags, nodes);
  }

  /** The layers of the files alone. */
  function FilesOf(i: Inputs): seq<Layer> {
    FileLayer("default", i.defaults) + FileLayer("env-file", i.envFile) + FileLayer("local", i.local)
  }

  /**
    The value that the winning input gives a leaf: a file as it is; the environment and
    the flags typed by what sits at the path in the tree that was merged before them.
  */
  ghost predicate ValueIsWinners(p: Parsers, i: Inputs, trees: seq<Tree>, nodes: seq<string>, v: Val) {
    match WinnerOf(i, nodes)
    case None => false
    case Some(source) =>
      if source == "flags" then
        trees != [] && |trees| >= 2 && LeafAt(ApplyTyped(p, trees[|trees| - 2], i.flags), nodes) == Some(v)
      else if source == "env" then
        |FilesOf(i)| < |trees| && LeafAt(ApplyTyped(p, trees[|FilesOf(i)|], i.env), nodes) == Some(v)
      else if source == "local" then i.local.Some? && LeafAt(i.local.value, nodes) == Some(v)
      else if source == "env-file" then i.envFile.Some? && LeafAt(i.envFile.value, nodes) == Some(v)
      else i.defaults.Some? && LeafAt(i.defaults.value, nodes) == Some(v)
  }

  /** Which layer has which source. */
  lemma LayerWithSource(i: Inputs, k: nat)
    requires k < |LayersOf(i)|
    ensures var layers := LayersOf(i);
            match layers[k].source
            case "flags" => layers[k] == Layer("flags", i.flags, true) && k == |layers| - 1
            case "env" => layers[k] == Layer("env", i.env, true) && k == |FilesOf(i)|
            case "local" => i.local.Some? && layers[k] == Layer("local", i.local.value, false)
            case "env-file" => i.envFile.Some? && layers[k] == Layer("env-file", i.envFile.value, false)
            case _ => i.defaults.Some? && layers[k] == Layer("default", i.defaults.value, false)
  {
    var files, env := FilesOf(i), TextLayer("env", i.env);
    assert LayersOf(i) == files + env + TextLayer("flags", i.flags);
    if k < |files| {
      assert LayersOf(i)[k] == files[k];
      assert files[k] in FileLayer("default", i.defaults) || files[k] in FileLayer("env-file", i.envFile)
             || files[k] in FileLayer("local", i.local);
    }
  }

  lemma WinnerGivesValue(p: Parsers, i: Inputs, trees: seq<Tree>, maps: seq<map<string, string>>, nodes: seq<string>)
    requires Loaded(p, LayersOf(i), trees, maps) && CleanLayers(LayersOf(i))
    requires LeafAt(trees[|LayersOf(i)|], nodes).Some?
    ensures ValueIsWinners(p, i, trees, nodes, LeafAt(trees[|LayersOf(i)|], nodes).value)
  {
    hide LayersOf, FilesOf, WinnerOf, ApplyTyped, LeafAt, Merge, Recorded, CleanLayers, Dotted;
    var layers := LayersOf(i);
    Provenance(p, layers, trees, maps, |layers|, nodes);
    LastSourceIsWinner(i, nodes);
    LayerWithSource(i, LastDefiner(layers, |layers|, nodes));
  }

  /** Every leaf of the tree is recorded with the source of the input that wins its path. */
  ghost predicate SourcesAreWinners(i: Inputs, tree: Tree, sources: map<string, string>) {
    forall nodes :: LeafAt(tree, nodes).Some? ==>
      Dotted("", nodes) in sources && Some(sources[Dotted("", nodes)]) == WinnerOf(i, nodes)
  }

  /** A sensitive leaf that is not empty must come from one of the two inputs meant for secrets. */
  ghost predicate Misplaced(i: Inputs, tree: Tree, sensitive: seq<string>, nodes: seq<string>) {
    && LeafAt(tree, nodes).Some? && !Blank(LeafAt(tree, nodes).value)
    && NamesSecret(Dotted("", nodes), sensitive)
    && WinnerOf(i, nodes) !in {Some("env"), Some("local")}
  }

  lemma MisplacedIsNotSafe(i: Inputs, tree: Tree, sensitive: seq<string>, nodes: seq<string>)
    requires Misplaced(i, tree, sensitive, nodes)
    ensures !AllSafe(LayersOf(i), tree, sensitive)
  {
    LastSourceIsWinner(i, nodes);
    assert !LeafSafe(LayersOf(i), tree, nodes, sensitive);
  }

  /**
    A whole load: layering, and the check of the result. The source map names for every
    leaf the winning input, and the result is accepted exactly when it is safe; so a
    secret given by a flag, the default file or the file of the deployment is rejected.
  */
  method Load(p: Parsers, i: Inputs, sensitive: seq<string>)
      returns (merged: Tree, sources: map<string, string>, verdict: Verdict)
    ensures exists trees, maps ::
              && Loaded(p, LayersOf(i), trees, maps)
              && merged == trees[|LayersOf(i)|] && sources == maps[|LayersOf(i)|]
              && (CleanLayers(LayersOf(i)) ==> forall nodes :: LeafAt(merged, nodes).Some? ==>
                    ValueIsWinners(p, i, trees, nodes, LeafAt(merged, nodes).value))
    ensures CleanLayers(LayersOf(i)) ==> SourcesAreWinners(i, merged, sources)
    ensures CleanLayers(LayersOf(i)) ==> (verdict.Accepted? <==> AllSafe(LayersOf(i), merged, sensitive))
    ensures CleanLayers(LayersOf(i)) ==> forall nodes :: Misplaced(i, merged, sensitive, nodes) ==> !verdict.Accepted?
  {
    ghost var trees, maps;
    var layers := LayersOf(i);
    merged, sources, trees, maps := MergeLayers(p, layers);
    verdict := ValidateSensitiveSources(merged, sources, sensitive);
    ghost var flat :| FlatOf(merged, "", flat) && Judges(verdict, flat, sources, sensitive);
    if CleanLayers(layers) {
      forall nodes | LeafAt(merged, nodes).Some?
        ensures Dotted("", nodes) in sources && Some(sources[Dotted("", nodes)]) == WinnerOf(i, nodes)
      {
        Provenance(p, layers, trees, maps, |layers|, nodes);
        LastSourceIsWinner(i, nodes);
      }
      forall nodes | LeafAt(merged, nodes).Some?
        ensures ValueIsWinners(p, i, trees, nodes, LeafAt(merged, nodes).value)
      {
        WinnerGivesValue(p, i, trees, maps, nodes);
      }
      AcceptedIff(p, layers, trees, maps, flat, sensitive);
      forall nodes | Misplaced(i, merged, sensitive, nodes)
        ensures !verdict.Accepted?
      {
        MisplacedIsNotSafe(i, merged, sensitive, nodes);
      }
    }
  }

  /**
    A secret made of digits is rejected even when it comes from the environment: typing
    turns it into a number, and the check for placeholders then fails on it.
  */
  lemma NumericSecretIsRejected(p: Parsers, key: string, secret: string, sources: map<string, string>,
                                sensitive: seq<string>)
    requires key != "" && NamesSecret(key, sensitive)
    requires !MeansTrue(secret) && !MeansFalse(secret) && p.asInt(secret).Some?
    requires Recorded(map[], map[key := Text(secret)], "env", "", sources)
    ensures var merged := Merge(map[], ApplyTyped(p, map[], map[key := Text(secret)]));
            && LeafAt(merged, [key]) == Some(Int(p.asInt(secret).value))
            && CheckLeaf(key, Int(p.asInt(secret).value), sources, sensitive) == NotText(key)
  {
    var data: Tree := map[key := Text(secret)];
    LeafOfTyped(p, map[], data, [key]);
    LeafOfMerge(map[], ApplyTyped(p, map[], data), [key]);
    assert LeafAt(data, [key]).Some? && Dotted("", [key]) == key;
    assert LeafPath(data, "", key);
    SecretsAreNamed(key, sensitive);
  }
}
