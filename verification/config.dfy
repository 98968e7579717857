/** The immutable `Config` value object (domain/config.py): the merged tree
    plus its provenance index, with dotted-path lookup, exact provenance
    lookup, shallow top-level overrides and a deep copy for export.

    `MappingProxyType` freezing is not modelled: Dafny values are immutable,
    so no caller can change a `Config` after it is built. `__getitem__`
    raising `KeyError` is modelled as `None`. */
module Configuration {
  import opened Results
  import opened Text
  import opened Tree
  import opened Merge
  import opened MergeTree
  import opened MergeProvenance

  datatype Config = Config(data: Mapping, meta: Provenance)

  /** `EMPTY_CONFIG`: no keys and no provenance. */
  const EmptyConfig := Config([], map[])

  /** `cfg[key]`: the stored top-level value, `None` for `KeyError`. */
  function Item(c: Config, key: string): (r: Option<Value>)
    ensures r.Some? <==> key in Iter(c)
    ensures r.Some? ==> (key, r.value) in c.data
  {
    GetMember(c.data, key);
    Get(c.data, key)
  }

  lemma GetMember(m: Mapping, k: string)
    ensures Get(m, k).Some? ==> (k, Get(m, k).value) in m
  {
    if Get(m, k).Some? {
      var i := GetIndex(m, k);
    }
  }

  /** `iter(cfg)`: the top-level keys in insertion order. */
  function Iter(c: Config): (r: seq<string>)
    ensures |r| == |c.data|
    ensures forall i :: 0 <= i < |r| ==> r[i] == c.data[i].0
  {
    Keys(c.data)
  }

  /** `len(cfg)`: the number of top-level keys. */
  function Len(c: Config): (r: nat)
    ensures r == |Iter(c)|
  {
    |c.data|
  }

  /** Over a configuration whose keys are unique, `len`, `iter` and
      `__getitem__` agree: iteration yields each key once, and exactly the
      keys it yields can be looked up. */
  lemma MappingProtocol(c: Config)
    requires UniqueKeys(c.data)
    ensures Len(c) == |Iter(c)|
    ensures forall i, j :: 0 <= i < j < |Iter(c)| ==> Iter(c)[i] != Iter(c)[j]
    ensures forall i :: 0 <= i < |Iter(c)| ==> Item(c, Iter(c)[i]) == Some(c.data[i].1)
  {
    UniqueKeysIndex(c.data);
    forall i | 0 <= i < |Iter(c)|
      ensures Item(c, Iter(c)[i]) == Some(c.data[i].1)
    {
      GetAtIndex(c.data, i);
    }
  }

  /** `_resolve_dotted_path` after splitting: walk one segment at a time,
      giving up as soon as the current value is not a mapping or lacks the
      segment. */
  function Resolve(v: Value, parts: seq<string>): (r: Option<Value>)
    ensures parts == [] ==> r == Some(v)
    ensures parts != [] && !v.Map? ==> r == None
    ensures parts != [] && v.Map? && Get(v.entries, parts[0]).None? ==> r == None
    decreases |parts|
  {
    if parts == [] then Some(v)
    else if !v.Map? || Get(v.entries, parts[0]).None? then None
    else Resolve(Get(v.entries, parts[0]).value, parts[1..])
  }

  /** `cfg.get(key, default=d)`: the value at the dotted path `key`, or `d`.
      It is total: no input makes it fail. */
  function GetPath(c: Config, key: string, default: Value): (r: Value)
    ensures Resolve(Map(c.data), Split(key, ".")).None? ==> r == default
    ensures Resolve(Map(c.data), Split(key, ".")).Some? ==> r == Resolve(Map(c.data), Split(key, ".")).value
  {
    Resolve(Map(c.data), Split(key, ".")).GetOr(default)
  }

  /** Walking `a + b` is walking `a`, then walking `b` from where `a` ended. */
  lemma {:induction false} ResolveConcat(v: Value, a: seq<string>, b: seq<string>)
    ensures Resolve(v, a + b) == if Resolve(v, a).None? then None else Resolve(Resolve(v, a).value, b)
    decreases |a|
  {
    if a != [] {
      assert (a + b)[0] == a[0];
      assert (a + b)[1..] == a[1..] + b;
      if v.Map? && Get(v.entries, a[0]).Some? {
        ResolveConcat(Get(v.entries, a[0]).value, a[1..], b);
      }
    } else {
      assert a + b == b;
    }
  }

  /** A key without dots is a single segment: `get` then reads the
      top-level entry, exactly as `__getitem__` does. */
  lemma GetTopLevel(c: Config, key: string, default: Value)
    requires '.' !in key
    ensures GetPath(c, key, default) == Item(c, key).GetOr(default)
  {
    SplitSingle(key, '.');
    assert Split(key, ".")[1..] == [];
  }

  /** A dotted key `k.rest` with a dot-free head reads `rest` inside the
      mapping stored under `k`, and gives the default when `k` is missing
      or holds something other than a mapping. */
  lemma GetPathDotted(c: Config, k: string, rest: string, default: Value)
    requires '.' !in k
    ensures var item := Item(c, k);
            GetPath(c, k + "." + rest, default)
              == if item.Some? && item.value.Map? then GetPath(Config(item.value.entries, c.meta), rest, default)
                 else default
  {
    SplitCons(k, rest, '.');
    assert k + "." + rest == k + ['.'] + rest;
  }

  /** A walk ends on a non-mapping value exactly along a leaf path of the
      merged tree. */
  lemma {:induction false} ResolveLeaf(m: Mapping, p: seq<string>)
    ensures IsLeafPath(m, p) <==> p != [] && Resolve(Map(m), p).Some? && !Resolve(Map(m), p).value.Map?
    decreases |p|
  {
    if p != [] && Get(m, p[0]).Some? {
      var v := Get(m, p[0]).value;
      if |p| > 1 && v.Map? {
        ResolveLeaf(v.entries, p[1..]);
      } else if |p| > 1 {
        assert Resolve(v, p[1..]) == None;
      }
    }
  }

  /** `cfg.origin(key)`: the provenance record stored under exactly `key`. */
  function Origin(c: Config, key: string): (r: Option<SourceInfo>)
    ensures r.Some? <==> key in c.meta
    ensures r.Some? ==> r.value == c.meta[key]
  {
    if key in c.meta then Some(c.meta[key]) else None
  }

  /** Origin looks at one key only: two configurations whose provenance
      agrees at `key` report the same origin for it, whatever they record
      under its parents or children. */
  lemma OriginExact(c: Config, d: Config, key: string)
    requires (key in c.meta <==> key in d.meta)
    requires key in c.meta ==> c.meta[key] == d.meta[key]
    ensures Origin(c, key) == Origin(d, key)
  {
  }

  /** The configuration built from a merge. */
  function FromMerge(layers: seq<LayerEntry>): (r: Config)
    ensures r.data == MergeLayers(layers).tree
    ensures r.meta == MergeLayers(layers).meta
  {
    var m := MergeLayers(layers);
    Config(m.tree, m.meta)
  }

  /** For dot-free payloads, `origin(key)` exists exactly when `get(key)`
      reaches a non-mapping value: provenance covers the leaves and nothing
      else. */
  lemma OriginMatchesGet(layers: seq<LayerEntry>, key: string)
    requires DotFreeLayers(layers)
    ensures Origin(FromMerge(layers), key).Some?
            <==> (var w := Resolve(Map(FromMerge(layers).data), Split(key, "."));
                  w.Some? && !w.value.Map?)
  {
    ProvenanceIsLeaves(layers);
    ResolveLeaf(MergeLayers(layers).tree, Segments(key));
  }

  /** `_merge_top_level`: a copy of `base` updated with `overrides` in
      order, as `dict.update` does. */
  function MergeTopLevel(base: Mapping, overrides: Mapping): Mapping
    decreases |overrides|
  {
    if overrides == [] then base
    else MergeTopLevel(Put(base, overrides[0].0, overrides[0].1), overrides[1..])
  }

  /** Updating a mapping with unique keys never duplicates a key. */
  lemma {:induction false} MergeTopLevelUnique(base: Mapping, overrides: Mapping)
    requires UniqueKeys(base)
    ensures UniqueKeys(MergeTopLevel(base, overrides))
    decreases |overrides|
  {
    if overrides != [] {
      PutKeepsUnique(base, overrides[0].0, overrides[0].1);
      MergeTopLevelUnique(Put(base, overrides[0].0, overrides[0].1), overrides[1..]);
    }
  }

  /** Each key of `overrides` takes its override value; every other key
      keeps its value from `base`. */
  lemma {:induction false} MergeTopLevelGet(base: Mapping, overrides: Mapping, k: string)
    requires UniqueKeys(overrides)
    ensures Get(MergeTopLevel(base, overrides), k)
            == if k in Keys(overrides) then Get(overrides, k) else Get(base, k)
    decreases |overrides|
  {
    if overrides != [] {
      KeysCons(overrides);
      UniqueKeysIndex(overrides);
      UniqueKeysIndex(overrides[1..]);
      MergeTopLevelGet(Put(base, overrides[0].0, overrides[0].1), overrides[1..], k);
      if k == overrides[0].0 {
        assert k !in Keys(overrides[1..]);
      }
    }
  }

  /** The base keys keep their order and come first; the new keys follow. */
  lemma {:induction false} MergeTopLevelKeys(base: Mapping, overrides: Mapping)
    ensures Keys(base) <= Keys(MergeTopLevel(base, overrides))
    ensures forall k :: k in Keys(MergeTopLevel(base, overrides)) <==> k in Keys(base) || k in Keys(overrides)
    decreases |overrides|
  {
    if overrides != [] {
      var first := Put(base, overrides[0].0, overrides[0].1);
      PutKeys(base, overrides[0].0, overrides[0].1);
      KeysCons(overrides);
      MergeTopLevelKeys(first, overrides[1..]);
    }
  }

  /** `cfg.with_overrides(overrides)`: a new configuration sharing the
      provenance index. */
  function WithOverrides(c: Config, overrides: Mapping): (r: Config)
    ensures r.meta == c.meta
    ensures Keys(c.data) <= Iter(r)
  {
    MergeTopLevelKeys(c.data, overrides);
    Config(MergeTopLevel(c.data, overrides), c.meta)
  }

  /** Overridden keys read the override, the rest read as before, and the
      configuration overridden keeps its own data. */
  lemma OverridesApply(c: Config, overrides: Mapping, k: string)
    requires UniqueKeys(overrides)
    ensures Item(WithOverrides(c, overrides), k)
            == if k in Keys(overrides) then Get(overrides, k) else Item(c, k)
    ensures Origin(WithOverrides(c, overrides), k) == Origin(c, k)
  {
    MergeTopLevelGet(c.data, overrides, k);
  }

  /** Overrides are shallow: below an overridden key, `get` sees only the
      override's value, never a deep merge with what was there before. */
  lemma OverridesShallow(c: Config, overrides: Mapping, k: string, rest: seq<string>)
    requires UniqueKeys(overrides) && k in Keys(overrides)
    ensures Resolve(Map(WithOverrides(c, overrides).data), [k] + rest)
            == Resolve(Get(overrides, k).value, rest)
  {
    MergeTopLevelGet(c.data, overrides, k);
    assert ([k] + rest)[0] == k && ([k] + rest)[1..] == rest;
  }

  /** `_deepcopy_mapping` / `_deepcopy_value`: mappings and lists are
      rebuilt element by element, scalars are shared. */
  function CopyValue(v: Value): Value
    decreases v
  {
    match v
    case Map(es) => Map(seq(|es|, i requires 0 <= i < |es| => (es[i].0, CopyValue(es[i].1))))
    case List(items) => List(seq(|items|, i requires 0 <= i < |items| => CopyValue(items[i])))
    case _ => v
  }

  /** The copy is equal in value to the original, all the way down. */
  lemma {:induction false} CopyIsEqual(v: Value)
    ensures CopyValue(v) == v
    decreases v
  {
    match v
    case Map(es) =>
      forall i | 0 <= i < |es| ensures CopyValue(es[i].1) == es[i].1 {
        CopyIsEqual(es[i].1);
      }
    case List(items) =>
      forall i | 0 <= i < |items| ensures CopyValue(items[i]) == items[i] {
        CopyIsEqual(items[i]);
      }
    case _ =>
  }

  /** `cfg.as_dict()`. */
  function AsDict(c: Config): (r: Mapping)
    ensures r == c.data
  {
    CopyIsEqual(Map(c.data));
    CopyValue(Map(c.data)).entries
  }

  /** Reading through the exported copy gives what the configuration gives. */
  lemma AsDictRoundTrip(c: Config, key: string, default: Value)
    ensures GetPath(Config(AsDict(c), c.meta), key, default) == GetPath(c, key, default)
    ensures Len(Config(AsDict(c), c.meta)) == Len(c)
  {
  }

  /** `EMPTY_CONFIG` has no keys, so every lookup yields the default. */
  lemma EmptyConfigGet(key: string, default: Value)
    ensures Len(EmptyConfig) == 0
    ensures GetPath(EmptyConfig, key, default) == default
    ensures Origin(EmptyConfig, key) == None
  {
  }
}
