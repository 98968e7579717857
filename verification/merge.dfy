/** The layer merge engine (application/merge.py): folds an ordered list of
    layer payloads into one nested mapping and records, for every dotted key
    that received a non-mapping value, which layer and file set it last.

    Python mutates two dictionaries in place; here the pair travels through
    the fold as an immutable `Merged` value. Payloads are values, so the
    deep copy taken on entry (merge.py:89) is the identity and no payload
    can be changed by merging it. */
module Merge {
  import opened Results
  import opened Text
  import opened Tree

  /** Provenance record `{layer, path, key}`. */
  datatype SourceInfo = SourceInfo(layer: string, path: Option<string>, key: string)

  /** Dotted key -> provenance record. Python keeps this dictionary in
      insertion order; only its contents are modelled. */
  type Provenance = map<string, SourceInfo>

  /** One `(layer_name, mapping, source_path)` payload. */
  datatype LayerEntry = LayerEntry(name: string, data: Mapping, path: Option<string>)

  /** The accumulator: merged tree and provenance index. */
  datatype Merged = Merged(tree: Mapping, meta: Provenance)

  const Empty := Merged([], map[])

  /** `_dotted_key`: the bare key at the top level, the path segments joined
      with "." below it. */
  function DottedKey(segments: seq<string>, key: string): (r: string)
    ensures r == Join(segments + [key], ".")
    ensures segments != [] ==> r == Join(segments, ".") + "." + key
  {
    if segments == [] then
      assert [] + [key] == [key];
      key
    else
      JoinSnoc(segments, key, ".");
      Join(segments + [key], ".")
  }

  /** `x` is the dotted key `prefix` itself or lies below it. */
  predicate InBranch(x: string, prefix: string) {
    x == prefix || StartsWith(x, prefix + ".")
  }

  /** `_clear_branch`: drops the provenance of `prefix` and of every key
      below it; every other entry is kept unchanged. */
  function ClearBranch(meta: Provenance, prefix: string): (r: Provenance)
    ensures forall x :: x in r <==> x in meta && !InBranch(x, prefix)
    ensures forall x :: x in r ==> r[x] == meta[x]
  {
    map x | x in meta && !InBranch(x, prefix) :: meta[x]
  }

  /** `_set_scalar`: stores a non-mapping value and makes `dotted` the only
      provenance entry of its branch. */
  function SetScalar(acc: Merged, key: string, value: Value, dotted: string,
                     layer: string, path: Option<string>): (r: Merged)
    ensures Get(r.tree, key) == Some(value)
    ensures forall k :: k != key ==> Get(r.tree, k) == Get(acc.tree, k)
    ensures dotted in r.meta && r.meta[dotted] == SourceInfo(layer, path, dotted)
    ensures forall x :: x in r.meta && InBranch(x, dotted) ==> x == dotted
    ensures forall x :: !InBranch(x, dotted) ==> (x in r.meta <==> x in acc.meta)
    ensures forall x :: x in acc.meta && !InBranch(x, dotted) ==> r.meta[x] == acc.meta[x]
  {
    var meta := ClearBranch(acc.meta, dotted);
    Merged(Put(acc.tree, key, value), meta[dotted := SourceInfo(layer, path, dotted)])
  }

  predicate IsMapping(v: Option<Value>) {
    v.Some? && v.value.Map?
  }

  /** `_merge_mapping`: merges the entries of `incoming`, in order, into the
      accumulator at the path `segments`. */
  function MergeMapping(acc: Merged, incoming: Mapping, layer: string,
                        path: Option<string>, segments: seq<string>): Merged
    decreases EntriesSize(incoming), 1
  {
    if incoming == [] then acc
    else
      EntriesSizeCons(incoming);
      var key := incoming[0].0;
      var value := incoming[0].1;
      var dotted := DottedKey(segments, key);
      var next :=
        if value.Map? then MergeBranch(acc, key, value.entries, dotted, layer, path, segments)
        else SetScalar(acc, key, value, dotted, layer, path);
      MergeMapping(next, incoming[1..], layer, path, segments)
  }

  /** `_merge_branch`: merges the mapping `entries` into the value under
      `key`.
      - An empty mapping is ignored at the top level when a mapping is
        already there; otherwise it resets the branch to `{}` and drops its
        provenance.
      - A non-empty mapping merges into an existing mapping, or replaces a
        non-mapping (dropping that branch's provenance first). */
  function MergeBranch(acc: Merged, key: string, entries: Mapping, dotted: string,
                       layer: string, path: Option<string>, segments: seq<string>): Merged
    decreases 1 + EntriesSize(entries), 0
  {
    var existing := Get(acc.tree, key);
    if entries == [] then
      if IsMapping(existing) && segments == [] then acc
      else Merged(Put(acc.tree, key, Map([])), ClearBranch(acc.meta, dotted))
    else
      var createdNew := !IsMapping(existing);
      var container := if createdNew then [] else existing.value.entries;
      var meta := if createdNew then ClearBranch(acc.meta, dotted) else acc.meta;
      var inner := MergeMapping(Merged(container, meta), entries, layer, path, segments + [key]);
      var tree := Put(acc.tree, key, Map(inner.tree));
      if createdNew && inner.tree == [] then Merged(Remove(tree, key), inner.meta)
      else Merged(tree, inner.meta)
  }

  /** `_merge_layer`: merges one payload at the top level. */
  function MergeLayer(acc: Merged, entry: LayerEntry): Merged {
    MergeMapping(acc, entry.data, entry.name, entry.path, [])
  }

  /** `merge_layers`: folds the payloads from lowest to highest precedence. */
  function MergeLayers(layers: seq<LayerEntry>): Merged {
    if layers == [] then Empty
    else MergeLayer(MergeLayers(layers[..|layers| - 1]), layers[|layers| - 1])
  }
}
