/** The shape of the merged tree, independent of provenance. `TreeMerge` is
    a reference definition of what a payload does to a mapping: it keeps no
    provenance, never removes a key, and decides every key by `Step`. The
    lemmas show that the operational merge of `Merge` builds exactly this
    tree, and derive the tree-level promises of merge.py from it. */
module MergeTree {
  import opened Results
  import opened Tree
  import opened Merge

  /** The value a key holds after `v` is merged over the previous value
      `prev`; `top` tells whether the key is a top-level key of a payload. */
  function Step(prev: Option<Value>, v: Value, top: bool): Value
    decreases Size(v), 0
  {
    if !v.Map? then v
    else if v.entries == [] then (if IsMapping(prev) && top then prev.value else Map([]))
    else Map(TreeMerge(if IsMapping(prev) then prev.value.entries else [], v.entries, false))
  }

  function TreeMerge(base: Mapping, incoming: Mapping, top: bool): Mapping
    decreases EntriesSize(incoming), 1
  {
    if incoming == [] then base
    else
      EntriesSizeCons(incoming);
      var k := incoming[0].0;
      TreeMerge(Put(base, k, Step(Get(base, k), incoming[0].1, top)), incoming[1..], top)
  }

  /** The merged tree has the keys of the base and of the payload, and no
      others. */
  lemma {:induction false} TreeMergeHasKeys(base: Mapping, incoming: Mapping, top: bool)
    ensures forall k :: k in Keys(TreeMerge(base, incoming, top)) <==> k in Keys(base) || k in Keys(incoming)
    decreases |incoming|
  {
    if incoming != [] {
      var k := incoming[0].0;
      var next := Put(base, k, Step(Get(base, k), incoming[0].1, top));
      KeysCons(incoming);
      PutKeys(base, k, Step(Get(base, k), incoming[0].1, top));
      TreeMergeHasKeys(next, incoming[1..], top);
    }
  }

  /** `_merge_mapping` builds the reference tree, whatever the provenance,
      layer and source path, and depends on the position only through
      whether it is the top level. */
  lemma {:induction false} MappingTree(acc: Merged, incoming: Mapping, layer: string,
                                       path: Option<string>, segments: seq<string>)
    ensures MergeMapping(acc, incoming, layer, path, segments).tree
         == TreeMerge(acc.tree, incoming, segments == [])
    decreases EntriesSize(incoming), 1
  {
    if incoming != [] {
      EntriesSizeCons(incoming);
      var key, value := incoming[0].0, incoming[0].1;
      var dotted := DottedKey(segments, key);
      var next :=
        if value.Map? then MergeBranch(acc, key, value.entries, dotted, layer, path, segments)
        else SetScalar(acc, key, value, dotted, layer, path);
      assert next.tree == Put(acc.tree, key, Step(Get(acc.tree, key), value, segments == [])) by {
        if value.Map? {
          BranchTree(acc, key, value.entries, dotted, layer, path, segments);
        }
      }
      MappingTree(next, incoming[1..], layer, path, segments);
    }
  }

  /** `_merge_branch` stores `Step` of the incoming mapping under `key`; in
      particular the `pop` at merge.py:142-143 never fires, because merging
      a non-empty mapping always leaves its keys behind. */
  lemma {:induction false} BranchTree(acc: Merged, key: string, entries: Mapping, dotted: string,
                                      layer: string, path: Option<string>, segments: seq<string>)
    ensures MergeBranch(acc, key, entries, dotted, layer, path, segments).tree
         == Put(acc.tree, key, Step(Get(acc.tree, key), Map(entries), segments == []))
    decreases 1 + EntriesSize(entries), 0
  {
    var existing := Get(acc.tree, key);
    if entries == [] {
      if IsMapping(existing) && segments == [] {
        PutSame(acc.tree, key);
      }
    } else {
      var createdNew := !IsMapping(existing);
      var container := if createdNew then [] else existing.value.entries;
      var meta := if createdNew then ClearBranch(acc.meta, dotted) else acc.meta;
      MappingTree(Merged(container, meta), entries, layer, path, segments + [key]);
      TreeMergeHasKeys(container, entries, false);
      KeysCons(entries);
      assert entries[0].0 in Keys(TreeMerge(container, entries, false));
    }
  }

  /** The key `key` survives `_merge_branch`. */
  lemma BranchKeepsKey(acc: Merged, key: string, entries: Mapping, dotted: string,
                       layer: string, path: Option<string>, segments: seq<string>)
    ensures key in Keys(MergeBranch(acc, key, entries, dotted, layer, path, segments).tree)
  {
    BranchTree(acc, key, entries, dotted, layer, path, segments);
  }

  /** Pointwise reading of a merge: a key the payload does not mention keeps
      its value; a key it mentions holds `Step` of the old and new value. */
  lemma {:induction false} TreeMergeGet(base: Mapping, incoming: Mapping, top: bool)
    requires UniqueKeys(incoming)
    ensures forall k :: Get(TreeMerge(base, incoming, top), k)
                     == (if k in Keys(incoming) then Some(Step(Get(base, k), Get(incoming, k).value, top))
                         else Get(base, k))
    decreases |incoming|
  {
    if incoming != [] {
      var k0 := incoming[0].0;
      var next := Put(base, k0, Step(Get(base, k0), incoming[0].1, top));
      KeysCons(incoming);
      TreeMergeGet(next, incoming[1..], top);
    }
  }

  /** Keys of `ks` that are not in `known`, in order. */
  function Fresh(known: seq<string>, ks: seq<string>): seq<string> {
    if ks == [] then [] else (if ks[0] in known then [] else [ks[0]]) + Fresh(known, ks[1..])
  }

  lemma {:induction false} FreshMember(known: seq<string>, ks: seq<string>)
    ensures forall x :: x in Fresh(known, ks) <==> x in ks && x !in known
    decreases |ks|
  {
    if ks != [] {
      FreshMember(known, ks[1..]);
      assert ks == [ks[0]] + ks[1..];
    }
  }

  lemma {:induction false} FreshSame(known1: seq<string>, known2: seq<string>, ks: seq<string>)
    requires forall x :: x in ks ==> (x in known1 <==> x in known2)
    ensures Fresh(known1, ks) == Fresh(known2, ks)
    decreases |ks|
  {
    if ks != [] {
      assert ks[0] in ks;
      assert forall x :: x in ks[1..] ==> x in ks;
      FreshSame(known1, known2, ks[1..]);
    }
  }

  lemma {:induction false} FreshAppend(known: seq<string>, xs: seq<string>, ys: seq<string>)
    ensures Fresh(known, xs + ys) == Fresh(known, xs) + Fresh(known, ys)
    decreases |xs|
  {
    if xs != [] {
      assert (xs + ys)[1..] == xs[1..] + ys;
      FreshAppend(known, xs[1..], ys);
    } else {
      assert xs + ys == ys;
    }
  }

  lemma {:induction false} FreshNested(a: seq<string>, b: seq<string>, c: seq<string>)
    ensures Fresh(a, Fresh(b, c)) == Fresh(a + b, c)
    decreases |c|
  {
    if c != [] {
      FreshNested(a, b, c[1..]);
      var head := if c[0] in b then [] else [c[0]];
      FreshAppend(a, head, Fresh(b, c[1..]));
      if c[0] !in b {
        assert Fresh(a, head) == (if c[0] in a then [] else [c[0]]);
      }
    }
  }

  lemma FreshCovered(known: seq<string>, ks: seq<string>)
    requires forall x :: x in ks ==> x in known
    ensures Fresh(known, ks) == []
  {
    FreshMember(known, ks);
  }

  lemma FreshConsOld(known: seq<string>, k: string, rest: seq<string>)
    requires k in known
    ensures Fresh(known, [k] + rest) == Fresh(known, rest)
  {
    assert ([k] + rest)[1..] == rest;
  }

  lemma FreshConsNew(known: seq<string>, k: string, rest: seq<string>)
    requires k !in known && k !in rest
    ensures known + Fresh(known, [k] + rest) == (known + [k]) + Fresh(known + [k], rest)
  {
    FreshSame(known + [k], known, rest);
    var tail := Fresh(known, rest);
    assert ([k] + rest)[1..] == rest;
    assert Fresh(known, [k] + rest) == [k] + tail;
    assert known + ([k] + tail) == (known + [k]) + tail;
  }

  /** Keys keep their positions; keys new to the base are appended in the
      payload's order (Python's insertion-ordered `dict`). */
  lemma {:induction false} TreeMergeKeys(base: Mapping, incoming: Mapping, top: bool)
    requires UniqueKeys(incoming)
    ensures Keys(TreeMerge(base, incoming, top)) == Keys(base) + Fresh(Keys(base), Keys(incoming))
    decreases |incoming|
  {
    if incoming == [] {
      assert Keys(base) + Fresh(Keys(base), Keys(incoming)) == Keys(base);
    } else {
      var k, rest := incoming[0].0, incoming[1..];
      var next := Put(base, k, Step(Get(base, k), incoming[0].1, top));
      assert TreeMerge(base, incoming, top) == TreeMerge(next, rest, top);
      KeysCons(incoming);
      PutKeys(base, k, Step(Get(base, k), incoming[0].1, top));
      TreeMergeKeys(next, rest, top);
      if k in Keys(base) {
        FreshConsOld(Keys(base), k, Keys(rest));
      } else {
        FreshConsNew(Keys(base), k, Keys(rest));
      }
    }
  }

  /** Merging never duplicates a top-level key. */
  lemma {:induction false} TreeMergeUnique(base: Mapping, incoming: Mapping, top: bool)
    requires UniqueKeys(base)
    ensures UniqueKeys(TreeMerge(base, incoming, top))
    decreases |incoming|
  {
    if incoming != [] {
      var k := incoming[0].0;
      PutKeepsUnique(base, k, Step(Get(base, k), incoming[0].1, top));
      TreeMergeUnique(Put(base, k, Step(Get(base, k), incoming[0].1, top)), incoming[1..], top);
    }
  }

  /** Merging well-formed payloads keeps every mapping free of duplicate
      keys. */
  lemma {:induction false} TreeMergeWellFormed(base: Mapping, incoming: Mapping, top: bool)
    requires WellFormedMapping(base) && WellFormedMapping(incoming)
    ensures WellFormedMapping(TreeMerge(base, incoming, top))
    decreases EntriesSize(incoming), 1
  {
    if incoming != [] {
      EntriesSizeCons(incoming);
      WellFormedTail(incoming);
      var k := incoming[0].0;
      if Get(base, k).Some? {
        WellFormedGet(base, k);
      }
      StepWellFormed(Get(base, k), incoming[0].1, top);
      var next := Put(base, k, Step(Get(base, k), incoming[0].1, top));
      PutWellFormed(base, k, Step(Get(base, k), incoming[0].1, top));
      TreeMergeWellFormed(next, incoming[1..], top);
    }
  }

  lemma {:induction false} StepWellFormed(prev: Option<Value>, v: Value, top: bool)
    requires prev.Some? ==> WellFormed(prev.value)
    requires WellFormed(v)
    ensures WellFormed(Step(prev, v, top))
    decreases Size(v), 0
  {
    if v.Map? && v.entries != [] {
      var base := if IsMapping(prev) then prev.value.entries else [];
      TreeMergeWellFormed(base, v.entries, false);
    }
  }

  lemma {:induction false} FreshNone(ks: seq<string>)
    ensures Fresh([], ks) == ks
    decreases |ks|
  {
    if ks != [] {
      FreshNone(ks[1..]);
    }
  }

  /** Merging onto nothing reproduces the payload, order included: the
      result of a single layer is that layer's mapping. */
  lemma {:induction false} MergeOntoEmpty(m: Mapping, top: bool)
    requires WellFormedMapping(m)
    ensures TreeMerge([], m, top) == m
    decreases EntriesSize(m), 1
  {
    var r := TreeMerge([], m, top);
    TreeMergeUnique([], m, top);
    TreeMergeKeys([], m, top);
    FreshNone(Keys(m));
    TreeMergeGet([], m, top);
    forall k
      ensures Get(r, k) == Get(m, k)
    {
      if k in Keys(m) {
        SizeGet(m, k);
        WellFormedGet(m, k);
        StepFresh(Get(m, k).value, top);
      }
    }
    Extensionality(r, m);
  }

  lemma {:induction false} StepFresh(v: Value, top: bool)
    requires WellFormed(v)
    ensures Step(None, v, top) == v
    decreases Size(v), 0
  {
    if v.Map? && v.entries != [] {
      MergeOntoEmpty(v.entries, false);
    }
  }

  /** Merging the same payload a second time changes nothing. */
  lemma {:induction false} TreeMergeIdempotent(base: Mapping, m: Mapping, top: bool)
    requires WellFormedMapping(base) && WellFormedMapping(m)
    ensures TreeMerge(TreeMerge(base, m, top), m, top) == TreeMerge(base, m, top)
    decreases EntriesSize(m), 1
  {
    var r1 := TreeMerge(base, m, top);
    var r2 := TreeMerge(r1, m, top);
    TreeMergeUnique(base, m, top);
    TreeMergeUnique(r1, m, top);
    TreeMergeKeys(r1, m, top);
    TreeMergeHasKeys(base, m, top);
    FreshCovered(Keys(r1), Keys(m));
    assert Keys(r2) == Keys(r1);
    TreeMergeGet(base, m, top);
    TreeMergeGet(r1, m, top);
    forall k
      ensures Get(r2, k) == Get(r1, k)
    {
      if k in Keys(m) {
        SizeGet(m, k);
        WellFormedGet(m, k);
        if Get(base, k).Some? {
          WellFormedGet(base, k);
        }
        StepIdempotent(Get(base, k), Get(m, k).value, top);
      }
    }
    Extensionality(r2, r1);
  }

  lemma {:induction false} StepIdempotent(prev: Option<Value>, v: Value, top: bool)
    requires prev.Some? ==> WellFormed(prev.value)
    requires WellFormed(v)
    ensures Step(Some(Step(prev, v, top)), v, top) == Step(prev, v, top)
    decreases Size(v), 0
  {
    if v.Map? && v.entries != [] {
      var base := if IsMapping(prev) then prev.value.entries else [];
      TreeMergeIdempotent(base, v.entries, false);
    }
  }

  /** `actual` holds everything `expected` holds: every key of an expected
      mapping is present with a value that in turn holds the expected
      value, and any other expected value is equal. */
  predicate Contains(actual: Value, expected: Value)
    decreases expected
  {
    match expected
    case Map(es) =>
      actual.Map? &&
      forall i :: 0 <= i < |es| ==>
        Get(actual.entries, es[i].0).Some? && Contains(Get(actual.entries, es[i].0).value, es[i].1)
    case _ => actual == expected
  }

  /** The incoming value wins: whatever was there before, the merged value
      holds the incoming one, except that an empty top-level mapping may
      leave an existing mapping in place. */
  lemma {:induction false} StepContains(prev: Option<Value>, v: Value, top: bool)
    requires WellFormed(v)
    requires top ==> v != Map([])
    ensures Contains(Step(prev, v, top), v)
    decreases v
  {
    if v.Map? && v.entries != [] {
      var es := v.entries;
      var base := if IsMapping(prev) then prev.value.entries else [];
      TreeMergeGet(base, es, false);
      forall i | 0 <= i < |es|
        ensures Get(TreeMerge(base, es, false), es[i].0).Some?
        ensures Contains(Get(TreeMerge(base, es, false), es[i].0).value, es[i].1)
      {
        GetAtIndex(es, i);
        assert es[i].0 in Keys(es);
        StepContains(Get(base, es[i].0), es[i].1, false);
      }
    }
  }

  /** Every value that carries no empty mapping anywhere. */
  predicate NoEmptyMapping(v: Value) {
    match v
    case Map(es) => es != [] && forall i :: 0 <= i < |es| ==> NoEmptyMapping(es[i].1)
    case _ => true
  }

  predicate NoEmptyMappingIn(m: Mapping) {
    forall i :: 0 <= i < |m| ==> NoEmptyMapping(m[i].1)
  }

  /** No path holds a non-mapping in `x` and a mapping in `y`. */
  predicate Compatible(x: Value, y: Value) {
    match x
    case Map(bs) =>
      y.Map? ==>
        forall i, j :: 0 <= i < |bs| && 0 <= j < |y.entries| && bs[i].0 == y.entries[j].0 ==>
          Compatible(bs[i].1, y.entries[j].1)
    case _ => !y.Map?
  }

  /** One key of the associativity proof: merging `x` then `y` over `prev`
      equals merging the merge of `x` and `y` over `prev`. */
  lemma {:induction false} StepAssociative(prev: Option<Value>, x: Value, y: Value, top: bool)
    requires prev.Some? ==> WellFormed(prev.value)
    requires WellFormed(x) && WellFormed(y)
    requires NoEmptyMapping(x) && Compatible(x, y)
    ensures Step(Some(Step(prev, x, top)), y, top) == Step(prev, Step(Some(x), y, top), top)
    decreases Size(x), 1
  {
    if !y.Map? {
      assert Step(Some(x), y, top) == y;
    } else if y.entries == [] {
      StepAssociativeEmpty(prev, x, top);
    } else {
      StepAssociativeNested(prev, x, y, top);
    }
  }

  /** An empty mapping last. */
  lemma StepAssociativeEmpty(prev: Option<Value>, x: Value, top: bool)
    requires x.Map? && x.entries != []
    ensures Step(Some(Step(prev, x, top)), Map([]), top) == Step(prev, Step(Some(x), Map([]), top), top)
  {
    var base := if IsMapping(prev) then prev.value.entries else [];
    var x1 := Step(prev, x, top);
    assert x1 == Map(TreeMerge(base, x.entries, false));
    if top {
      assert Step(Some(x1), Map([]), top) == x1;
      assert Step(Some(x), Map([]), top) == x;
    } else {
      assert Step(Some(x1), Map([]), top) == Map([]);
      assert Step(Some(x), Map([]), top) == Map([]);
    }
  }

  /** Two non-empty mappings: the nested payloads associate. */
  lemma {:induction false} StepAssociativeNested(prev: Option<Value>, x: Value, y: Value, top: bool)
    requires prev.Some? ==> WellFormed(prev.value)
    requires WellFormed(x) && WellFormed(y)
    requires NoEmptyMapping(x) && Compatible(x, y)
    requires y.Map? && y.entries != []
    ensures Step(Some(Step(prev, x, top)), y, top) == Step(prev, Step(Some(x), y, top), top)
    decreases Size(x), 0
  {
    assert x.Map? && x.entries != [];
    var base := if IsMapping(prev) then prev.value.entries else [];
    var x1 := Step(prev, x, top);
    assert x1 == Map(TreeMerge(base, x.entries, false));
    var inner := TreeMerge(x.entries, y.entries, false);
    assert Step(Some(x), y, top) == Map(inner);
    TreeMergeHasKeys(x.entries, y.entries, false);
    KeysCons(y.entries);
    assert y.entries[0].0 in Keys(inner);
    assert Step(prev, Map(inner), top) == Map(TreeMerge(base, inner, false));
    assert Step(Some(x1), y, top) == Map(TreeMerge(TreeMerge(base, x.entries, false), y.entries, false));
    TreeMergeAssociative(base, x.entries, y.entries, false);
  }

  lemma FreshAssociative(ka: seq<string>, kb: seq<string>, kc: seq<string>)
    ensures (ka + Fresh(ka, kb)) + Fresh(ka + Fresh(ka, kb), kc) == ka + Fresh(ka, kb + Fresh(kb, kc))
  {
    FreshAppend(ka, kb, Fresh(kb, kc));
    FreshNested(ka, kb, kc);
    FreshMember(ka, kb);
    FreshSame(ka + Fresh(ka, kb), ka + kb, kc);
    assert (ka + Fresh(ka, kb)) + Fresh(ka + kb, kc) == ka + (Fresh(ka, kb) + Fresh(ka + kb, kc));
  }

  lemma AssociativeKeys(a: Mapping, b: Mapping, c: Mapping, top: bool)
    requires WellFormedMapping(a) && WellFormedMapping(b) && WellFormedMapping(c)
    ensures Keys(TreeMerge(TreeMerge(a, b, top), c, top)) == Keys(TreeMerge(a, TreeMerge(b, c, top), top))
  {
    var ab := TreeMerge(a, b, top);
    var bc := TreeMerge(b, c, top);
    TreeMergeWellFormed(b, c, top);
    TreeMergeKeys(a, b, top);
    TreeMergeKeys(ab, c, top);
    TreeMergeKeys(b, c, top);
    TreeMergeKeys(a, bc, top);
    FreshAssociative(Keys(a), Keys(b), Keys(c));
  }

  /** `TreeMergeGet` at one key. */
  lemma TreeMergeGetAt(base: Mapping, incoming: Mapping, top: bool, k: string)
    requires UniqueKeys(incoming)
    ensures Get(TreeMerge(base, incoming, top), k)
         == (if k in Keys(incoming) then Some(Step(Get(base, k), Get(incoming, k).value, top))
             else Get(base, k))
  {
    TreeMergeGet(base, incoming, top);
  }

  lemma {:induction false} AssociativeAt(a: Mapping, b: Mapping, c: Mapping, top: bool, k: string)
    requires WellFormedMapping(a) && WellFormedMapping(b) && WellFormedMapping(c)
    requires NoEmptyMappingIn(b) && Compatible(Map(b), Map(c))
    ensures Get(TreeMerge(TreeMerge(a, b, top), c, top), k) == Get(TreeMerge(a, TreeMerge(b, c, top), top), k)
    decreases EntriesSize(b), 3
  {
    if k in Keys(b) && k in Keys(c) {
      AssociativeAtShared(a, b, c, top, k);
    } else if k in Keys(c) {
      AssociativeAtLast(a, b, c, top, k);
    } else {
      AssociativeAtOther(a, b, c, top, k);
    }
  }

  /** A key of both `b` and `c`. */
  lemma {:induction false} AssociativeAtShared(a: Mapping, b: Mapping, c: Mapping, top: bool, k: string)
    requires WellFormedMapping(a) && WellFormedMapping(b) && WellFormedMapping(c)
    requires NoEmptyMappingIn(b) && Compatible(Map(b), Map(c))
    requires k in Keys(b) && k in Keys(c)
    ensures Get(TreeMerge(TreeMerge(a, b, top), c, top), k) == Get(TreeMerge(a, TreeMerge(b, c, top), top), k)
    decreases EntriesSize(b), 2
  {
    var ab := TreeMerge(a, b, top);
    var bc := TreeMerge(b, c, top);
    TreeMergeWellFormed(b, c, top);
    TreeMergeGetAt(a, b, top, k);
    TreeMergeGetAt(ab, c, top, k);
    TreeMergeGetAt(b, c, top, k);
    TreeMergeGetAt(a, bc, top, k);
    TreeMergeHasKeys(b, c, top);
    var pa := Get(a, k);
    if pa.Some? {
      WellFormedGet(a, k);
    }
    WellFormedGet(b, k);
    WellFormedGet(c, k);
    SizeGet(b, k);
    var i := GetIndex(b, k);
    var j := GetIndex(c, k);
    var x, y := b[i].1, c[j].1;
    assert NoEmptyMapping(x);
    assert Compatible(x, y);
    assert Get(ab, k) == Some(Step(pa, x, top));
    assert Get(bc, k) == Some(Step(Some(x), y, top));
    StepAssociative(pa, x, y, top);
  }

  /** A key of `c` only. */
  lemma AssociativeAtLast(a: Mapping, b: Mapping, c: Mapping, top: bool, k: string)
    requires WellFormedMapping(a) && WellFormedMapping(b) && WellFormedMapping(c)
    requires NoEmptyMappingIn(b) && Compatible(Map(b), Map(c))
    requires k !in Keys(b) && k in Keys(c)
    ensures Get(TreeMerge(TreeMerge(a, b, top), c, top), k) == Get(TreeMerge(a, TreeMerge(b, c, top), top), k)
  {
    var ab := TreeMerge(a, b, top);
    var bc := TreeMerge(b, c, top);
    TreeMergeWellFormed(b, c, top);
    TreeMergeGetAt(a, b, top, k);
    TreeMergeGetAt(ab, c, top, k);
    TreeMergeGetAt(b, c, top, k);
    TreeMergeGetAt(a, bc, top, k);
    TreeMergeHasKeys(b, c, top);
    WellFormedGet(c, k);
    var y := Get(c, k).value;
    StepFresh(y, top);
    assert Get(ab, k) == Get(a, k);
    assert Get(bc, k) == Some(y);
  }

  /** A key `c` does not mention. */
  lemma AssociativeAtOther(a: Mapping, b: Mapping, c: Mapping, top: bool, k: string)
    requires WellFormedMapping(a) && WellFormedMapping(b) && WellFormedMapping(c)
    requires NoEmptyMappingIn(b) && Compatible(Map(b), Map(c))
    requires k !in Keys(c)
    ensures Get(TreeMerge(TreeMerge(a, b, top), c, top), k) == Get(TreeMerge(a, TreeMerge(b, c, top), top), k)
  {
    var ab := TreeMerge(a, b, top);
    var bc := TreeMerge(b, c, top);
    TreeMergeWellFormed(b, c, top);
    TreeMergeGetAt(a, b, top, k);
    TreeMergeGetAt(ab, c, top, k);
    TreeMergeGetAt(b, c, top, k);
    TreeMergeGetAt(a, bc, top, k);
    TreeMergeHasKeys(b, c, top);
  }

  /** Merging is associative for payloads whose middle operand carries no
      empty mapping and never holds a non-mapping where the last operand
      holds a mapping. */
  lemma {:induction false} TreeMergeAssociative(a: Mapping, b: Mapping, c: Mapping, top: bool)
    requires WellFormedMapping(a) && WellFormedMapping(b) && WellFormedMapping(c)
    requires NoEmptyMappingIn(b) && Compatible(Map(b), Map(c))
    ensures TreeMerge(TreeMerge(a, b, top), c, top) == TreeMerge(a, TreeMerge(b, c, top), top)
    decreases EntriesSize(b), 4
  {
    var left := TreeMerge(TreeMerge(a, b, top), c, top);
    var right := TreeMerge(a, TreeMerge(b, c, top), top);
    TreeMergeUnique(a, b, top);
    TreeMergeUnique(TreeMerge(a, b, top), c, top);
    TreeMergeUnique(a, TreeMerge(b, c, top), top);
    AssociativeKeys(a, b, c, top);
    forall k
      ensures Get(left, k) == Get(right, k)
    {
      AssociativeAt(a, b, c, top, k);
    }
    Extensionality(left, right);
  }

  /** A nested empty mapping in the middle payload breaks associativity:
      `{a: {b: {x: 1}}}`, `{a: {b: {}}}`, `{a: {b: {y: 2}}}`. */
  lemma NotAssociativeWithEmptyMapping()
    ensures var a := [("a", Map([("b", Map([("x", Int(1))]))]))];
            var b := [("a", Map([("b", Map([]))]))];
            var c := [("a", Map([("b", Map([("y", Int(2))]))]))];
            TreeMerge(TreeMerge(a, b, true), c, true) != TreeMerge(a, TreeMerge(b, c, true), true)
  {
    EmptyExampleLeft();
    EmptyExampleMiddle();
    EmptyExampleRight();
  }

  lemma EmptyExampleLeft()
    ensures TreeMerge([("a", Map([("b", Map([("x", Int(1))]))]))], [("a", Map([("b", Map([]))]))], true)
         == [("a", Map([("b", Map([]))]))]
  {
    assert TreeMerge([("b", Map([("x", Int(1))]))], [("b", Map([]))], false) == [("b", Map([]))];
  }

  lemma EmptyExampleMiddle()
    ensures TreeMerge([("a", Map([("b", Map([]))]))], [("a", Map([("b", Map([("y", Int(2))]))]))], true)
         == [("a", Map([("b", Map([("y", Int(2))]))]))]
  {
    var y2: Mapping := [("y", Int(2))];
    assert TreeMerge([], y2, false) == y2;
    assert TreeMerge([("b", Map([]))], [("b", Map(y2))], false) == [("b", Map(y2))];
  }

  lemma EmptyExampleRight()
    ensures TreeMerge([("a", Map([("b", Map([("x", Int(1))]))]))], [("a", Map([("b", Map([("y", Int(2))]))]))], true)
         == [("a", Map([("b", Map([("x", Int(1)), ("y", Int(2))]))]))]
  {
    NestedExample();
  }

  lemma NestedExample()
    ensures TreeMerge([("b", Map([("x", Int(1))]))], [("b", Map([("y", Int(2))]))], false)
         == [("b", Map([("x", Int(1)), ("y", Int(2))]))]
  {
    FlatExample();
  }

  lemma FlatExample()
    ensures TreeMerge([("x", Int(1))], [("y", Int(2))], false) == [("x", Int(1)), ("y", Int(2))]
  {
  }

  /** A non-mapping in the middle payload where the last payload holds a
      mapping breaks associativity too, with no empty mapping anywhere:
      `{k: {x: 1}}`, `{k: 5}`, `{k: {y: 2}}`. */
  lemma NotAssociativeWithScalarThenMapping()
    ensures var a := [("k", Map([("x", Int(1))]))];
            var b := [("k", Int(5))];
            var c := [("k", Map([("y", Int(2))]))];
            TreeMerge(TreeMerge(a, b, true), c, true) != TreeMerge(a, TreeMerge(b, c, true), true)
  {
    var a := [("k", Map([("x", Int(1))]))];
    var b := [("k", Int(5))];
    var c := [("k", Map([("y", Int(2))]))];
    var y2: Mapping := [("y", Int(2))];
    assert TreeMerge([], y2, false) == y2;
    assert TreeMerge(a, b, true) == b;
    assert TreeMerge(b, c, true) == c;
    FlatExample();
    assert TreeMerge(a, c, true) == [("k", Map([("x", Int(1)), ("y", Int(2))]))];
  }

  /** The tree `merge_layers` returns, without provenance. */
  function LayersTree(layers: seq<LayerEntry>): Mapping {
    if layers == [] then []
    else TreeMerge(LayersTree(layers[..|layers| - 1]), layers[|layers| - 1].data, true)
  }

  lemma {:induction false} MergeLayersTree(layers: seq<LayerEntry>)
    ensures MergeLayers(layers).tree == LayersTree(layers)
    decreases |layers|
  {
    if layers != [] {
      var init, last := layers[..|layers| - 1], layers[|layers| - 1];
      MergeLayersTree(init);
      MappingTree(MergeLayers(init), last.data, last.name, last.path, []);
    }
  }

  /** A single layer comes back unchanged. */
  lemma SingleLayer(e: LayerEntry)
    requires WellFormedMapping(e.data)
    ensures MergeLayers([e]).tree == e.data
  {
    MergeLayersTree([e]);
    assert [e][..0] == [];
    MergeOntoEmpty(e.data, true);
  }

  /** How one layer changes the value of a top-level key. */
  lemma MergeLayerGet(acc: Merged, e: LayerEntry, k: string)
    requires UniqueKeys(e.data)
    ensures Get(MergeLayer(acc, e).tree, k)
         == (if k in Keys(e.data) then Some(Step(Get(acc.tree, k), Get(e.data, k).value, true))
             else Get(acc.tree, k))
  {
    MappingTree(acc, e.data, e.name, e.path, []);
    TreeMergeGetAt(acc.tree, e.data, true, k);
  }

  /** Last layer wins: every key of the last payload whose value is not an
      empty mapping is present in the result, holding that value
      recursively. */
  lemma LastLayerWins(layers: seq<LayerEntry>)
    requires layers != [] && WellFormedMapping(layers[|layers| - 1].data)
    ensures var data, tree := layers[|layers| - 1].data, MergeLayers(layers).tree;
            forall i :: 0 <= i < |data| && data[i].1 != Map([]) ==>
              Get(tree, data[i].0).Some? && Contains(Get(tree, data[i].0).value, data[i].1)
  {
    var init, last := layers[..|layers| - 1], layers[|layers| - 1];
    var data, tree := last.data, MergeLayers(layers).tree;
    assert layers[..|layers| - 1] == init;
    forall i | 0 <= i < |data| && data[i].1 != Map([])
      ensures Get(tree, data[i].0).Some? && Contains(Get(tree, data[i].0).value, data[i].1)
    {
      var k := data[i].0;
      GetAtIndex(data, i);
      assert k in Keys(data);
      MergeLayerGet(MergeLayers(init), last, k);
      StepContains(Get(MergeLayers(init).tree, k), data[i].1, true);
    }
  }

  /** Two layers merge as the second merged onto the first. */
  lemma TwoLayers(x: LayerEntry, y: LayerEntry)
    requires WellFormedMapping(x.data)
    ensures MergeLayers([x, y]).tree == TreeMerge(x.data, y.data, true)
  {
    MergeLayersTree([x, y]);
    MergeLayersTree([x]);
    assert [x, y][..1] == [x];
    assert LayersTree([x, y]) == TreeMerge(LayersTree([x]), y.data, true);
    SingleLayer(x);
  }

  lemma ThreeLayers(x: LayerEntry, y: LayerEntry, z: LayerEntry)
    requires WellFormedMapping(x.data)
    ensures MergeLayers([x, y, z]).tree == TreeMerge(TreeMerge(x.data, y.data, true), z.data, true)
  {
    MergeLayersTree([x, y, z]);
    MergeLayersTree([x, y]);
    assert [x, y, z][..2] == [x, y];
    TwoLayers(x, y);
  }

  /** The associativity check of the merge tests: merging `a`, `b`, `c`
      and then `c` once more gives the same tree as merging `a` with the
      merge of `b` and `c`, when `b` carries no empty mapping and never
      holds a non-mapping where `c` holds a mapping. */
  lemma MergeLayersAssociative(a: LayerEntry, b: LayerEntry, c: LayerEntry, leftName: string, rightName: string)
    requires WellFormedMapping(a.data) && WellFormedMapping(b.data) && WellFormedMapping(c.data)
    requires NoEmptyMappingIn(b.data) && Compatible(Map(b.data), Map(c.data))
    ensures var left := MergeLayers([a, b, c]).tree;
            var right := MergeLayers([b, c]).tree;
            MergeLayers([LayerEntry(leftName, left, None), c]).tree
              == MergeLayers([a, LayerEntry(rightName, right, None)]).tree
  {
    var ab := TreeMerge(a.data, b.data, true);
    var abc := TreeMerge(ab, c.data, true);
    var bc := TreeMerge(b.data, c.data, true);
    ThreeLayers(a, b, c);
    TwoLayers(b, c);
    TreeMergeWellFormed(a.data, b.data, true);
    TreeMergeWellFormed(ab, c.data, true);
    TwoLayers(LayerEntry(leftName, abc, None), c);
    TwoLayers(a, LayerEntry(rightName, bc, None));
    TreeMergeIdempotent(ab, c.data, true);
    TreeMergeAssociative(a.data, b.data, c.data, true);
  }
}
