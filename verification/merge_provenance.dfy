/** The provenance index built by the layer merge (application/merge.py).
    When no key of any payload contains ".", a dotted key is the "."-join of
    a path of segments and splits back into it; under that assumption the
    lemmas here show that
    - the provenance keys are exactly the dotted paths of the non-mapping
      leaves of the merged tree (lists are leaves);
    - every leaf of the last payload carries that payload's layer, path and
      dotted key;
    - a payload leaves alone every provenance entry outside the branches it
      names, so the provenance of sibling keys from earlier layers survives;
    - replacing a non-mapping by a mapping leaves, inside that branch, only
      entries written by the replacing payload. */
module MergeProvenance {
  import opened Results
  import opened Text
  import opened Tree
  import opened Merge
  import opened MergeTree

  /** The segments of a dotted key: `x.split(".")`. */
  function Segments(x: string): (r: seq<string>)
    ensures |r| >= 1
  {
    Split(x, ".")
  }

  /** Joining the segments of a dotted key gives the key back. */
  lemma JoinSegments(x: string)
    ensures Join(Segments(x), ".") == x
  {
    JoinSplit(x, '.');
  }

  predicate DotFreeParts(p: seq<string>) {
    forall i :: 0 <= i < |p| ==> '.' !in p[i]
  }

  /** No key at any depth contains ".". */
  predicate DotFreeValue(v: Value) {
    match v
    case Map(es) => forall i :: 0 <= i < |es| ==> '.' !in es[i].0 && DotFreeValue(es[i].1)
    case _ => true
  }

  predicate DotFreeMapping(m: Mapping) {
    DotFreeValue(Map(m))
  }

  /** Joining dot-free segments and splitting again gives them back. */
  lemma SegmentsJoin(p: seq<string>)
    requires p != [] && DotFreeParts(p)
    ensures Segments(Join(p, ".")) == p
  {
    SplitJoin(p, '.');
  }

  /** `p` starts with `prefix`. */
  predicate Extends(p: seq<string>, prefix: seq<string>) {
    |prefix| <= |p| && p[..|prefix|] == prefix
  }

  /** The branch test of `_clear_branch`, read on segments: `x` lies in the
      branch of the dotted path `p` exactly when the segments of `x` start
      with `p`. */
  lemma InBranchSegments(x: string, p: seq<string>)
    requires p != [] && DotFreeParts(p)
    ensures InBranch(x, Join(p, ".")) <==> Extends(Segments(x), p)
  {
    var s, jp := Segments(x), Join(p, ".");
    JoinSegments(x);
    if x == jp {
      SegmentsJoin(p);
    } else if StartsWith(x, jp + ".") {
      var rest := x[|jp| + 1..];
      assert x == jp + "." + rest;
      SplitConcat(p, rest, '.');
      assert s[..|p|] == p;
    }
    if Extends(s, p) && |p| < |s| {
      var tail := s[|p|..];
      assert s == p + tail;
      JoinConcat(p, tail, ".");
      assert x == jp + "." + Join(tail, ".");
    } else if Extends(s, p) {
      assert s == p;
    }
  }

  /** `x` lies strictly below the path `segs`. */
  predicate Inside(x: string, segs: seq<string>) {
    var s := Segments(x);
    |segs| < |s| && s[..|segs|] == segs
  }

  /** `x` lies below `segs`, in the branch of one of `keys`. */
  predicate Touched(x: string, segs: seq<string>, keys: seq<string>) {
    Inside(x, segs) && Segments(x)[|segs|] in keys
  }

  lemma TouchedOne(x: string, segs: seq<string>, key: string)
    ensures Touched(x, segs, [key]) <==> Extends(Segments(x), segs + [key])
  {
    var s := Segments(x);
    if Extends(s, segs + [key]) {
      assert s[..|segs|] == (segs + [key])[..|segs|];
    }
    if Touched(x, segs, [key]) {
      assert s[..|segs| + 1] == s[..|segs|] + [s[|segs|]];
    }
  }

  /** Entries outside the branches of `keys` below `segs` are kept: none
      appears, none disappears, none changes. */
  ghost predicate Frame(prev: Provenance, next: Provenance, segs: seq<string>, keys: seq<string>) {
    forall x {:trigger Touched(x, segs, keys)} ::
      !Touched(x, segs, keys) ==> (x in next <==> x in prev) && (x in next ==> next[x] == prev[x])
  }

  lemma FrameCompose(a: Provenance, b: Provenance, c: Provenance, segs: seq<string>,
                     k1: seq<string>, k2: seq<string>)
    requires Frame(a, b, segs, k1) && Frame(b, c, segs, k2)
    ensures Frame(a, c, segs, k1 + k2)
  {
    forall x | !Touched(x, segs, k1 + k2)
      ensures (x in c <==> x in a) && (x in c ==> c[x] == a[x])
    {
      assert !Touched(x, segs, k1) && !Touched(x, segs, k2);
    }
  }

  lemma FrameTrans(a: Provenance, b: Provenance, c: Provenance, segs: seq<string>, keys: seq<string>)
    requires Frame(a, b, segs, keys) && Frame(b, c, segs, keys)
    ensures Frame(a, c, segs, keys)
  {
  }

  /** A frame one level deeper is a frame at `segs` for the key it sits
      under. */
  lemma FrameWiden(a: Provenance, b: Provenance, segs: seq<string>, key: string, keys: seq<string>)
    requires Frame(a, b, segs + [key], keys)
    ensures Frame(a, b, segs, [key])
  {
    forall x | !Touched(x, segs, [key])
      ensures !Touched(x, segs + [key], keys)
    {
      TouchedOne(x, segs, key);
    }
  }

  /** `_clear_branch` of a dotted path keeps the frame of its last key. */
  lemma ClearBranchFrame(meta: Provenance, segs: seq<string>, key: string)
    requires DotFreeParts(segs + [key])
    ensures Frame(meta, ClearBranch(meta, DottedKey(segs, key)), segs, [key])
  {
    forall x | !Touched(x, segs, [key])
      ensures !InBranch(x, DottedKey(segs, key))
    {
      TouchedOne(x, segs, key);
      InBranchSegments(x, segs + [key]);
    }
  }

  lemma DotFreeTail(m: Mapping)
    requires m != [] && DotFreeMapping(m)
    ensures '.' !in m[0].0 && DotFreeValue(m[0].1) && DotFreeMapping(m[1..])
  {
    assert forall i :: 0 <= i < |m[1..]| ==> m[1..][i] == m[i + 1];
  }

  lemma DotFreeExtend(segs: seq<string>, key: string)
    requires DotFreeParts(segs) && '.' !in key
    ensures DotFreeParts(segs + [key])
  {
    assert forall i :: 0 <= i < |segs| ==> (segs + [key])[i] == segs[i];
  }

  lemma SetScalarFrame(acc: Merged, key: string, value: Value, segs: seq<string>,
                       layer: string, path: Option<string>)
    requires DotFreeParts(segs) && '.' !in key
    ensures Frame(acc.meta, SetScalar(acc, key, value, DottedKey(segs, key), layer, path).meta, segs, [key])
  {
    DotFreeExtend(segs, key);
    forall x | !Touched(x, segs, [key])
      ensures !InBranch(x, DottedKey(segs, key))
    {
      TouchedOne(x, segs, key);
      InBranchSegments(x, segs + [key]);
    }
  }

  /** `_merge_mapping` at `segs` changes provenance only inside the
      branches of the keys it merges. */
  lemma {:induction false} MappingFrame(acc: Merged, incoming: Mapping, layer: string,
                                        path: Option<string>, segs: seq<string>)
    requires DotFreeParts(segs) && DotFreeMapping(incoming)
    ensures Frame(acc.meta, MergeMapping(acc, incoming, layer, path, segs).meta, segs, Keys(incoming))
    decreases EntriesSize(incoming), 1
  {
    if incoming != [] {
      EntriesSizeCons(incoming);
      KeysCons(incoming);
      DotFreeTail(incoming);
      var key, value := incoming[0].0, incoming[0].1;
      var dotted := DottedKey(segs, key);
      var next :=
        if value.Map? then MergeBranch(acc, key, value.entries, dotted, layer, path, segs)
        else SetScalar(acc, key, value, dotted, layer, path);
      if value.Map? {
        BranchFrame(acc, key, value.entries, layer, path, segs);
      } else {
        SetScalarFrame(acc, key, value, segs, layer, path);
      }
      MappingFrame(next, incoming[1..], layer, path, segs);
      FrameCompose(acc.meta, next.meta, MergeMapping(next, incoming[1..], layer, path, segs).meta,
                   segs, [key], Keys(incoming[1..]));
    }
  }

  /** `_merge_branch` changes provenance only inside the branch of `key`. */
  lemma {:induction false} BranchFrame(acc: Merged, key: string, entries: Mapping,
                                       layer: string, path: Option<string>, segs: seq<string>)
    requires DotFreeParts(segs) && '.' !in key && DotFreeMapping(entries)
    ensures Frame(acc.meta, MergeBranch(acc, key, entries, DottedKey(segs, key), layer, path, segs).meta,
                  segs, [key])
    decreases 1 + EntriesSize(entries), 0
  {
    var dotted := DottedKey(segs, key);
    DotFreeExtend(segs, key);
    ClearBranchFrame(acc.meta, segs, key);
    if entries != [] {
      var existing := Get(acc.tree, key);
      var createdNew := !IsMapping(existing);
      var container := if createdNew then [] else existing.value.entries;
      var meta := if createdNew then ClearBranch(acc.meta, dotted) else acc.meta;
      var inner := MergeMapping(Merged(container, meta), entries, layer, path, segs + [key]);
      MappingFrame(Merged(container, meta), entries, layer, path, segs + [key]);
      FrameWiden(meta, inner.meta, segs, key, Keys(entries));
      FrameTrans(acc.meta, meta, inner.meta, segs, [key]);
    }
  }

  /** Every entry is either kept from before or written by this layer for
      its own dotted key. */
  predicate StampedBy(prev: Provenance, next: Provenance, layer: string, path: Option<string>) {
    forall x :: x in next ==> next[x] == SourceInfo(layer, path, x) || (x in prev && next[x] == prev[x])
  }

  lemma {:induction false} MappingStamps(acc: Merged, incoming: Mapping, layer: string,
                                         path: Option<string>, segs: seq<string>)
    ensures StampedBy(acc.meta, MergeMapping(acc, incoming, layer, path, segs).meta, layer, path)
    decreases EntriesSize(incoming), 1
  {
    if incoming != [] {
      EntriesSizeCons(incoming);
      var key, value := incoming[0].0, incoming[0].1;
      var dotted := DottedKey(segs, key);
      var next :=
        if value.Map? then MergeBranch(acc, key, value.entries, dotted, layer, path, segs)
        else SetScalar(acc, key, value, dotted, layer, path);
      if value.Map? {
        BranchStamps(acc, key, value.entries, dotted, layer, path, segs);
      }
      MappingStamps(next, incoming[1..], layer, path, segs);
    }
  }

  lemma {:induction false} BranchStamps(acc: Merged, key: string, entries: Mapping, dotted: string,
                                        layer: string, path: Option<string>, segs: seq<string>)
    ensures StampedBy(acc.meta, MergeBranch(acc, key, entries, dotted, layer, path, segs).meta, layer, path)
    decreases 1 + EntriesSize(entries), 0
  {
    if entries != [] {
      var existing := Get(acc.tree, key);
      var createdNew := !IsMapping(existing);
      var container := if createdNew then [] else existing.value.entries;
      var meta := if createdNew then ClearBranch(acc.meta, dotted) else acc.meta;
      MappingStamps(Merged(container, meta), entries, layer, path, segs + [key]);
    }
  }

  lemma DotFreeGet(m: Mapping, k: string)
    requires DotFreeMapping(m) && Get(m, k).Some?
    ensures '.' !in k && DotFreeValue(Get(m, k).value)
  {
    var i := GetIndex(m, k);
  }

  lemma {:induction false} PutDotFree(m: Mapping, k: string, v: Value)
    requires DotFreeMapping(m) && '.' !in k && DotFreeValue(v)
    ensures DotFreeMapping(Put(m, k, v))
    decreases |m|
  {
    if m != [] {
      DotFreeTail(m);
      var r := Put(m, k, v);
      var rest := if m[0].0 == k then m[1..] else Put(m[1..], k, v);
      assert r == [r[0]] + rest;
      if m[0].0 != k {
        PutDotFree(m[1..], k, v);
      }
      forall i | 0 <= i < |r|
        ensures '.' !in r[i].0 && DotFreeValue(r[i].1)
      {
        if i > 0 {
          assert r[i] == rest[i - 1];
        }
      }
    }
  }

  /** Merging dot-free mappings creates no key with a ".". */
  lemma {:induction false} TreeMergeDotFree(base: Mapping, incoming: Mapping, top: bool)
    requires DotFreeMapping(base) && DotFreeMapping(incoming)
    ensures DotFreeMapping(TreeMerge(base, incoming, top))
    decreases EntriesSize(incoming), 1
  {
    if incoming != [] {
      EntriesSizeCons(incoming);
      DotFreeTail(incoming);
      var k := incoming[0].0;
      if Get(base, k).Some? {
        DotFreeGet(base, k);
      }
      StepDotFree(Get(base, k), incoming[0].1, top);
      PutDotFree(base, k, Step(Get(base, k), incoming[0].1, top));
      TreeMergeDotFree(Put(base, k, Step(Get(base, k), incoming[0].1, top)), incoming[1..], top);
    }
  }

  lemma {:induction false} StepDotFree(prev: Option<Value>, v: Value, top: bool)
    requires prev.Some? ==> DotFreeValue(prev.value)
    requires DotFreeValue(v)
    ensures DotFreeValue(Step(prev, v, top))
    decreases Size(v), 0
  {
    if v.Map? && v.entries != [] {
      var base := if IsMapping(prev) then prev.value.entries else [];
      TreeMergeDotFree(base, v.entries, false);
    }
  }

  /** `p` is the path of a non-mapping leaf of `m`. */
  predicate IsLeafPath(m: Mapping, p: seq<string>)
    decreases |p|
  {
    |p| >= 1 && Get(m, p[0]).Some? &&
    var v := Get(m, p[0]).value;
    if |p| == 1 then !v.Map? else v.Map? && IsLeafPath(v.entries, p[1..])
  }

  lemma {:induction false} LeafPathDotFree(m: Mapping, p: seq<string>)
    requires DotFreeMapping(m) && IsLeafPath(m, p)
    ensures DotFreeParts(p)
    decreases |p|
  {
    DotFreeGet(m, p[0]);
    if |p| > 1 {
      LeafPathDotFree(Get(m, p[0]).value.entries, p[1..]);
      assert forall i :: 0 < i < |p| ==> p[i] == p[1..][i - 1];
    }
  }

  /** The provenance index agrees with the leaves of `container`, the
      mapping found at the path `segs`: an entry strictly below `segs` names
      a leaf of `container`, and every leaf of `container` has an entry. */
  ghost predicate Rel(segs: seq<string>, container: Mapping, meta: Provenance) {
    (forall x {:trigger Inside(x, segs), x in meta} :: x in meta && Inside(x, segs) ==> IsLeafPath(container, Segments(x)[|segs|..]))
    && (forall q :: IsLeafPath(container, q) ==> Join(segs + q, ".") in meta)
  }

  /** Writing a non-mapping keeps the index in step with the leaves. */
  lemma SetScalarRel(acc: Merged, key: string, value: Value, segs: seq<string>,
                     layer: string, path: Option<string>)
    requires !value.Map? && DotFreeParts(segs) && '.' !in key && DotFreeMapping(acc.tree)
    requires Rel(segs, acc.tree, acc.meta)
    ensures Rel(segs, SetScalar(acc, key, value, DottedKey(segs, key), layer, path).tree,
                SetScalar(acc, key, value, DottedKey(segs, key), layer, path).meta)
  {
    SetScalarEntries(acc, key, value, segs, layer, path);
    SetScalarLeaves(acc, key, value, segs, layer, path);
  }

  lemma SetScalarEntries(acc: Merged, key: string, value: Value, segs: seq<string>,
                         layer: string, path: Option<string>)
    requires !value.Map? && DotFreeParts(segs) && '.' !in key
    requires forall x :: x in acc.meta && Inside(x, segs) ==> IsLeafPath(acc.tree, Segments(x)[|segs|..])
    ensures var r := SetScalar(acc, key, value, DottedKey(segs, key), layer, path);
            forall x :: x in r.meta && Inside(x, segs) ==> IsLeafPath(r.tree, Segments(x)[|segs|..])
  {
    var dotted := DottedKey(segs, key);
    var r := SetScalar(acc, key, value, dotted, layer, path);
    DotFreeExtend(segs, key);
    forall x | x in r.meta && Inside(x, segs)
      ensures IsLeafPath(r.tree, Segments(x)[|segs|..])
    {
      var t := Segments(x)[|segs|..];
      InBranchSegments(x, segs + [key]);
      TouchedOne(x, segs, key);
      if x == dotted {
        SegmentsJoin(segs + [key]);
        assert t == [key];
      } else {
        assert x in acc.meta;
        assert t[0] != key;
        LeafPathSameHead(acc.tree, r.tree, t);
      }
    }
  }

  lemma SetScalarLeaves(acc: Merged, key: string, value: Value, segs: seq<string>,
                        layer: string, path: Option<string>)
    requires !value.Map? && DotFreeParts(segs) && '.' !in key && DotFreeMapping(acc.tree)
    requires forall q :: IsLeafPath(acc.tree, q) ==> Join(segs + q, ".") in acc.meta
    ensures var r := SetScalar(acc, key, value, DottedKey(segs, key), layer, path);
            forall q :: IsLeafPath(r.tree, q) ==> Join(segs + q, ".") in r.meta
  {
    var r := SetScalar(acc, key, value, DottedKey(segs, key), layer, path);
    SetScalarFrame(acc, key, value, segs, layer, path);
    forall q | IsLeafPath(r.tree, q)
      ensures Join(segs + q, ".") in r.meta
    {
      if q[0] == key {
        assert q == [key];
      } else {
        LeafPathSameHead(acc.tree, r.tree, q);
        LeafPathOutside(acc.meta, r.meta, acc.tree, segs, key, q);
      }
    }
  }

  lemma LeafPathSameHead(a: Mapping, b: Mapping, p: seq<string>)
    requires p != [] && Get(a, p[0]) == Get(b, p[0])
    ensures IsLeafPath(a, p) <==> IsLeafPath(b, p)
  {
  }

  /** A leaf of `tree` outside the branch of `key` keeps its entry through
      any change that keeps the frame of `key`. */
  lemma LeafPathOutside(prev: Provenance, next: Provenance, tree: Mapping, segs: seq<string>,
                        key: string, q: seq<string>)
    requires DotFreeParts(segs) && DotFreeMapping(tree)
    requires Frame(prev, next, segs, [key])
    requires IsLeafPath(tree, q) && q[0] != key && Join(segs + q, ".") in prev
    ensures Join(segs + q, ".") in next
  {
    var x := Join(segs + q, ".");
    LeafPathDotFree(tree, q);
    assert DotFreeParts(segs + q) by {
      assert forall i :: 0 <= i < |segs + q| ==> (segs + q)[i] == if i < |segs| then segs[i] else q[i - |segs|];
    }
    SegmentsJoin(segs + q);
    assert Segments(x)[|segs|] == q[0];
    assert !Touched(x, segs, [key]);
  }

  /** The dotted key of `segs + [key]` is the only key whose segments are
      exactly those. */
  lemma OneBelow(x: string, segs: seq<string>, key: string)
    requires DotFreeParts(segs) && '.' !in key
    ensures Inside(x, segs) && |Segments(x)| == |segs| + 1 && Segments(x)[|segs|] == key
            ==> x == DottedKey(segs, key)
  {
    var s := Segments(x);
    JoinSegments(x);
    if Inside(x, segs) && |s| == |segs| + 1 && s[|segs|] == key {
      assert s == s[..|segs|] + [s[|segs|]];
    }
  }

  /** Resetting `key` to an empty mapping and clearing its branch keeps the
      index in step with the leaves. */
  lemma ResetRel(acc: Merged, key: string, segs: seq<string>)
    requires DotFreeParts(segs) && '.' !in key && DotFreeMapping(acc.tree)
    requires Rel(segs, acc.tree, acc.meta)
    ensures Rel(segs, Put(acc.tree, key, Map([])), ClearBranch(acc.meta, DottedKey(segs, key)))
  {
    ResetEntries(acc, key, segs);
    ResetLeaves(acc, key, segs);
  }

  lemma ResetEntries(acc: Merged, key: string, segs: seq<string>)
    requires DotFreeParts(segs) && '.' !in key
    requires forall x :: x in acc.meta && Inside(x, segs) ==> IsLeafPath(acc.tree, Segments(x)[|segs|..])
    ensures var tree, meta := Put(acc.tree, key, Map([])), ClearBranch(acc.meta, DottedKey(segs, key));
            forall x :: x in meta && Inside(x, segs) ==> IsLeafPath(tree, Segments(x)[|segs|..])
  {
    var tree, meta := Put(acc.tree, key, Map([])), ClearBranch(acc.meta, DottedKey(segs, key));
    DotFreeExtend(segs, key);
    forall x | x in meta && Inside(x, segs)
      ensures IsLeafPath(tree, Segments(x)[|segs|..])
    {
      InBranchSegments(x, segs + [key]);
      TouchedOne(x, segs, key);
      LeafPathSameHead(acc.tree, tree, Segments(x)[|segs|..]);
    }
  }

  /** An empty mapping has no leaf below it. */
  lemma NoLeafBelowEmpty(m: Mapping, q: seq<string>)
    requires IsLeafPath(m, q)
    ensures Get(m, q[0]) != Some(Map([]))
  {
    if |q| > 1 {
      assert !IsLeafPath([], q[1..]);
    }
  }

  lemma ResetLeaves(acc: Merged, key: string, segs: seq<string>)
    requires DotFreeParts(segs) && '.' !in key && DotFreeMapping(acc.tree)
    requires forall q :: IsLeafPath(acc.tree, q) ==> Join(segs + q, ".") in acc.meta
    ensures var tree, meta := Put(acc.tree, key, Map([])), ClearBranch(acc.meta, DottedKey(segs, key));
            forall q :: IsLeafPath(tree, q) ==> Join(segs + q, ".") in meta
  {
    var tree, meta := Put(acc.tree, key, Map([])), ClearBranch(acc.meta, DottedKey(segs, key));
    DotFreeExtend(segs, key);
    ClearBranchFrame(acc.meta, segs, key);
    forall q | IsLeafPath(tree, q)
      ensures Join(segs + q, ".") in meta
    {
      NoLeafBelowEmpty(tree, q);
      LeafPathSameHead(acc.tree, tree, q);
      LeafPathOutside(acc.meta, meta, acc.tree, segs, key, q);
    }
  }

  /** Entering the branch of `key`: the container `_merge_branch` merges
      into is in step with the (possibly cleared) index one level down. */
  lemma BranchEnter(acc: Merged, key: string, segs: seq<string>)
    requires DotFreeParts(segs) && '.' !in key && DotFreeMapping(acc.tree)
    requires Rel(segs, acc.tree, acc.meta)
    ensures var existing := Get(acc.tree, key);
            var createdNew := !IsMapping(existing);
            var container := if createdNew then [] else existing.value.entries;
            var meta := if createdNew then ClearBranch(acc.meta, DottedKey(segs, key)) else acc.meta;
            Rel(segs + [key], container, meta) && DotFreeMapping(container)
  {
    if !IsMapping(Get(acc.tree, key)) {
      EnterNew(acc.meta, key, segs);
    } else {
      EnterExisting(acc, key, segs);
    }
  }

  /** Entering an existing mapping: its entries are in step with the index
      one level down. */
  lemma EnterExisting(acc: Merged, key: string, segs: seq<string>)
    requires DotFreeMapping(acc.tree) && IsMapping(Get(acc.tree, key))
    requires Rel(segs, acc.tree, acc.meta)
    ensures Rel(segs + [key], Get(acc.tree, key).value.entries, acc.meta)
    ensures DotFreeMapping(Get(acc.tree, key).value.entries)
  {
    DotFreeGet(acc.tree, key);
    EnterEntries(acc, key, segs);
    EnterLeaves(acc, key, segs);
  }

  lemma EnterNew(meta: Provenance, key: string, segs: seq<string>)
    requires DotFreeParts(segs) && '.' !in key
    ensures Rel(segs + [key], [], ClearBranch(meta, DottedKey(segs, key)))
  {
    DotFreeExtend(segs, key);
    var cleared := ClearBranch(meta, DottedKey(segs, key));
    forall x | x in cleared
      ensures !Inside(x, segs + [key])
    {
      InBranchSegments(x, segs + [key]);
    }
  }

  lemma EnterEntries(acc: Merged, key: string, segs: seq<string>)
    requires IsMapping(Get(acc.tree, key))
    requires forall x :: x in acc.meta && Inside(x, segs) ==> IsLeafPath(acc.tree, Segments(x)[|segs|..])
    ensures forall x {:trigger Inside(x, segs + [key]), x in acc.meta} :: x in acc.meta && Inside(x, segs + [key])
              ==> IsLeafPath(Get(acc.tree, key).value.entries, Segments(x)[|segs + [key]|..])
  {
    forall x | x in acc.meta && Inside(x, segs + [key])
      ensures IsLeafPath(Get(acc.tree, key).value.entries, Segments(x)[|segs + [key]|..])
    {
      InsideParent(x, segs, key);
      EnterEntry(acc.tree, key, segs, x);
    }
  }

  /** A key below `segs + [key]` is also below `segs`. */
  lemma InsideParent(x: string, segs: seq<string>, key: string)
    requires Inside(x, segs + [key])
    ensures Inside(x, segs)
  {
    var s := Segments(x);
    assert s[..|segs|] == s[..|segs| + 1][..|segs|];
  }

  lemma EnterEntry(tree: Mapping, key: string, segs: seq<string>, x: string)
    requires IsMapping(Get(tree, key)) && Inside(x, segs + [key])
    requires IsLeafPath(tree, Segments(x)[|segs|..])
    ensures IsLeafPath(Get(tree, key).value.entries, Segments(x)[|segs| + 1..])
  {
    var s := Segments(x);
    assert s[|segs|] == s[..|segs| + 1][|segs|];
    LeafPathBelow(tree, key, segs, s);
  }

  /** A leaf path running through the mapping under `key` continues as a
      leaf path of that mapping. */
  lemma LeafPathBelow(tree: Mapping, key: string, segs: seq<string>, s: seq<string>)
    requires |segs| + 1 < |s| && s[|segs|] == key
    requires IsLeafPath(tree, s[|segs|..]) && IsMapping(Get(tree, key))
    ensures IsLeafPath(Get(tree, key).value.entries, s[|segs| + 1..])
  {
    assert s[|segs|..][1..] == s[|segs| + 1..];
  }

  lemma EnterLeaves(acc: Merged, key: string, segs: seq<string>)
    requires IsMapping(Get(acc.tree, key))
    requires forall q :: IsLeafPath(acc.tree, q) ==> Join(segs + q, ".") in acc.meta
    ensures forall q :: IsLeafPath(Get(acc.tree, key).value.entries, q) ==> Join(segs + [key] + q, ".") in acc.meta
  {
    forall q | IsLeafPath(Get(acc.tree, key).value.entries, q)
      ensures Join(segs + [key] + q, ".") in acc.meta
    {
      assert IsLeafPath(acc.tree, [key] + q) by {
        assert ([key] + q)[1..] == q;
      }
      assert segs + ([key] + q) == segs + [key] + q;
    }
  }

  /** Leaving the branch of `key`: storing the merged inner mapping under
      `key` keeps the index in step, given that nothing outside the branch
      changed and `key` itself has no entry. */
  lemma BranchLeave(acc: Merged, key: string, segs: seq<string>, tree: Mapping, meta: Provenance)
    requires DotFreeParts(segs) && '.' !in key && DotFreeMapping(acc.tree)
    requires Rel(segs, acc.tree, acc.meta) && Rel(segs + [key], tree, meta)
    requires Frame(acc.meta, meta, segs, [key]) && DottedKey(segs, key) !in meta
    ensures Rel(segs, Put(acc.tree, key, Map(tree)), meta)
  {
    LeaveEntries(acc, key, segs, tree, meta);
    LeaveLeaves(acc, key, segs, tree, meta);
  }

  lemma LeaveEntries(acc: Merged, key: string, segs: seq<string>, tree: Mapping, meta: Provenance)
    requires DotFreeParts(segs) && '.' !in key
    requires forall x :: x in acc.meta && Inside(x, segs) ==> IsLeafPath(acc.tree, Segments(x)[|segs|..])
    requires forall x :: x in meta && Inside(x, segs + [key]) ==> IsLeafPath(tree, Segments(x)[|segs| + 1..])
    requires Frame(acc.meta, meta, segs, [key]) && DottedKey(segs, key) !in meta
    ensures forall x :: x in meta && Inside(x, segs) ==> IsLeafPath(Put(acc.tree, key, Map(tree)), Segments(x)[|segs|..])
  {
    var r := Put(acc.tree, key, Map(tree));
    forall x | x in meta && Inside(x, segs)
      ensures IsLeafPath(r, Segments(x)[|segs|..])
    {
      var s := Segments(x);
      var t := s[|segs|..];
      OneBelow(x, segs, key);
      if t[0] == key {
        assert Inside(x, segs + [key]) by {
          assert s[..|segs| + 1] == s[..|segs|] + [s[|segs|]];
        }
        assert t[1..] == s[|segs| + 1..];
      } else {
        assert !Touched(x, segs, [key]);
        LeafPathSameHead(acc.tree, r, t);
      }
    }
  }

  lemma LeaveLeaves(acc: Merged, key: string, segs: seq<string>, tree: Mapping, meta: Provenance)
    requires DotFreeParts(segs) && '.' !in key && DotFreeMapping(acc.tree)
    requires forall q :: IsLeafPath(acc.tree, q) ==> Join(segs + q, ".") in acc.meta
    requires forall q :: IsLeafPath(tree, q) ==> Join(segs + [key] + q, ".") in meta
    requires Frame(acc.meta, meta, segs, [key])
    ensures forall q :: IsLeafPath(Put(acc.tree, key, Map(tree)), q) ==> Join(segs + q, ".") in meta
  {
    LeaveLeavesInside(acc.tree, key, segs, tree, meta);
    LeaveLeavesOutside(acc, key, segs, tree, meta);
  }

  lemma LeaveLeavesInside(base: Mapping, key: string, segs: seq<string>, tree: Mapping, meta: Provenance)
    requires forall q :: IsLeafPath(tree, q) ==> Join(segs + [key] + q, ".") in meta
    ensures forall q :: IsLeafPath(Put(base, key, Map(tree)), q) && q[0] == key ==> Join(segs + q, ".") in meta
  {
    var r := Put(base, key, Map(tree));
    forall q | IsLeafPath(r, q) && q[0] == key
      ensures Join(segs + q, ".") in meta
    {
      LeafUnderKey(r, key, tree, q);
      ConcatShift(segs, key, q);
      var p := q[1..];
      assert Join(segs + [key] + p, ".") in meta;
    }
  }

  lemma LeaveLeavesOutside(acc: Merged, key: string, segs: seq<string>, tree: Mapping, meta: Provenance)
    requires DotFreeParts(segs) && '.' !in key && DotFreeMapping(acc.tree)
    requires forall q :: IsLeafPath(acc.tree, q) ==> Join(segs + q, ".") in acc.meta
    requires Frame(acc.meta, meta, segs, [key])
    ensures forall q :: IsLeafPath(Put(acc.tree, key, Map(tree)), q) && q[0] != key ==> Join(segs + q, ".") in meta
  {
    var r := Put(acc.tree, key, Map(tree));
    forall q | IsLeafPath(r, q) && q[0] != key
      ensures Join(segs + q, ".") in meta
    {
      LeafPathSameHead(acc.tree, r, q);
      LeafPathOutside(acc.meta, meta, acc.tree, segs, key, q);
    }
  }

  lemma LeafUnderKey(m: Mapping, key: string, tree: Mapping, q: seq<string>)
    requires Get(m, key) == Some(Map(tree)) && IsLeafPath(m, q) && q[0] == key
    ensures |q| > 1 && IsLeafPath(tree, q[1..])
  {
  }

  lemma ConcatShift(segs: seq<string>, key: string, q: seq<string>)
    requires |q| > 0 && q[0] == key
    ensures segs + [key] + q[1..] == segs + q
  {
    assert q == [key] + q[1..];
  }

  /** A key holding a mapping has no provenance entry of its own. */
  lemma NoEntryAtMapping(acc: Merged, key: string, segs: seq<string>)
    requires DotFreeParts(segs) && '.' !in key && IsMapping(Get(acc.tree, key))
    requires forall x :: x in acc.meta && Inside(x, segs) ==> IsLeafPath(acc.tree, Segments(x)[|segs|..])
    ensures DottedKey(segs, key) !in acc.meta
  {
    DotFreeExtend(segs, key);
    var dotted := DottedKey(segs, key);
    SegmentsJoin(segs + [key]);
    assert Inside(dotted, segs);
    assert Segments(dotted)[|segs|..] == [key];
    assert !IsLeafPath(acc.tree, [key]);
  }

  /** A merge one level below `key` cannot create the entry of `key`. */
  lemma NoEntryAfterInner(meta: Provenance, inner: Provenance, key: string, segs: seq<string>, keys: seq<string>)
    requires DotFreeParts(segs) && '.' !in key
    requires Frame(meta, inner, segs + [key], keys) && DottedKey(segs, key) !in meta
    ensures DottedKey(segs, key) !in inner
  {
    DotFreeExtend(segs, key);
    SegmentsJoin(segs + [key]);
    assert !Touched(DottedKey(segs, key), segs + [key], keys);
  }

  /** `_merge_branch` keeps the index in step with the leaves and the tree
      free of dotted keys. */
  lemma {:induction false} BranchRel(acc: Merged, key: string, entries: Mapping,
                                     layer: string, path: Option<string>, segs: seq<string>)
    requires DotFreeParts(segs) && '.' !in key && DotFreeMapping(entries)
    requires DotFreeMapping(acc.tree) && Rel(segs, acc.tree, acc.meta)
    ensures var r := MergeBranch(acc, key, entries, DottedKey(segs, key), layer, path, segs);
            Rel(segs, r.tree, r.meta) && DotFreeMapping(r.tree)
    decreases 1 + EntriesSize(entries), 1
  {
    if entries == [] {
      if !(IsMapping(Get(acc.tree, key)) && segs == []) {
        ResetRel(acc, key, segs);
        PutDotFree(acc.tree, key, Map([]));
      }
    } else {
      NestedRel(acc, key, entries, layer, path, segs);
    }
  }

  /** What the merge one level below `key` leaves untouched: everything
      outside the branch of `key`, and the entry of `key` itself. */
  lemma InnerFrame(acc: Merged, key: string, entries: Mapping,
                   layer: string, path: Option<string>, segs: seq<string>)
    requires DotFreeParts(segs) && '.' !in key && DotFreeMapping(entries)
    requires forall x :: x in acc.meta && Inside(x, segs) ==> IsLeafPath(acc.tree, Segments(x)[|segs|..])
    ensures var existing := Get(acc.tree, key);
            var createdNew := !IsMapping(existing);
            var container := if createdNew then [] else existing.value.entries;
            var meta := if createdNew then ClearBranch(acc.meta, DottedKey(segs, key)) else acc.meta;
            var inner := MergeMapping(Merged(container, meta), entries, layer, path, segs + [key]);
            Frame(acc.meta, inner.meta, segs, [key]) && DottedKey(segs, key) !in inner.meta
  {
    var dotted := DottedKey(segs, key);
    var existing := Get(acc.tree, key);
    var createdNew := !IsMapping(existing);
    var container := if createdNew then [] else existing.value.entries;
    var meta := if createdNew then ClearBranch(acc.meta, dotted) else acc.meta;
    var inner := MergeMapping(Merged(container, meta), entries, layer, path, segs + [key]);
    DotFreeExtend(segs, key);
    MappingFrame(Merged(container, meta), entries, layer, path, segs + [key]);
    FrameWiden(meta, inner.meta, segs, key, Keys(entries));
    ClearBranchFrame(acc.meta, segs, key);
    FrameTrans(acc.meta, meta, inner.meta, segs, [key]);
    if !createdNew {
      NoEntryAtMapping(acc, key, segs);
    }
    NoEntryAfterInner(meta, inner.meta, key, segs, Keys(entries));
  }

  lemma {:induction false} NestedRel(acc: Merged, key: string, entries: Mapping,
                                     layer: string, path: Option<string>, segs: seq<string>)
    requires entries != []
    requires DotFreeParts(segs) && '.' !in key && DotFreeMapping(entries)
    requires DotFreeMapping(acc.tree) && Rel(segs, acc.tree, acc.meta)
    ensures var r := MergeBranch(acc, key, entries, DottedKey(segs, key), layer, path, segs);
            Rel(segs, r.tree, r.meta) && DotFreeMapping(r.tree)
    decreases 1 + EntriesSize(entries), 0
  {
    var dotted := DottedKey(segs, key);
    var existing := Get(acc.tree, key);
    var createdNew := !IsMapping(existing);
    var container := if createdNew then [] else existing.value.entries;
    var meta := if createdNew then ClearBranch(acc.meta, dotted) else acc.meta;
    var inner := MergeMapping(Merged(container, meta), entries, layer, path, segs + [key]);
    DotFreeExtend(segs, key);
    BranchEnter(acc, key, segs);
    MappingRel(Merged(container, meta), entries, layer, path, segs + [key]);
    InnerFrame(acc, key, entries, layer, path, segs);
    BranchTree(acc, key, entries, dotted, layer, path, segs);
    MappingTree(Merged(container, meta), entries, layer, path, segs + [key]);
    BranchLeave(acc, key, segs, inner.tree, inner.meta);
    PutDotFree(acc.tree, key, Map(inner.tree));
  }

  /** `_merge_mapping` keeps the index in step with the leaves and the tree
      free of dotted keys. */
  lemma {:induction false} MappingRel(acc: Merged, incoming: Mapping, layer: string,
                                      path: Option<string>, segs: seq<string>)
    requires DotFreeParts(segs) && DotFreeMapping(incoming)
    requires DotFreeMapping(acc.tree) && Rel(segs, acc.tree, acc.meta)
    ensures var r := MergeMapping(acc, incoming, layer, path, segs);
            Rel(segs, r.tree, r.meta) && DotFreeMapping(r.tree)
    decreases EntriesSize(incoming), 2
  {
    if incoming != [] {
      EntriesSizeCons(incoming);
      DotFreeTail(incoming);
      var key, value := incoming[0].0, incoming[0].1;
      var dotted := DottedKey(segs, key);
      var next :=
        if value.Map? then MergeBranch(acc, key, value.entries, dotted, layer, path, segs)
        else SetScalar(acc, key, value, dotted, layer, path);
      if value.Map? {
        BranchRel(acc, key, value.entries, layer, path, segs);
      } else {
        SetScalarRel(acc, key, value, segs, layer, path);
        PutDotFree(acc.tree, key, value);
      }
      MappingRel(next, incoming[1..], layer, path, segs);
    }
  }

  /** `x` carries the record of `layer` and `path` for its own dotted key. */
  predicate StampedAt(meta: Provenance, x: string, layer: string, path: Option<string>) {
    x in meta && meta[x] == SourceInfo(layer, path, x)
  }

  /** The entry of a dot-free path outside the branches of `keys` is kept
      by a change that keeps their frame. */
  lemma FrameKeepsPath(prev: Provenance, next: Provenance, segs: seq<string>, keys: seq<string>, p: seq<string>)
    requires DotFreeParts(segs) && DotFreeParts(p) && p != [] && p[0] !in keys
    requires Frame(prev, next, segs, keys)
    ensures var x := Join(segs + p, ".");
            (x in next <==> x in prev) && (x in next ==> next[x] == prev[x])
  {
    var x := Join(segs + p, ".");
    assert DotFreeParts(segs + p) by {
      assert forall i :: 0 <= i < |segs + p| ==> (segs + p)[i] == if i < |segs| then segs[i] else p[i - |segs|];
    }
    SegmentsJoin(segs + p);
    assert Segments(x)[|segs|] == p[0];
    assert !Touched(x, segs, keys);
  }

  /** The first entry of a payload stamps all of its leaves. */
  lemma FirstEntryStamps(acc: Merged, incoming: Mapping, layer: string, path: Option<string>,
                         segs: seq<string>, q: seq<string>)
    requires incoming != [] && DotFreeParts(segs) && DotFreeMapping(incoming) && WellFormedMapping(incoming)
    requires IsLeafPath(incoming, q) && q[0] == incoming[0].0
    ensures var key, value := incoming[0].0, incoming[0].1;
            var dotted := DottedKey(segs, key);
            var next :=
              if value.Map? then MergeBranch(acc, key, value.entries, dotted, layer, path, segs)
              else SetScalar(acc, key, value, dotted, layer, path);
            StampedAt(next.meta, Join(segs + q, "."), layer, path)
    decreases EntriesSize(incoming), 1
  {
    EntriesSizeCons(incoming);
    DotFreeTail(incoming);
    WellFormedTail(incoming);
    var key, value := incoming[0].0, incoming[0].1;
    if value.Map? {
      LeafUnderKey(incoming, key, value.entries, q);
      BranchSets(acc, key, value.entries, layer, path, segs);
      ConcatShift(segs, key, q);
      var rest := q[1..];
      assert IsLeafPath(value.entries, rest);
    } else {
      assert q == [key];
    }
  }

  /** `_merge_mapping` stamps every leaf of the payload with the layer and
      path being merged. */
  lemma {:induction false} MappingSets(acc: Merged, incoming: Mapping, layer: string,
                                       path: Option<string>, segs: seq<string>)
    requires DotFreeParts(segs) && DotFreeMapping(incoming) && WellFormedMapping(incoming)
    ensures var r := MergeMapping(acc, incoming, layer, path, segs);
            forall q :: IsLeafPath(incoming, q) ==> StampedAt(r.meta, Join(segs + q, "."), layer, path)
    decreases EntriesSize(incoming), 2
  {
    if incoming != [] {
      EntriesSizeCons(incoming);
      DotFreeTail(incoming);
      WellFormedTail(incoming);
      KeysCons(incoming);
      var key, value, rest := incoming[0].0, incoming[0].1, incoming[1..];
      var dotted := DottedKey(segs, key);
      var next :=
        if value.Map? then MergeBranch(acc, key, value.entries, dotted, layer, path, segs)
        else SetScalar(acc, key, value, dotted, layer, path);
      var r := MergeMapping(next, rest, layer, path, segs);
      MappingSets(next, rest, layer, path, segs);
      MappingFrame(next, rest, layer, path, segs);
      forall q | IsLeafPath(incoming, q)
        ensures StampedAt(r.meta, Join(segs + q, "."), layer, path)
      {
        if q[0] == key {
          FirstEntryStamps(acc, incoming, layer, path, segs, q);
          LeafPathDotFree(incoming, q);
          FrameKeepsPath(next.meta, r.meta, segs, Keys(rest), q);
        } else {
          LeafPathSameHead(incoming, rest, q);
        }
      }
    }
  }

  lemma {:induction false} BranchSets(acc: Merged, key: string, entries: Mapping,
                                      layer: string, path: Option<string>, segs: seq<string>)
    requires DotFreeParts(segs) && '.' !in key && DotFreeMapping(entries) && WellFormedMapping(entries)
    ensures var r := MergeBranch(acc, key, entries, DottedKey(segs, key), layer, path, segs);
            forall q :: IsLeafPath(entries, q) ==> StampedAt(r.meta, Join(segs + [key] + q, "."), layer, path)
    decreases 1 + EntriesSize(entries), 0
  {
    if entries != [] {
      var dotted := DottedKey(segs, key);
      var existing := Get(acc.tree, key);
      var createdNew := !IsMapping(existing);
      var container := if createdNew then [] else existing.value.entries;
      var meta := if createdNew then ClearBranch(acc.meta, dotted) else acc.meta;
      DotFreeExtend(segs, key);
      MappingSets(Merged(container, meta), entries, layer, path, segs + [key]);
    }
  }

  /** Replacing a non-mapping (or nothing) by a mapping leaves, inside the
      branch, only entries written by the replacing payload: whatever the
      branch held before is gone. */
  lemma ReplacedBranchStamped(acc: Merged, key: string, entries: Mapping,
                              layer: string, path: Option<string>, segs: seq<string>)
    requires !IsMapping(Get(acc.tree, key))
    ensures var dotted := DottedKey(segs, key);
            var r := MergeBranch(acc, key, entries, dotted, layer, path, segs);
            forall x :: x in r.meta && InBranch(x, dotted) ==> r.meta[x] == SourceInfo(layer, path, x)
  {
    var dotted := DottedKey(segs, key);
    if entries != [] {
      MappingStamps(Merged([], ClearBranch(acc.meta, dotted)), entries, layer, path, segs + [key]);
    }
  }

  /** The empty-mapping rule of `_merge_branch`: ignored at the top level
      over a mapping; otherwise the key holds `{}` and every entry at or
      below it is dropped, all other keys and entries being kept. */
  lemma EmptyMappingRule(acc: Merged, key: string, layer: string, path: Option<string>, segs: seq<string>)
    ensures var dotted := DottedKey(segs, key);
            var r := MergeBranch(acc, key, [], dotted, layer, path, segs);
            if segs == [] && IsMapping(Get(acc.tree, key)) then r == acc
            else Get(r.tree, key) == Some(Map([]))
                 && (forall k :: k != key ==> Get(r.tree, k) == Get(acc.tree, k))
                 && (forall x :: x in r.meta <==> x in acc.meta && !InBranch(x, dotted))
                 && (forall x :: x in r.meta ==> r.meta[x] == acc.meta[x])
  {
  }

  /** The provenance index and the merged tree agree, and the tree is free
      of dotted keys. */
  ghost predicate Consistent(m: Merged) {
    DotFreeMapping(m.tree) && Rel([], m.tree, m.meta)
  }

  predicate DotFreeLayers(layers: seq<LayerEntry>) {
    forall i :: 0 <= i < |layers| ==> DotFreeMapping(layers[i].data)
  }

  lemma DotFreeInit(layers: seq<LayerEntry>)
    requires layers != [] && DotFreeLayers(layers)
    ensures DotFreeLayers(layers[..|layers| - 1]) && DotFreeMapping(layers[|layers| - 1].data)
  {
    var init := layers[..|layers| - 1];
    assert forall i :: 0 <= i < |init| ==> init[i] == layers[i];
  }

  lemma {:induction false} MergeLayersConsistent(layers: seq<LayerEntry>)
    requires DotFreeLayers(layers)
    ensures Consistent(MergeLayers(layers))
    decreases |layers|
  {
    if layers != [] {
      var init, last := layers[..|layers| - 1], layers[|layers| - 1];
      DotFreeInit(layers);
      MergeLayersConsistent(init);
      MappingRel(MergeLayers(init), last.data, last.name, last.path, []);
    }
  }

  /** When no key of any payload contains ".", the provenance keys are
      exactly the dotted paths of the non-mapping leaves of the merged
      tree. */
  lemma ProvenanceIsLeaves(layers: seq<LayerEntry>)
    requires DotFreeLayers(layers)
    ensures var m := MergeLayers(layers);
            forall x :: x in m.meta <==> IsLeafPath(m.tree, Segments(x))
    ensures var m := MergeLayers(layers);
            forall q :: IsLeafPath(m.tree, q) ==> Join(q, ".") in m.meta
  {
    MergeLayersConsistent(layers);
    ConsistentKeys(MergeLayers(layers));
    ConsistentLeaves(MergeLayers(layers));
  }

  /** An index in step with its tree at the top level holds only dotted
      leaf paths, and all of them. */
  lemma ConsistentKeys(m: Merged)
    requires Consistent(m)
    ensures forall x :: x in m.meta <==> IsLeafPath(m.tree, Segments(x))
  {
    forall x
      ensures x in m.meta <==> IsLeafPath(m.tree, Segments(x))
    {
      ConsistentKey(m, x);
    }
  }

  lemma ConsistentKey(m: Merged, x: string)
    requires Consistent(m)
    ensures x in m.meta <==> IsLeafPath(m.tree, Segments(x))
  {
    var s := Segments(x);
    assert Inside(x, []) && s[0..] == s;
    JoinSegments(x);
    assert [] + s == s;
  }

  /** Every leaf of a tree in step with its index is recorded. */
  lemma ConsistentLeaves(m: Merged)
    requires Consistent(m)
    ensures forall q :: IsLeafPath(m.tree, q) ==> Join(q, ".") in m.meta
  {
    forall q | IsLeafPath(m.tree, q)
      ensures Join(q, ".") in m.meta
    {
      assert [] + q == q;
    }
  }

  /** Every leaf of the last payload carries the last layer's name and path
      and its own dotted key. */
  lemma LastLayerProvenance(layers: seq<LayerEntry>)
    requires layers != []
    requires DotFreeMapping(layers[|layers| - 1].data) && WellFormedMapping(layers[|layers| - 1].data)
    ensures var last := layers[|layers| - 1];
            forall q :: IsLeafPath(last.data, q)
              ==> StampedAt(MergeLayers(layers).meta, Join(q, "."), last.name, last.path)
  {
    var init, last := layers[..|layers| - 1], layers[|layers| - 1];
    LayerStamps(MergeLayers(init), last);
  }

  /** Every leaf of the payload is recorded against the layer that supplied it. */
  lemma LayerStamps(acc: Merged, e: LayerEntry)
    requires DotFreeMapping(e.data) && WellFormedMapping(e.data)
    ensures forall q :: IsLeafPath(e.data, q)
              ==> StampedAt(MergeLayer(acc, e).meta, Join(q, "."), e.name, e.path)
  {
    MappingSets(acc, e.data, e.name, e.path, []);
    forall q | IsLeafPath(e.data, q)
      ensures StampedAt(MergeLayer(acc, e).meta, Join(q, "."), e.name, e.path)
    {
      assert [] + q == q;
    }
  }

  /** A payload keeps, unchanged, every provenance entry whose first
      segment it does not mention, and adds none there. */
  lemma UnmentionedKept(acc: Merged, e: LayerEntry)
    requires DotFreeMapping(e.data)
    ensures var r := MergeLayer(acc, e);
            forall x :: Segments(x)[0] !in Keys(e.data)
              ==> (x in r.meta <==> x in acc.meta) && (x in r.meta ==> r.meta[x] == acc.meta[x])
  {
    MappingFrame(acc, e.data, e.name, e.path, []);
    var r := MergeLayer(acc, e);
    forall x | Segments(x)[0] !in Keys(e.data)
      ensures (x in r.meta <==> x in acc.meta) && (x in r.meta ==> r.meta[x] == acc.meta[x])
    {
      assert !Touched(x, [], Keys(e.data));
    }
  }

  /** Merging a payload at the top level, where the payload and the
      accumulator both map `k` to a mapping: an entry below `k` whose next
      segment the payload's mapping at `k` does not mention is kept. */
  lemma {:induction false} SiblingsKept(acc: Merged, incoming: Mapping, layer: string, path: Option<string>,
                                        k: string, x: string)
    requires DotFreeMapping(incoming) && UniqueKeys(incoming)
    requires IsMapping(Get(acc.tree, k)) && IsMapping(Get(incoming, k))
    requires |Segments(x)| > 1 && Segments(x)[0] == k
    requires Segments(x)[1] !in Keys(Get(incoming, k).value.entries)
    ensures var r := MergeMapping(acc, incoming, layer, path, []);
            (x in r.meta <==> x in acc.meta) && (x in r.meta ==> r.meta[x] == acc.meta[x])
    decreases |incoming|
  {
    DotFreeTail(incoming);
    KeysCons(incoming);
    var key, value := incoming[0].0, incoming[0].1;
    var dotted := DottedKey([], key);
    var next :=
      if value.Map? then MergeBranch(acc, key, value.entries, dotted, layer, path, [])
      else SetScalar(acc, key, value, dotted, layer, path);
    var rest := incoming[1..];
    assert MergeMapping(acc, incoming, layer, path, []) == MergeMapping(next, rest, layer, path, []);
    if key != k {
      assert !Touched(x, [], [key]);
      if value.Map? {
        BranchFrame(acc, key, value.entries, layer, path, []);
      } else {
        SetScalarFrame(acc, key, value, [], layer, path);
      }
      assert Get(next.tree, k) == Get(acc.tree, k);
      SiblingsKept(next, rest, layer, path, k, x);
    } else {
      BranchKeepsSibling(acc, k, value.entries, layer, path, x);
      MappingFrame(next, rest, layer, path, []);
      assert !Touched(x, [], Keys(rest));
    }
  }

  /** `_merge_branch` at the top level into an existing mapping keeps an
      entry below `key` whose next segment `entries` does not mention. */
  lemma BranchKeepsSibling(acc: Merged, key: string, entries: Mapping, layer: string, path: Option<string>,
                           x: string)
    requires '.' !in key && DotFreeMapping(entries) && IsMapping(Get(acc.tree, key))
    requires |Segments(x)| > 1 && Segments(x)[0] == key && Segments(x)[1] !in Keys(entries)
    ensures var r := MergeBranch(acc, key, entries, DottedKey([], key), layer, path, []);
            (x in r.meta <==> x in acc.meta) && (x in r.meta ==> r.meta[x] == acc.meta[x])
  {
    if entries != [] {
      var container := Merged(Get(acc.tree, key).value.entries, acc.meta);
      DotFreeExtend([], key);
      assert [] + [key] == [key];
      MappingFrame(container, entries, layer, path, [key]);
      assert Segments(x)[..1] == [key];
      assert !Touched(x, [key], Keys(entries));
    }
  }

  /** Merging a layer into a mapping keeps the siblings: where the
      accumulator and the payload both map `k` to a mapping, every
      provenance entry below `k` whose next segment the payload's mapping
      does not mention is unchanged, and none is added there. */
  lemma UnmentionedNestedKept(acc: Merged, e: LayerEntry, k: string)
    requires DotFreeMapping(e.data) && UniqueKeys(e.data)
    requires IsMapping(Get(acc.tree, k)) && IsMapping(Get(e.data, k))
    ensures var r := MergeLayer(acc, e);
            forall x :: |Segments(x)| > 1 && Segments(x)[0] == k && Segments(x)[1] !in Keys(Get(e.data, k).value.entries)
              ==> (x in r.meta <==> x in acc.meta) && (x in r.meta ==> r.meta[x] == acc.meta[x])
  {
    forall x | |Segments(x)| > 1 && Segments(x)[0] == k && Segments(x)[1] !in Keys(Get(e.data, k).value.entries)
      ensures var r := MergeLayer(acc, e);
              (x in r.meta <==> x in acc.meta) && (x in r.meta ==> r.meta[x] == acc.meta[x])
    {
      SiblingsKept(acc, e.data, e.name, e.path, k, x);
    }
  }

  /** The layer names and source paths of a layer list. */
  function LayerIds(layers: seq<LayerEntry>): (r: set<(string, Option<string>)>)
    ensures forall i :: 0 <= i < |layers| ==> (layers[i].name, layers[i].path) in r
  {
    set i | 0 <= i < |layers| :: (layers[i].name, layers[i].path)
  }

  /** Every provenance record is keyed by its own dotted key and names one
      of the merged layers with that layer's source path. */
  ghost predicate RecordsFrom(meta: Provenance, layers: seq<LayerEntry>) {
    forall x :: x in meta ==> meta[x].key == x && (meta[x].layer, meta[x].path) in LayerIds(layers)
  }

  lemma {:induction false} MergeLayersRecords(layers: seq<LayerEntry>)
    ensures RecordsFrom(MergeLayers(layers).meta, layers)
    decreases |layers|
  {
    if layers != [] {
      var init, last := layers[..|layers| - 1], layers[|layers| - 1];
      MergeLayersRecords(init);
      MappingStamps(MergeLayers(init), last.data, last.name, last.path, []);
      assert forall i :: 0 <= i < |init| ==> init[i] == layers[i];
      assert LayerIds(init) <= LayerIds(layers);
    }
  }
}
