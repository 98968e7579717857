/** Configuration values. A mapping is an association list so that Python's
    insertion-ordered `dict` semantics stay visible: re-assigning an existing
    key keeps its position, a new key is appended, `pop` removes it. */
module Tree {
  import opened Results

  /** A configuration value: the scalars the loaders produce, lists, and
      nested mappings. `Float` keeps the literal text because floating point
      parsing is not modelled. */
  datatype Value =
    | Null
    | Bool(b: bool)
    | Int(i: int)
    | Float(literal: string)
    | Str(s: string)
    | List(items: seq<Value>)
    | Map(entries: Mapping)

  type Mapping = seq<(string, Value)>

  function Keys(m: Mapping): (r: seq<string>)
    ensures |r| == |m|
    ensures forall i :: 0 <= i < |m| ==> r[i] == m[i].0
  {
    if m == [] then [] else [m[0].0] + Keys(m[1..])
  }

  /** `m.get(k)`: the value of the first entry with key `k`. */
  function Get(m: Mapping, k: string): (r: Option<Value>)
    ensures r.Some? <==> k in Keys(m)
  {
    if m == [] then None
    else if m[0].0 == k then Some(m[0].1)
    else Get(m[1..], k)
  }

  /** `m[k] = v`: replaces the value in place when `k` is present, appends
      otherwise. */
  function Put(m: Mapping, k: string, v: Value): (r: Mapping)
    ensures Get(r, k) == Some(v)
    ensures forall j :: j != k ==> Get(r, j) == Get(m, j)
  {
    if m == [] then [(k, v)]
    else if m[0].0 == k then [(k, v)] + m[1..]
    else [m[0]] + Put(m[1..], k, v)
  }

  /** `Put` keeps the key order and appends a new key. */
  lemma {:induction false} PutKeys(m: Mapping, k: string, v: Value)
    ensures Keys(Put(m, k, v)) == if k in Keys(m) then Keys(m) else Keys(m) + [k]
    decreases |m|
  {
    if m != [] {
      KeysCons(m);
      if m[0].0 != k {
        PutKeys(m[1..], k, v);
        KeysCons(Put(m, k, v));
      } else {
        KeysCons(Put(m, k, v));
      }
    }
  }

  /** Writing back the value a key already holds changes nothing. */
  lemma {:induction false} PutSame(m: Mapping, k: string)
    requires k in Keys(m)
    ensures Put(m, k, Get(m, k).value) == m
    decreases |m|
  {
    if m[0].0 != k {
      PutSame(m[1..], k);
    }
  }

  lemma KeysCons(m: Mapping)
    requires m != []
    ensures Keys(m) == [m[0].0] + Keys(m[1..])
  {
  }

  /** `m.pop(k, None)` on a mapping whose keys are unique. */
  function Remove(m: Mapping, k: string): (r: Mapping)
    ensures forall j :: j != k ==> Get(r, j) == Get(m, j)
    ensures forall j :: j in Keys(r) ==> j in Keys(m)
    ensures UniqueKeys(m) ==> Get(r, k) == None && UniqueKeys(r)
  {
    if m == [] then []
    else if m[0].0 == k then m[1..]
    else [m[0]] + Remove(m[1..], k)
  }

  /** No key occurs twice, as in every Python `dict`. */
  predicate UniqueKeys(m: Mapping) {
    m == [] || (m[0].0 !in Keys(m[1..]) && UniqueKeys(m[1..]))
  }

  lemma {:induction false} UniqueKeysIndex(m: Mapping)
    ensures UniqueKeys(m) <==> forall i, j :: 0 <= i < j < |m| ==> m[i].0 != m[j].0
    decreases |m|
  {
    if m != [] {
      UniqueKeysIndex(m[1..]);
      assert forall i :: 0 < i < |m| ==> m[i] == m[1..][i - 1];
    }
  }

  lemma {:induction false} PutKeepsUnique(m: Mapping, k: string, v: Value)
    requires UniqueKeys(m)
    ensures UniqueKeys(Put(m, k, v))
    decreases |m|
  {
    if m != [] && m[0].0 != k {
      PutKeepsUnique(m[1..], k, v);
      var rest := Put(m[1..], k, v);
      assert Get(rest, m[0].0) == Get(m[1..], m[0].0);
      assert Put(m, k, v)[1..] == rest;
    } else if m != [] {
      assert Put(m, k, v)[1..] == m[1..];
    }
  }

  /** With unique keys, `Get` finds the entry at any index. */
  lemma {:induction false} GetAtIndex(m: Mapping, i: int)
    requires UniqueKeys(m) && 0 <= i < |m|
    ensures Get(m, m[i].0) == Some(m[i].1)
    decreases |m|
  {
    if i > 0 {
      assert m[0].0 != m[i].0 by { UniqueKeysIndex(m); }
      GetAtIndex(m[1..], i - 1);
    }
  }

  /** `Get` reads some entry of the mapping. */
  lemma {:induction false} GetIndex(m: Mapping, k: string) returns (i: nat)
    requires k in Keys(m)
    ensures i < |m| && m[i].0 == k && Get(m, k) == Some(m[i].1)
    decreases |m|
  {
    KeysCons(m);
    if m[0].0 == k {
      i := 0;
    } else {
      var j := GetIndex(m[1..], k);
      i := j + 1;
    }
  }

  lemma {:induction false} PutWellFormed(m: Mapping, k: string, v: Value)
    requires WellFormedMapping(m) && WellFormed(v)
    ensures WellFormedMapping(Put(m, k, v))
    decreases |m|
  {
    PutKeepsUnique(m, k, v);
    var r := Put(m, k, v);
    if m == [] {
      assert r == [(k, v)];
    } else {
      var rest := if m[0].0 == k then m[1..] else Put(m[1..], k, v);
      assert r == [r[0]] + rest;
      WellFormedTail(m);
      if m[0].0 != k {
        PutWellFormed(m[1..], k, v);
      }
      assert WellFormed(r[0].1);
      assert WellFormedMapping(rest);
      forall i | 0 <= i < |r|
        ensures WellFormed(r[i].1)
      {
        if i > 0 {
          assert r[i] == rest[i - 1];
        }
      }
    }
  }

  /** Mappings with unique keys are equal when they list the same keys in
      the same order and agree on every lookup. */
  lemma {:induction false} Extensionality(a: Mapping, b: Mapping)
    requires UniqueKeys(a) && UniqueKeys(b)
    requires Keys(a) == Keys(b)
    requires forall k :: Get(a, k) == Get(b, k)
    ensures a == b
  {
    forall i | 0 <= i < |a|
      ensures a[i] == b[i]
    {
      GetAtIndex(a, i);
      GetAtIndex(b, i);
    }
  }

  /** Number of nodes, used as the termination measure of the recursive
      algorithms over nested mappings. */
  function Size(v: Value): (r: nat)
    ensures r >= 1
    decreases v, 1
  {
    match v
    case Map(es) => 1 + SizeFrom(v, 0)
    case _ => 1
  }

  /** Total size of the entries of the mapping `v` from index `i` on. */
  function SizeFrom(v: Value, i: nat): nat
    requires v.Map? && i <= |v.entries|
    decreases v, 0, |v.entries| - i
  {
    if i == |v.entries| then 0 else Size(v.entries[i].1) + SizeFrom(v, i + 1)
  }

  function EntriesSize(m: Mapping): nat {
    SizeFrom(Map(m), 0)
  }

  lemma {:induction false} SizeFromShift(m: Mapping, i: nat)
    requires 0 < i <= |m|
    ensures SizeFrom(Map(m), i) == SizeFrom(Map(m[1..]), i - 1)
    decreases |m| - i
  {
    if i < |m| {
      SizeFromShift(m, i + 1);
      assert m[1..][i - 1] == m[i];
    }
  }

  lemma EntriesSizeCons(m: Mapping)
    requires m != []
    ensures EntriesSize(m) == Size(m[0].1) + EntriesSize(m[1..])
  {
    SizeFromShift(m, 1);
  }

  /** Every nested mapping has unique keys. */
  predicate WellFormed(v: Value) {
    match v
    case Map(es) => UniqueKeys(es) && forall i :: 0 <= i < |es| ==> WellFormed(es[i].1)
    case _ => true
  }

  predicate WellFormedMapping(m: Mapping) {
    WellFormed(Map(m))
  }

  lemma WellFormedTail(m: Mapping)
    requires m != [] && WellFormedMapping(m)
    ensures WellFormedMapping(m[1..]) && WellFormed(m[0].1)
  {
    assert forall i :: 0 <= i < |m[1..]| ==> m[1..][i] == m[i + 1];
  }

  lemma WellFormedGet(m: Mapping, k: string)
    requires WellFormedMapping(m) && Get(m, k).Some?
    ensures WellFormed(Get(m, k).value)
    decreases |m|
  {
    if m[0].0 != k {
      WellFormedTail(m);
      WellFormedGet(m[1..], k);
    }
  }

  lemma {:induction false} SizeGet(m: Mapping, k: string)
    requires k in Keys(m)
    ensures Size(Get(m, k).value) <= EntriesSize(m)
    decreases |m|
  {
    EntriesSizeCons(m);
    KeysCons(m);
    if m[0].0 != k {
      SizeGet(m[1..], k);
    }
  }
}
