/** `assign_nested`, `_resolve_key` and `_ensure_child_mapping`: the
    `__`-delimited nesting shared by the environment adapter
    (adapters/env/default.py) and the `.env` adapter
    (adapters/dotenv/default.py). The two files carry identical copies that
    differ only in the exception raised when a scalar blocks nesting, so the
    logic is defined once here and each adapter names its own error.

    Python mutates the target in place and may have created empty
    intermediate mappings before the error is raised; every caller lets the
    error escape and discards the target, so a `Result` models it. */
module Nesting {
  import opened Results
  import opened Text
  import opened Tree
  import opened Configuration

  /** `_resolve_key`: the first existing key equal to `key` ignoring case,
      otherwise `key` lowercased. */
  function ResolveKey(keys: seq<string>, key: string): (r: string)
    ensures Lower(r) == Lower(key)
    ensures r in keys || (r == Lower(key) && forall i :: 0 <= i < |keys| ==> Lower(keys[i]) != Lower(key))
  {
    LowerIdempotent(key);
    if keys == [] then Lower(key)
    else if Lower(keys[0]) == Lower(key) then keys[0]
    else ResolveKey(keys[1..], key)
  }

  /** The key reused is the first one that matches. */
  lemma {:induction false} ResolveKeyFirst(keys: seq<string>, key: string, i: int)
    requires 0 <= i < |keys| && Lower(keys[i]) == Lower(key)
    ensures exists j :: 0 <= j <= i && keys[j] == ResolveKey(keys, key)
                        && forall l :: 0 <= l < j ==> Lower(keys[l]) != Lower(key)
    decreases i
  {
    if Lower(keys[0]) != Lower(key) {
      ResolveKeyFirst(keys[1..], key, i - 1);
      var j :| 0 <= j <= i - 1 && keys[1..][j] == ResolveKey(keys[1..], key)
               && forall l :: 0 <= l < j ==> Lower(keys[1..][l]) != Lower(key);
      assert keys[j + 1] == ResolveKey(keys, key);
      forall l | 0 <= l < j + 1 ensures Lower(keys[l]) != Lower(key) {
        if l > 0 { assert keys[l] == keys[1..][l - 1]; }
      }
    }
  }

  /** No two keys differ only in case. */
  predicate CaseUnique(keys: seq<string>) {
    forall i, j :: 0 <= i < j < |keys| ==> Lower(keys[i]) != Lower(keys[j])
  }

  /** Every mapping, at every depth, is case-unique. */
  predicate CaseUniqueValue(v: Value) {
    match v
    case Map(es) => CaseUnique(Keys(es)) && forall i :: 0 <= i < |es| ==> CaseUniqueValue(es[i].1)
    case _ => true
  }

  /** Every key, at every depth, is already lowercase. */
  predicate LowerKeysValue(v: Value) {
    match v
    case Map(es) => (forall i :: 0 <= i < |es| ==> Lower(es[i].0) == es[i].0 && LowerKeysValue(es[i].1))
    case _ => true
  }

  /** The child mapping a segment descends into, created empty when
      missing; `None` when a non-mapping value holds the key. */
  function ChildEntries(m: Mapping, k: string): Option<Mapping> {
    match Get(m, k)
    case None => Some([])
    case Some(Map(es)) => Some(es)
    case Some(_) => None
  }

  /** Walks `parts[..|parts| - 1]`, creating mappings as needed, and stores
      `v` under the last segment. Fails with the blocking segment when an
      intermediate segment holds a non-mapping value. */
  function AssignPath(m: Mapping, parts: seq<string>, v: Value): (r: Result<Mapping, string>)
    requires parts != []
    decreases |parts|
  {
    var k := ResolveKey(Keys(m), parts[0]);
    if |parts| == 1 then Ok(Put(m, k, v))
    else if ChildEntries(m, k).None? then Err(parts[0])
    else
      var inner :- AssignPath(ChildEntries(m, k).value, parts[1..], v);
      Ok(Put(m, k, Map(inner)))
  }

  /** `assign_nested(target, key, value)`. */
  function AssignNested(m: Mapping, key: string, v: Value): Result<Mapping, string> {
    AssignPath(m, Split(key, "__"), v)
  }

  /** Over lowercase keys the segment resolves to its own lowercase form. */
  lemma ResolveKeyLower(m: Mapping, key: string)
    requires LowerKeysValue(Map(m))
    ensures ResolveKey(Keys(m), key) == Lower(key)
  {
    var r := ResolveKey(Keys(m), key);
    if r in Keys(m) {
      var i :| 0 <= i < |m| && Keys(m)[i] == r;
      assert Lower(m[i].0) == m[i].0;
    }
  }

  lemma PutEntry(m: Mapping, k: string, v: Value, i: int)
    requires 0 <= i < |Put(m, k, v)|
    ensures Put(m, k, v)[i] == (k, v) || Put(m, k, v)[i] in m
    decreases |m|
  {
    if m != [] && m[0].0 != k && i > 0 {
      PutEntry(m[1..], k, v, i - 1);
    }
  }

  lemma LowerKeysPut(m: Mapping, k: string, v: Value)
    requires LowerKeysValue(Map(m)) && LowerKeysValue(v) && Lower(k) == k
    ensures LowerKeysValue(Map(Put(m, k, v)))
  {
    var r := Put(m, k, v);
    forall i | 0 <= i < |r| ensures Lower(r[i].0) == r[i].0 && LowerKeysValue(r[i].1) {
      PutEntry(m, k, v, i);
    }
  }

  lemma LowerKeysChild(m: Mapping, k: string)
    requires LowerKeysValue(Map(m)) && ChildEntries(m, k).Some?
    ensures LowerKeysValue(Map(ChildEntries(m, k).value))
  {
    if Get(m, k).Some? {
      var i := GetIndex(m, k);
    }
  }

  /** Assigning a lowercase-keyed value keeps every key lowercase. */
  lemma {:induction false} AssignKeepsLower(m: Mapping, parts: seq<string>, v: Value)
    requires parts != [] && LowerKeysValue(Map(m)) && LowerKeysValue(v)
    ensures AssignPath(m, parts, v).Ok? ==> LowerKeysValue(Map(AssignPath(m, parts, v).value))
    decreases |parts|
  {
    var k := ResolveKey(Keys(m), parts[0]);
    ResolveKeyLower(m, parts[0]);
    LowerIdempotent(parts[0]);
    if |parts| == 1 {
      LowerKeysPut(m, k, v);
    } else if ChildEntries(m, k).Some? {
      LowerKeysChild(m, k);
      var inner := AssignPath(ChildEntries(m, k).value, parts[1..], v);
      AssignKeepsLower(ChildEntries(m, k).value, parts[1..], v);
      if inner.Ok? {
        LowerKeysPut(m, k, Map(inner.value));
      }
    }
  }

  /** Round trip: over lowercase keys, after a successful assignment the
      lowercased path leads to the value assigned. */
  lemma {:induction false} AssignThenResolve(m: Mapping, parts: seq<string>, v: Value)
    requires parts != [] && LowerKeysValue(Map(m))
    ensures AssignPath(m, parts, v).Ok? ==>
              Resolve(Map(AssignPath(m, parts, v).value), LowerAll(parts)) == Some(v)
    decreases |parts|
  {
    var k := ResolveKey(Keys(m), parts[0]);
    ResolveKeyLower(m, parts[0]);
    var path := LowerAll(parts);
    assert path[0] == k && path[1..] == LowerAll(parts[1..]);
    if |parts| > 1 && ChildEntries(m, k).Some? {
      LowerKeysChild(m, k);
      AssignThenResolve(ChildEntries(m, k).value, parts[1..], v);
    }
  }

  /** The walk from `m` along the first `n` lowercased segments of `parts`
      ends on a value that is not a mapping. */
  predicate BlockedAt(m: Mapping, parts: seq<string>, n: int)
    requires 0 < n <= |parts|
  {
    var w := Resolve(Map(m), LowerAll(parts)[..n]);
    w.Some? && !w.value.Map?
  }

  lemma ResolveStep(m: Mapping, parts: seq<string>, n: int)
    requires 1 < n <= |parts| && LowerKeysValue(Map(m))
    ensures var k := ResolveKey(Keys(m), parts[0]);
            Resolve(Map(m), LowerAll(parts)[..n])
              == if Get(m, k).None? then None else Resolve(Get(m, k).value, LowerAll(parts[1..])[..n - 1])
  {
    ResolveKeyLower(m, parts[0]);
    var path := LowerAll(parts)[..n];
    assert path[0] == Lower(parts[0]);
    assert path[1..] == LowerAll(parts[1..])[..n - 1];
    assert Resolve(Map(m), path)
           == if Get(m, path[0]).None? then None else Resolve(Get(m, path[0]).value, path[1..]);
  }

  lemma NothingBelowEmpty(parts: seq<string>, n: int)
    requires 0 < n <= |parts|
    ensures !BlockedAt([], parts, n)
  {
  }

  lemma BlockedShift(m: Mapping, parts: seq<string>, n: int)
    requires 1 < n <= |parts| && LowerKeysValue(Map(m))
    requires ChildEntries(m, ResolveKey(Keys(m), parts[0])).Some?
    ensures BlockedAt(m, parts, n)
            <==> BlockedAt(ChildEntries(m, ResolveKey(Keys(m), parts[0])).value, parts[1..], n - 1)
  {
    var k := ResolveKey(Keys(m), parts[0]);
    ResolveStep(m, parts, n);
    if Get(m, k).None? {
      NothingBelowEmpty(parts[1..], n - 1);
    }
  }

  lemma AssignErrStep(m: Mapping, parts: seq<string>, v: Value)
    requires |parts| > 1
    requires ChildEntries(m, ResolveKey(Keys(m), parts[0])).Some?
    ensures AssignPath(m, parts, v).Err?
            <==> AssignPath(ChildEntries(m, ResolveKey(Keys(m), parts[0])).value, parts[1..], v).Err?
  {
  }

  lemma BlockedBelow(m: Mapping, parts: seq<string>)
    requires |parts| > 1 && LowerKeysValue(Map(m))
    requires ChildEntries(m, ResolveKey(Keys(m), parts[0])).Some?
    ensures (exists n :: 0 < n < |parts| && BlockedAt(m, parts, n))
            <==> (exists n :: 0 < n < |parts| - 1
                   && BlockedAt(ChildEntries(m, ResolveKey(Keys(m), parts[0])).value, parts[1..], n))
  {
    var k := ResolveKey(Keys(m), parts[0]);
    var es := ChildEntries(m, k).value;
    ResolveKeyLower(m, parts[0]);
    assert LowerAll(parts)[..1] == [k];
    assert !BlockedAt(m, parts, 1);
    forall n | 1 < n < |parts| ensures BlockedAt(m, parts, n) <==> BlockedAt(es, parts[1..], n - 1) {
      BlockedShift(m, parts, n);
    }
    if exists n :: 0 < n < |parts| - 1 && BlockedAt(es, parts[1..], n) {
      var n :| 0 < n < |parts| - 1 && BlockedAt(es, parts[1..], n);
      assert BlockedAt(m, parts, n + 1);
    }
  }

  /** Assignment fails exactly when some proper prefix of the lowercased
      path already ends on a non-mapping value in `m`. */
  lemma {:induction false} AssignFails(m: Mapping, parts: seq<string>, v: Value)
    requires parts != [] && LowerKeysValue(Map(m))
    ensures AssignPath(m, parts, v).Err? <==> exists n :: 0 < n < |parts| && BlockedAt(m, parts, n)
    decreases |parts|
  {
    var k := ResolveKey(Keys(m), parts[0]);
    if |parts| > 1 {
      if ChildEntries(m, k).None? {
        BlockedFirst(m, parts);
      } else {
        LowerKeysChild(m, k);
        AssignFails(ChildEntries(m, k).value, parts[1..], v);
        AssignErrStep(m, parts, v);
        BlockedBelow(m, parts);
      }
    }
  }

  /** A first segment holding a non-mapping value blocks the path there. */
  lemma BlockedFirst(m: Mapping, parts: seq<string>)
    requires |parts| > 1 && LowerKeysValue(Map(m))
    requires ChildEntries(m, ResolveKey(Keys(m), parts[0])).None?
    ensures BlockedAt(m, parts, 1)
  {
    var k := ResolveKey(Keys(m), parts[0]);
    ResolveKeyLower(m, parts[0]);
    assert LowerAll(parts)[..1] == [k];
  }

  lemma CaseUniquePut(m: Mapping, key: string, v: Value)
    requires CaseUnique(Keys(m))
    ensures CaseUnique(Keys(Put(m, ResolveKey(Keys(m), key), v)))
  {
    var keys, k := Keys(m), ResolveKey(Keys(m), key);
    PutKeys(m, k, v);
    if k !in keys {
      var ks := keys + [k];
      forall i, j | 0 <= i < j < |ks| ensures Lower(ks[i]) != Lower(ks[j]) {
        assert ks[i] == keys[i];
        if j == |keys| {
          assert Lower(keys[i]) != Lower(key);
        } else {
          assert ks[j] == keys[j];
        }
      }
    }
  }

  lemma CaseUniqueValuesPut(m: Mapping, k: string, v: Value)
    requires forall i :: 0 <= i < |m| ==> CaseUniqueValue(m[i].1)
    requires CaseUniqueValue(v)
    ensures forall i :: 0 <= i < |Put(m, k, v)| ==> CaseUniqueValue(Put(m, k, v)[i].1)
  {
    forall i | 0 <= i < |Put(m, k, v)| ensures CaseUniqueValue(Put(m, k, v)[i].1) {
      PutEntry(m, k, v, i);
    }
  }

  lemma CaseUniqueChild(m: Mapping, k: string)
    requires CaseUniqueValue(Map(m)) && ChildEntries(m, k).Some?
    ensures CaseUniqueValue(Map(ChildEntries(m, k).value))
  {
    if Get(m, k).Some? {
      var i := GetIndex(m, k);
    }
  }

  /** A mapping never gains two keys that differ only in case, at any
      depth. */
  lemma {:induction false} AssignKeepsCaseUnique(m: Mapping, parts: seq<string>, v: Value)
    requires parts != [] && CaseUniqueValue(Map(m)) && CaseUniqueValue(v)
    ensures AssignPath(m, parts, v).Ok? ==> CaseUniqueValue(Map(AssignPath(m, parts, v).value))
    decreases |parts|
  {
    var k := ResolveKey(Keys(m), parts[0]);
    if |parts| == 1 {
      CaseUniquePut(m, parts[0], v);
      CaseUniqueValuesPut(m, k, v);
    } else if ChildEntries(m, k).Some? {
      CaseUniqueChild(m, k);
      var inner := AssignPath(ChildEntries(m, k).value, parts[1..], v);
      AssignKeepsCaseUnique(ChildEntries(m, k).value, parts[1..], v);
      if inner.Ok? {
        CaseUniquePut(m, parts[0], Map(inner.value));
        CaseUniqueValuesPut(m, k, Map(inner.value));
      }
    }
  }

  /** Top-level keys that do not match the first segment ignoring case are
      left alone. */
  lemma AssignFrame(m: Mapping, parts: seq<string>, v: Value, j: string)
    requires parts != [] && Lower(j) != Lower(parts[0])
    ensures AssignPath(m, parts, v).Ok? ==> Get(AssignPath(m, parts, v).value, j) == Get(m, j)
  {
  }

  /** The top-level keys after the assignment are the old ones, plus at
      most the resolved first segment. */
  lemma AssignKeys(m: Mapping, parts: seq<string>, v: Value)
    requires parts != []
    ensures AssignPath(m, parts, v).Ok? ==>
              Keys(AssignPath(m, parts, v).value) == Keys(Put(m, ResolveKey(Keys(m), parts[0]), v))
  {
    var k := ResolveKey(Keys(m), parts[0]);
    PutKeys(m, k, v);
    if |parts| > 1 && AssignPath(m, parts, v).Ok? {
      PutKeys(m, k, Map(AssignPath(ChildEntries(m, k).value, parts[1..], v).value));
    }
  }
}
