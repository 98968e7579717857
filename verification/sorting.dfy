/** Python's `sorted`: a stable sort by an integer key, and the sort of names. The library sorts
    twice — file paths by preferred-suffix rank (core.py) and directory
    entries by name (the path resolver) — and both rely on stability or on
    names being distinct. Modelled as an insertion sort over sequences. */
module Sorting {

  predicate SortedBy<T>(s: seq<T>, key: T -> int) {
    forall i, j :: 0 <= i < j < |s| ==> key(s[i]) <= key(s[j])
  }

  /** Places `x` before the first element with a larger key, so it follows
      every element whose key it shares. */
  function Insert<T>(x: T, s: seq<T>, key: T -> int): (r: seq<T>)
    ensures |r| == |s| + 1
  {
    if s == [] then [x]
    else if key(x) < key(s[0]) then [x] + s
    else [s[0]] + Insert(x, s[1..], key)
  }

  /** `sorted(s, key=key)`. */
  function Sort<T>(s: seq<T>, key: T -> int): (r: seq<T>)
    ensures |r| == |s|
  {
    if s == [] then []
    else Insert(s[|s| - 1], Sort(s[..|s| - 1], key), key)
  }

  lemma {:induction false} InsertPermutes<T>(x: T, s: seq<T>, key: T -> int)
    ensures multiset(Insert(x, s, key)) == multiset(s) + multiset{x}
    decreases |s|
  {
    if s != [] && key(x) >= key(s[0]) {
      InsertPermutes(x, s[1..], key);
      assert s == [s[0]] + s[1..];
    }
  }

  /** The output is a permutation of the input. */
  lemma {:induction false} SortPermutes<T>(s: seq<T>, key: T -> int)
    ensures multiset(Sort(s, key)) == multiset(s)
    decreases |s|
  {
    if s != [] {
      SortPermutes(s[..|s| - 1], key);
      InsertPermutes(s[|s| - 1], Sort(s[..|s| - 1], key), key);
      assert s == s[..|s| - 1] + [s[|s| - 1]];
    }
  }

  lemma {:induction false} InsertSorted<T>(x: T, s: seq<T>, key: T -> int)
    requires SortedBy(s, key)
    ensures SortedBy(Insert(x, s, key), key)
    decreases |s|
  {
    if s != [] && key(x) >= key(s[0]) {
      var rest := Insert(x, s[1..], key);
      InsertSorted(x, s[1..], key);
      InsertPermutes(x, s[1..], key);
      forall k | 0 <= k < |rest| ensures key(s[0]) <= key(rest[k]) {
        assert rest[k] in multiset(rest);
        assert rest[k] in multiset(s[1..]) || rest[k] == x;
        if rest[k] != x {
          var j :| 0 <= j < |s[1..]| && s[1..][j] == rest[k];
          assert s[j + 1] == rest[k];
        }
      }
    }
  }

  /** The output is ordered by key. */
  lemma {:induction false} SortSorted<T>(s: seq<T>, key: T -> int)
    ensures SortedBy(Sort(s, key), key)
    decreases |s|
  {
    if s != [] {
      SortSorted(s[..|s| - 1], key);
      InsertSorted(s[|s| - 1], Sort(s[..|s| - 1], key), key);
    }
  }

  /** The elements of `s` whose key is `k`, in their order in `s`. */
  function WithKey<T>(s: seq<T>, k: int, key: T -> int): (r: seq<T>)
    ensures |r| <= |s|
  {
    if s == [] then []
    else (if key(s[0]) == k then [s[0]] else []) + WithKey(s[1..], k, key)
  }

  lemma WithKeyCons<T>(a: T, s: seq<T>, k: int, key: T -> int)
    ensures WithKey([a] + s, k, key) == (if key(a) == k then [a] else []) + WithKey(s, k, key)
  {
    assert ([a] + s)[1..] == s;
  }

  lemma {:induction false} WithKeySnoc<T>(s: seq<T>, y: T, k: int, key: T -> int)
    ensures WithKey(s + [y], k, key) == WithKey(s, k, key) + (if key(y) == k then [y] else [])
    decreases |s|
  {
    if s == [] {
      assert [] + [y] == [y];
    } else {
      assert (s + [y])[1..] == s[1..] + [y];
      WithKeySnoc(s[1..], y, k, key);
    }
  }

  lemma {:induction false} NoneWithKey<T>(s: seq<T>, k: int, key: T -> int)
    requires forall i :: 0 <= i < |s| ==> key(s[i]) != k
    ensures WithKey(s, k, key) == []
    decreases |s|
  {
    if s != [] {
      NoneWithKey(s[1..], k, key);
    }
  }

  lemma InsertWithKeyFront<T>(y: T, s: seq<T>, k: int, key: T -> int)
    requires SortedBy(s, key) && s != [] && key(y) < key(s[0])
    ensures WithKey([y] + s, k, key) == WithKey(s, k, key) + (if key(y) == k then [y] else [])
  {
    WithKeyCons(y, s, k, key);
    if key(y) == k {
      assert forall i :: 0 <= i < |s| ==> key(s[0]) <= key(s[i]);
      NoneWithKey(s, k, key);
    }
  }

  lemma {:induction false} InsertWithKey<T>(y: T, s: seq<T>, k: int, key: T -> int)
    requires SortedBy(s, key)
    ensures WithKey(Insert(y, s, key), k, key) == WithKey(s, k, key) + (if key(y) == k then [y] else [])
    decreases |s|
  {
    if s == [] {
      WithKeyCons(y, [], k, key);
    } else if key(y) < key(s[0]) {
      InsertWithKeyFront(y, s, k, key);
    } else {
      var rest := Insert(y, s[1..], key);
      assert Insert(y, s, key) == [s[0]] + rest;
      assert SortedBy(s[1..], key);
      InsertWithKey(y, s[1..], k, key);
      WithKeyCons(s[0], rest, k, key);
      WithKeyCons(s[0], s[1..], k, key);
      assert s == [s[0]] + s[1..];
    }
  }

  /** Stability: the elements sharing a key keep their input order. */
  lemma {:induction false} SortStable<T>(s: seq<T>, k: int, key: T -> int)
    ensures WithKey(Sort(s, key), k, key) == WithKey(s, k, key)
    decreases |s|
  {
    if s != [] {
      var init, last := s[..|s| - 1], s[|s| - 1];
      assert Sort(s, key) == Insert(last, Sort(init, key), key);
      SortStable(init, k, key);
      SortSorted(init, key);
      InsertWithKey(last, Sort(init, key), k, key);
      assert init + [last] == s;
      WithKeySnoc(init, last, k, key);
    }
  }

  lemma {:induction false} InsertSameKeys<T>(x: T, s: seq<T>, k1: T -> int, k2: T -> int)
    requires k1(x) == k2(x) && forall i :: 0 <= i < |s| ==> k1(s[i]) == k2(s[i])
    ensures Insert(x, s, k1) == Insert(x, s, k2)
    decreases |s|
  {
    if s != [] {
      InsertSameKeys(x, s[1..], k1, k2);
    }
  }

  /** Only the keys of the elements present matter: two key functions that
      agree on them sort the same way. */
  lemma {:induction false} SortSameKeys<T>(s: seq<T>, k1: T -> int, k2: T -> int)
    requires forall i :: 0 <= i < |s| ==> k1(s[i]) == k2(s[i])
    ensures Sort(s, k1) == Sort(s, k2)
    decreases |s|
  {
    if s != [] {
      var init := s[..|s| - 1];
      SortSameKeys(init, k1, k2);
      SortPermutes(init, k1);
      forall i | 0 <= i < |Sort(init, k1)| ensures k1(Sort(init, k1)[i]) == k2(Sort(init, k1)[i]) {
        var y := Sort(init, k1)[i];
        assert y in multiset(Sort(init, k1));
        assert y in multiset(init);
        var j :| 0 <= j < |init| && init[j] == y;
        assert s[j] == y;
      }
      InsertSameKeys(s[|s| - 1], Sort(init, k1), k1, k2);
    }
  }

  /** Two elements swap exactly when the second has the smaller key. */
  lemma SortTwo<T>(a: T, b: T, key: T -> int)
    ensures Sort([a, b], key) == if key(b) < key(a) then [b, a] else [a, b]
  {
    assert [a, b][..1] == [a];
    assert [a][..0] == [];
    assert Sort([a], key) == Insert(a, [], key) == [a];
    assert Sort([a, b], key) == Insert(b, [a], key);
    if key(b) >= key(a) {
      assert [a][1..] == [];
    }
  }

  /** Python's `<=` on strings: code-point lexicographic order. */
  predicate LexLe(a: string, b: string) {
    a == [] || (b != [] && (a[0] < b[0] || (a[0] == b[0] && LexLe(a[1..], b[1..]))))
  }

  lemma {:induction false} LexTotal(a: string, b: string)
    ensures LexLe(a, b) || LexLe(b, a)
    decreases |a|
  {
    if a != [] && b != [] && a[0] == b[0] {
      LexTotal(a[1..], b[1..]);
    }
  }

  lemma {:induction false} LexTrans(a: string, b: string, c: string)
    requires LexLe(a, b) && LexLe(b, c)
    ensures LexLe(a, c)
    decreases |a|
  {
    if a != [] && a[0] == b[0] && b[0] == c[0] {
      LexTrans(a[1..], b[1..], c[1..]);
    }
  }

  lemma {:induction false} LexAntisymmetric(a: string, b: string)
    requires LexLe(a, b) && LexLe(b, a)
    ensures a == b
    decreases |a|
  {
    if a != [] {
      LexAntisymmetric(a[1..], b[1..]);
      assert a == [a[0]] + a[1..] && b == [b[0]] + b[1..];
    }
  }

  /** `sorted(names)`: names in lexicographic order. */
  function SortNames(s: seq<string>): (r: seq<string>)
    ensures |r| == |s|
  {
    if s == [] then []
    else InsertName(s[|s| - 1], SortNames(s[..|s| - 1]))
  }

  function InsertName(x: string, s: seq<string>): (r: seq<string>)
    ensures |r| == |s| + 1
  {
    if s == [] then [x]
    else if !LexLe(s[0], x) then [x] + s
    else [s[0]] + InsertName(x, s[1..])
  }

  lemma {:induction false} InsertNamePermutes(x: string, s: seq<string>)
    ensures multiset(InsertName(x, s)) == multiset(s) + multiset{x}
    decreases |s|
  {
    if s != [] && LexLe(s[0], x) {
      InsertNamePermutes(x, s[1..]);
      assert s == [s[0]] + s[1..];
    }
  }

  /** The output is a permutation of the input. */
  lemma {:induction false} SortNamesPermutes(s: seq<string>)
    ensures multiset(SortNames(s)) == multiset(s)
    decreases |s|
  {
    if s != [] {
      SortNamesPermutes(s[..|s| - 1]);
      InsertNamePermutes(s[|s| - 1], SortNames(s[..|s| - 1]));
      assert s == s[..|s| - 1] + [s[|s| - 1]];
    }
  }

  predicate NamesSorted(s: seq<string>) {
    forall i, j :: 0 <= i < j < |s| ==> LexLe(s[i], s[j])
  }

  lemma {:induction false} InsertNameSorted(x: string, s: seq<string>)
    requires NamesSorted(s)
    ensures NamesSorted(InsertName(x, s))
    decreases |s|
  {
    if s != [] {
      if !LexLe(s[0], x) {
        LexTotal(s[0], x);
        forall j | 0 < j < |s| ensures LexLe(x, s[j]) {
          LexTrans(x, s[0], s[j]);
        }
        assert forall j | 0 <= j < |s| :: ([x] + s)[j + 1] == s[j];
      } else {
        var rest := InsertName(x, s[1..]);
        InsertNameSorted(x, s[1..]);
        InsertNamePermutes(x, s[1..]);
        forall k | 0 <= k < |rest| ensures LexLe(s[0], rest[k]) {
          assert rest[k] in multiset(rest);
          assert rest[k] in multiset(s[1..]) || rest[k] == x;
          if rest[k] != x {
            var j :| 0 <= j < |s[1..]| && s[1..][j] == rest[k];
            assert s[j + 1] == rest[k];
          }
        }
      }
    }
  }

  /** The output is in lexicographic order. */
  lemma {:induction false} SortNamesSorted(s: seq<string>)
    ensures NamesSorted(SortNames(s))
    decreases |s|
  {
    if s != [] {
      SortNamesSorted(s[..|s| - 1]);
      InsertNameSorted(s[|s| - 1], SortNames(s[..|s| - 1]));
    }
  }

  /** The elements `keep` accepts, in their order. */
  function Filter<T(!new)>(s: seq<T>, keep: T -> bool): (r: seq<T>)
    ensures |r| <= |s|
    ensures forall x :: x in r <==> x in s && keep(x)
  {
    if s == [] then [] else (if keep(s[0]) then [s[0]] else []) + Filter(s[1..], keep)
  }

  /** Filtering a sorted list of names keeps it sorted. */
  lemma {:induction false} FilterNamesSorted(s: seq<string>, keep: string -> bool)
    requires NamesSorted(s)
    ensures NamesSorted(Filter(s, keep))
    decreases |s|
  {
    if s != [] {
      var rest := Filter(s[1..], keep);
      FilterNamesSorted(s[1..], keep);
      if keep(s[0]) {
        var r := [s[0]] + rest;
        forall i, j | 0 <= i < j < |r| ensures LexLe(r[i], r[j]) {
          if i == 0 {
            assert r[j] in s[1..];
            var k :| 0 <= k < |s[1..]| && s[1..][k] == r[j];
            assert s[k + 1] == r[j];
          } else {
            assert r[i] == rest[i - 1] && r[j] == rest[j - 1];
          }
        }
      }
    }
  }
}
