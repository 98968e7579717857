/** String helpers mirroring the handful of Python `str` methods the
    library relies on (`lower`, `upper`, `strip`, `startswith`, `split`,
    `join`, `replace`). Only ASCII case mapping is modelled; whitespace
    is Python's full `isspace` set. */
module Text {

  function LowerChar(c: char): char {
    if 'A' <= c <= 'Z' then (c as int + 32) as char else c
  }

  function UpperChar(c: char): char {
    if 'a' <= c <= 'z' then (c as int - 32) as char else c
  }

  /** `str.lower()` restricted to ASCII letters. */
  function Lower(s: string): (r: string)
    ensures |r| == |s|
    ensures forall i :: 0 <= i < |s| ==> r[i] == LowerChar(s[i])
  {
    if s == [] then [] else [LowerChar(s[0])] + Lower(s[1..])
  }

  /** `[s.lower() for s in ss]`. */
  function LowerAll(ss: seq<string>): (r: seq<string>)
    ensures |r| == |ss|
    ensures forall i :: 0 <= i < |ss| ==> r[i] == Lower(ss[i])
  {
    if ss == [] then [] else [Lower(ss[0])] + LowerAll(ss[1..])
  }

  /** `str.upper()` restricted to ASCII letters. */
  function Upper(s: string): (r: string)
    ensures |r| == |s|
    ensures forall i :: 0 <= i < |s| ==> r[i] == UpperChar(s[i])
  {
    if s == [] then [] else [UpperChar(s[0])] + Upper(s[1..])
  }

  lemma LowerIdempotent(s: string)
    ensures Lower(Lower(s)) == Lower(s)
  {
  }

  lemma LowerOfUpper(s: string)
    ensures Lower(Upper(s)) == Lower(s)
  {
  }

  lemma LowerAppend(a: string, b: string)
    ensures Lower(a + b) == Lower(a) + Lower(b)
  {
    assert forall i :: 0 <= i < |a + b| ==> Lower(a + b)[i] == (Lower(a) + Lower(b))[i];
  }

  predicate StartsWith(s: string, prefix: string) {
    |prefix| <= |s| && s[..|prefix|] == prefix
  }

  predicate EndsWith(s: string, suffix: string) {
    |suffix| <= |s| && s[|s| - |suffix|..] == suffix
  }

  /** Python's `str.isspace()`, the characters `str.strip()` removes: tab
      to carriage return, the four information separators, space, next
      line, no-break space, the Ogham space mark, the en quad to the hair
      space, the line and paragraph separators, the narrow no-break space,
      the medium mathematical space and the ideographic space. */
  predicate IsSpace(c: char) {
    ('\t' <= c <= '\r') || ('\U{1c}' <= c <= ' ') || c == '\U{85}' || c == '\U{a0}' || c == '\U{1680}'
    || ('\U{2000}' <= c <= '\U{200a}') || c == '\U{2028}' || c == '\U{2029}' || c == '\U{202f}'
    || c == '\U{205f}' || c == '\U{3000}'
  }

  /** `str.lstrip()` without arguments. */
  function TrimStart(s: string): (r: string)
    ensures |r| <= |s| && r == s[|s| - |r|..]
    ensures r == [] || !IsSpace(r[0])
  {
    if s != [] && IsSpace(s[0]) then TrimStart(s[1..]) else s
  }

  /** `str.rstrip()` without arguments. */
  function TrimEnd(s: string): (r: string)
    ensures |r| <= |s| && r == s[..|r|]
    ensures r == [] || !IsSpace(r[|r| - 1])
  {
    if s != [] && IsSpace(s[|s| - 1]) then TrimEnd(s[..|s| - 1]) else s
  }

  /** `str.strip()` without arguments. */
  function Trim(s: string): (r: string)
    ensures |r| <= |s|
    ensures r == [] || (!IsSpace(r[0]) && !IsSpace(r[|r| - 1]))
  {
    TrimEnd(TrimStart(s))
  }

  /** `str.lstrip(c)` for a single character `c`. */
  function DropLeading(s: string, c: char): string {
    if s != [] && s[0] == c then DropLeading(s[1..], c) else s
  }

  /** The result is the suffix of `s` left after its leading run of `c`. */
  lemma {:induction false} DropLeadingSpec(s: string, c: char)
    ensures var r := DropLeading(s, c);
            |r| <= |s| && r == s[|s| - |r|..] && (r == [] || r[0] != c)
            && forall i :: 0 <= i < |s| - |r| ==> s[i] == c
    decreases |s|
  {
    if s != [] && s[0] == c {
      DropLeadingSpec(s[1..], c);
    }
  }

  /** `str.replace(a, b)` for single characters. */
  function ReplaceChar(s: string, a: char, b: char): (r: string)
    ensures |r| == |s|
    ensures forall i :: 0 <= i < |s| ==> r[i] == (if s[i] == a then b else s[i])
  {
    if s == [] then [] else [if s[0] == a then b else s[0]] + ReplaceChar(s[1..], a, b)
  }

  /** `sep` occurs in `s` at index `i`. */
  predicate OccursAt(s: string, sep: string, i: int) {
    0 <= i && i + |sep| <= |s| && s[i..i + |sep|] == sep
  }

  /** An occurrence inside the slice `s[a..b]` is an occurrence in `s`. */
  lemma OccursInSlice(s: string, a: int, b: int, sep: string, i: int)
    requires 0 <= a <= b <= |s| && OccursAt(s[a..b], sep, i)
    ensures OccursAt(s, sep, a + i)
  {
    var r := s[a..b];
    forall k | 0 <= k < |sep| ensures s[a + i..a + i + |sep|][k] == sep[k] {
      assert r[i..i + |sep|][k] == r[i + k];
    }
  }

  /** The part of `s` before the first occurrence of `sep` contains no
      occurrence of it. */
  lemma BeforeFirst(s: string, sep: string)
    requires sep != [] && Contains(s, sep)
    ensures !Contains(s[..Find(s, sep)], sep)
  {
    var i := Find(s, sep);
    forall j ensures !OccursAt(s[..i], sep, j) {
      if 0 <= j && j + |sep| <= i {
        assert !OccursAt(s, sep, j);
        assert s[..i][j..j + |sep|] == s[j..j + |sep|];
      }
    }
  }

  /** Index of the first occurrence of the non-empty `sep` in `s` at or
      after `from`, or -1. */
  function FindFrom(s: string, sep: string, from: nat): (r: int)
    requires sep != []
    requires from <= |s|
    ensures r == -1 || (from <= r && OccursAt(s, sep, r))
    ensures r == -1 ==> forall i :: from <= i ==> !OccursAt(s, sep, i)
    ensures r != -1 ==> forall i :: from <= i < r ==> !OccursAt(s, sep, i)
    decreases |s| - from
  {
    if from + |sep| > |s| then -1
    else if s[from..from + |sep|] == sep then from
    else FindFrom(s, sep, from + 1)
  }

  /** `s.find(sep)`. */
  function Find(s: string, sep: string): (r: int)
    requires sep != []
    ensures r == -1 || OccursAt(s, sep, r)
    ensures r == -1 <==> forall i :: !OccursAt(s, sep, i)
    ensures r != -1 ==> forall i :: 0 <= i < r ==> !OccursAt(s, sep, i)
  {
    FindFrom(s, sep, 0)
  }

  /** The first occurrence of a character: where it is, and that it is
      nowhere before; or that it is nowhere at all. */
  lemma FindChar(s: string, c: char)
    ensures var i := Find(s, [c]);
            (i == -1 ==> c !in s)
            && (i != -1 ==> 0 <= i < |s| && s[i] == c && c !in s[..i])
  {
    var i := Find(s, [c]);
    if i == -1 {
      forall j | 0 <= j < |s| ensures s[j] != c {
        assert !OccursAt(s, [c], j);
      }
    } else {
      assert OccursAt(s, [c], i);
      forall j | 0 <= j < i ensures s[j] != c {
        assert !OccursAt(s, [c], j);
      }
    }
  }

  predicate Contains(s: string, sub: string)
    requires sub != []
  {
    Find(s, sub) != -1
  }

  /** `s.split(sep)` for a non-empty separator: every occurrence splits. */
  function Split(s: string, sep: string): (r: seq<string>)
    requires sep != []
    ensures |r| >= 1
    decreases |s|
  {
    var i := Find(s, sep);
    if i == -1 then [s] else [s[..i]] + Split(s[i + |sep|..], sep)
  }

  /** `sep.join(parts)`. */
  function Join(parts: seq<string>, sep: string): string {
    if parts == [] then []
    else if |parts| == 1 then parts[0]
    else parts[0] + sep + Join(parts[1..], sep)
  }

  lemma {:induction false} JoinSnoc(parts: seq<string>, last: string, sep: string)
    requires parts != []
    ensures Join(parts + [last], sep) == Join(parts, sep) + sep + last
    decreases |parts|
  {
    if |parts| == 1 {
      assert parts + [last] == [parts[0], last];
    } else {
      assert (parts + [last])[1..] == parts[1..] + [last];
      JoinSnoc(parts[1..], last, sep);
    }
  }

  /** A part free of the separator character splits off at the first
      separator. */
  lemma SplitCons(p: string, rest: string, c: char)
    requires c !in p
    ensures Split(p + [c] + rest, [c]) == [p] + Split(rest, [c])
  {
    var s := p + [c] + rest;
    assert OccursAt(s, [c], |p|) by { assert s[|p|..|p| + 1] == [c]; }
    forall i | 0 <= i < |p|
      ensures !OccursAt(s, [c], i)
    {
      assert s[i..i + 1] == [p[i]];
      assert p[i] in p;
    }
    assert Find(s, [c]) == |p|;
    assert s[..|p|] == p;
    assert s[|p| + 1..] == rest;
  }

  /** A string free of the separator character splits into itself. */
  lemma SplitSingle(p: string, c: char)
    requires c !in p
    ensures Split(p, [c]) == [p]
  {
    forall i | 0 <= i < |p|
      ensures !OccursAt(p, [c], i)
    {
      assert p[i..i + 1] == [p[i]];
      assert p[i] in p;
    }
  }

  /** Splitting on a one-character separator undoes joining parts that do
      not contain it. */
  lemma {:induction false} SplitJoin(parts: seq<string>, c: char)
    requires parts != []
    requires forall i :: 0 <= i < |parts| ==> c !in parts[i]
    ensures Split(Join(parts, [c]), [c]) == parts
    decreases |parts|
  {
    if |parts| == 1 {
      SplitSingle(parts[0], c);
    } else {
      SplitCons(parts[0], Join(parts[1..], [c]), c);
      SplitJoin(parts[1..], c);
      assert parts == [parts[0]] + parts[1..];
    }
  }

  /** Joined parts free of the separator split back off the front of a
      longer string. */
  lemma {:induction false} SplitConcat(parts: seq<string>, rest: string, c: char)
    requires parts != []
    requires forall i :: 0 <= i < |parts| ==> c !in parts[i]
    ensures Split(Join(parts, [c]) + [c] + rest, [c]) == parts + Split(rest, [c])
    decreases |parts|
  {
    if |parts| == 1 {
      SplitCons(parts[0], rest, c);
    } else {
      var head, others := parts[0], parts[1..];
      var tail := Join(others, [c]) + [c] + rest;
      assert Join(parts, [c]) == head + [c] + Join(others, [c]);
      assert forall i :: 0 <= i < |others| ==> c !in others[i] by {
        forall i | 0 <= i < |others| ensures c !in others[i] {
          assert others[i] == parts[i + 1];
        }
      }
      calc {
        Split(Join(parts, [c]) + [c] + rest, [c]);
        { assert Join(parts, [c]) + [c] + rest == head + [c] + tail; }
        Split(head + [c] + tail, [c]);
        { assert c !in parts[0]; SplitCons(head, tail, c); }
        [head] + Split(tail, [c]);
        { SplitConcat(others, rest, c); }
        [head] + (others + Split(rest, [c]));
        { assert parts == [head] + others; }
        parts + Split(rest, [c]);
      }
    }
  }

  /** Joining two non-empty part lists puts one separator between them. */
  lemma {:induction false} JoinConcat(a: seq<string>, b: seq<string>, sep: string)
    requires a != [] && b != []
    ensures Join(a + b, sep) == Join(a, sep) + sep + Join(b, sep)
    decreases |a|
  {
    if |a| == 1 {
      assert (a + b)[1..] == b;
    } else {
      assert (a + b)[1..] == a[1..] + b;
      JoinConcat(a[1..], b, sep);
    }
  }

  /** Split cuts at the first separator found. */
  lemma SplitAtFirst(s: string, c: char, i: int)
    requires i == Find(s, [c]) && i != -1
    ensures Split(s, [c]) == [s[..i]] + Split(s[i + 1..], [c])
  {
  }

  /** The first separator found cuts `s` into head, separator and rest. */
  lemma CutAtFirst(s: string, c: char, i: int)
    requires i == Find(s, [c]) && i != -1
    ensures i < |s| && s == s[..i] + [c] + s[i + 1..]
  {
    assert OccursAt(s, [c], i);
    assert s[i..i + 1] == [c];
    assert s == s[..i] + s[i..i + 1] + s[i + 1..];
  }

  /** Joining the parts of a split gives the string back. */
  lemma {:induction false} JoinSplit(s: string, c: char)
    ensures Join(Split(s, [c]), [c]) == s
    decreases |s|
  {
    var i := Find(s, [c]);
    if i != -1 {
      SplitAtFirst(s, c, i);
      CutAtFirst(s, c, i);
      var head, rest := s[..i], s[i + 1..];
      JoinSplit(rest, c);
      JoinConcat([head], Split(rest, [c]), [c]);
    }
  }
}
