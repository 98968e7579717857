/** The dotenv adapter (adapters/dotenv/default.py): finds the first `.env`
    file walking up from a start directory, then through extra locations,
    and parses its `KEY=value` lines into a nested mapping of strings.

    The filesystem and the file contents are inputs: `fs` says which paths
    are files and `read(p)` gives the lines of file `p`. */
module DotEnv {
  import opened Results
  import opened Text
  import opened Tree
  import opened Paths
  import opened Nesting

  /** Both cases surface as `InvalidFormat`: a line with no `=` (1-based
      line number), or a scalar standing where a nested key needs a
      mapping. */
  datatype DotEnvError = Malformed(line: nat) | ScalarBlocked(segment: string)

  predicate IsQuote(c: char) {
    c == '"' || c == '\''
  }

  /** The value is wrapped in a matching pair of quotes. */
  predicate Quoted(value: string) {
    |value| >= 2 && value[0] == value[|value| - 1] && IsQuote(value[0])
  }

  /** `_strip_quotes`: unwraps one pair of matching quotes; otherwise a
      value starting with `#` is empty and an inline ` #` comment is cut
      off and the rest stripped. */
  function StripQuotes(value: string): (r: string)
    ensures |r| <= |value|
  {
    if Quoted(value) then value[1..|value| - 1]
    else if StartsWith(value, "#") then ""
    else if Contains(value, " #") then Trim(value[..Find(value, " #")])
    else value
  }

  /** Round trip: quoting any text and stripping gives the text back. */
  lemma StripQuotesRoundTrip(s: string, q: char)
    requires IsQuote(q)
    ensures StripQuotes([q] + s + [q]) == s
  {
    var v := [q] + s + [q];
    assert Quoted(v) && v[1..|v| - 1] == s;
  }

  lemma TrimInfix(s: string)
    ensures exists a, b :: 0 <= a <= b <= |s| && Trim(s) == s[a..b]
  {
    var t := TrimStart(s);
    var r := Trim(s);
    var a := |s| - |t|;
    assert t == s[a..];
    assert r == t[..|r|];
    assert r == s[a..a + |r|];
  }

  lemma TrimPrefixInfix(s: string, i: int)
    requires 0 <= i <= |s|
    ensures exists a, b :: 0 <= a <= b <= |s| && Trim(s[..i]) == s[a..b]
  {
    TrimInfix(s[..i]);
    var a, b :| 0 <= a <= b <= i && Trim(s[..i]) == s[..i][a..b];
    assert s[..i][a..b] == s[a..b];
  }

  lemma InfixAvoids(s: string, a: int, b: int, sub: string)
    requires 0 <= a <= b <= |s| && sub != [] && !Contains(s, sub)
    ensures !Contains(s[a..b], sub)
  {
    forall i | OccursAt(s[a..b], sub, i) ensures false {
      OccursInSlice(s, a, b, sub, i);
    }
  }

  /** The result is always a contiguous piece of the value: stripping
      never invents text. */
  lemma StripQuotesInfix(value: string)
    ensures exists a, b :: 0 <= a <= b <= |value| && StripQuotes(value) == value[a..b]
  {
    if Quoted(value) {
      assert StripQuotes(value) == value[1..|value| - 1];
    } else if StartsWith(value, "#") {
      assert StripQuotes(value) == value[0..0];
    } else if Contains(value, " #") {
      TrimPrefixInfix(value, Find(value, " #"));
    } else {
      assert StripQuotes(value) == value[0..|value|];
    }
  }

  /** An unquoted value never keeps an inline ` #` comment. */
  lemma StripQuotesNoComment(value: string)
    requires !Quoted(value)
    ensures !Contains(StripQuotes(value), " #")
  {
    if !StartsWith(value, "#") && Contains(value, " #") {
      var i := Find(value, " #");
      var head := value[..i];
      BeforeFirst(value, " #");
      TrimInfix(head);
      var a, b :| 0 <= a <= b <= |head| && Trim(head) == head[a..b];
      InfixAvoids(head, a, b, " #");
    } else if StartsWith(value, "#") {
      assert Find("", " #") == -1;
    }
  }

  /** What one line of the file is, after stripping: blank or a `#`
      comment, a line without `=`, or a key/value pair. */
  datatype LineKind = Blank | NoEquals | Pair(key: string, value: string)

  /** The pair splits the stripped line at its first `=`; both sides are
      stripped and the value loses its quotes or inline comment. */
  function Classify(raw: string): LineKind {
    var line := Trim(raw);
    if line == "" || StartsWith(line, "#") then Blank
    else
      var i := Find(line, "=");
      if i == -1 then NoEquals
      else if 0 <= i < |line| then Pair(Trim(line[..i]), StripQuotes(Trim(line[i + 1..])))
      else assert false; NoEquals
  }

  /** A line is blank exactly when it strips to nothing or to a comment;
      it lacks `=` exactly when it is not blank and has no `=`; a pair
      splits at the first `=`, both sides stripped and the value
      unquoted. */
  lemma ClassifySpec(raw: string)
    ensures var r := Classify(raw);
            var line := Trim(raw);
            (r.Blank? <==> line == "" || StartsWith(line, "#"))
            && (r.NoEquals? <==> !r.Blank? && '=' !in line)
            && (r.Pair? ==> exists i :: 0 <= i < |line| && line[i] == '=' && '=' !in line[..i]
                              && r.key == Trim(line[..i])
                              && r.value == StripQuotes(Trim(line[i + 1..])))
  {
    var line := Trim(raw);
    FindChar(line, '=');
    if !(line == "" || StartsWith(line, "#")) {
      var i := Find(line, ['=']);
      if i != -1 {
        assert line[i] == '=' && '=' !in line[..i];
      }
    }
  }

  /** A line that counts but has no `=`. */
  predicate IsMalformed(raw: string) {
    Classify(raw).NoEquals?
  }

  /** The classification of every line. */
  function Kinds(lines: seq<string>): (r: seq<LineKind>)
    ensures |r| == |lines|
    ensures forall i :: 0 <= i < |lines| ==> r[i] == Classify(lines[i])
  {
    if lines == [] then [] else [Classify(lines[0])] + Kinds(lines[1..])
  }

  /** `_parse_dotenv` from line number `n` on: blank lines are skipped, a
      line without `=` fails, and each pair is assigned into `acc` with the
      `__` nesting rules. */
  function ParseKinds(acc: Mapping, kinds: seq<LineKind>, n: nat): (r: Result<Mapping, DotEnvError>)
    decreases |kinds|
  {
    if kinds == [] then Ok(acc)
    else
      match kinds[0]
      case Blank => ParseKinds(acc, kinds[1..], n + 1)
      case NoEquals => Err(Malformed(n))
      case Pair(key, value) =>
        var step := AssignPair(acc, key, value);
        if step.Err? then Err(step.error) else ParseKinds(step.value, kinds[1..], n + 1)
  }

  /** `_assign_nested(result, key, value)` for one pair, its failure
      reported as `InvalidFormat`. */
  function AssignPair(acc: Mapping, key: string, value: string): Result<Mapping, DotEnvError> {
    match AssignNested(acc, key, Str(value))
    case Err(segment) => Err(ScalarBlocked(segment))
    case Ok(next) => Ok(next)
  }

  /** `_parse_dotenv(path)` given the file's lines. */
  function ParseDotEnv(lines: seq<string>): Result<Mapping, DotEnvError> {
    ParseKinds([], Kinds(lines), 1)
  }

  lemma {:induction false} KindsOkWellFormed(acc: Mapping, kinds: seq<LineKind>, n: nat)
    ensures ParseKinds(acc, kinds, n).Ok? ==> forall j :: 0 <= j < |kinds| ==> !kinds[j].NoEquals?
    decreases |kinds|
  {
    if kinds != [] && ParseKinds(acc, kinds, n).Ok? {
      var rest := kinds[1..];
      if kinds[0].Blank? {
        KindsOkWellFormed(acc, rest, n + 1);
      } else {
        var next := AssignPair(acc, kinds[0].key, kinds[0].value);
        KindsOkWellFormed(next.value, rest, n + 1);
      }
      forall j | 0 < j < |kinds| ensures !kinds[j].NoEquals? {
        assert kinds[j] == rest[j - 1];
      }
    }
  }

  /** A successful parse means no line was malformed. */
  lemma ParseOkWellFormed(lines: seq<string>)
    ensures ParseDotEnv(lines).Ok? ==> forall j :: 0 <= j < |lines| ==> !IsMalformed(lines[j])
  {
    KindsOkWellFormed([], Kinds(lines), 1);
  }

  /** Index of the first line without `=`, or the number of lines. */
  function FirstBad(kinds: seq<LineKind>): (r: nat)
    ensures r <= |kinds|
    ensures r < |kinds| ==> kinds[r].NoEquals?
    ensures forall j :: 0 <= j < r ==> !kinds[j].NoEquals?
  {
    if kinds == [] || kinds[0].NoEquals? then 0
    else
      var k := FirstBad(kinds[1..]);
      assert forall j :: 0 < j < 1 + k ==> kinds[j] == kinds[1..][j - 1];
      1 + k
  }

  /** A parse that fails after a line that counts fails the same way on
      the remaining lines, from the mapping that line left. */
  lemma ParseTail(acc: Mapping, kinds: seq<LineKind>, n: nat, m: nat) returns (next: Mapping)
    requires kinds != [] && !kinds[0].NoEquals? && ParseKinds(acc, kinds, n) == Err(Malformed(m))
    ensures ParseKinds(next, kinds[1..], n + 1) == Err(Malformed(m))
  {
    next := if kinds[0].Blank? then acc else AssignPair(acc, kinds[0].key, kinds[0].value).value;
  }

  /** A `Malformed` error from line `n` on names the line `FirstBad` finds. */
  lemma {:induction false} MalformedIsFirstBad(acc: Mapping, kinds: seq<LineKind>, n: nat, m: nat)
    requires ParseKinds(acc, kinds, n) == Err(Malformed(m))
    ensures FirstBad(kinds) < |kinds| && m == n + FirstBad(kinds)
    decreases |kinds|
  {
    if !kinds[0].NoEquals? {
      var next := ParseTail(acc, kinds, n, m);
      MalformedIsFirstBad(next, kinds[1..], n + 1, m);
    }
  }

  /** A `Malformed` error names the first malformed line, counting from 1. */
  lemma ParseMalformedFirst(lines: seq<string>, m: nat)
    requires ParseDotEnv(lines) == Err(Malformed(m))
    ensures 1 <= m <= |lines| && IsMalformed(lines[m - 1])
    ensures forall j :: 0 <= j < m - 1 ==> !IsMalformed(lines[j])
  {
    MalformedIsFirstBad([], Kinds(lines), 1, m);
  }

  /** Every leaf is a string: dotenv values are never coerced. */
  predicate StrLeaves(v: Value) {
    match v
    case Map(es) => forall i :: 0 <= i < |es| ==> StrLeaves(es[i].1)
    case Str(_) => true
    case _ => false
  }

  lemma StrLeavesPut(m: Mapping, k: string, v: Value)
    requires StrLeaves(Map(m)) && StrLeaves(v)
    ensures StrLeaves(Map(Put(m, k, v)))
  {
    var r := Put(m, k, v);
    forall i | 0 <= i < |r| ensures StrLeaves(r[i].1) {
      PutEntry(m, k, v, i);
    }
  }

  lemma StrLeavesChild(m: Mapping, k: string)
    requires StrLeaves(Map(m)) && ChildEntries(m, k).Some?
    ensures StrLeaves(Map(ChildEntries(m, k).value))
  {
    if Get(m, k).Some? {
      var i := GetIndex(m, k);
    }
  }

  lemma {:induction false} AssignKeepsStr(m: Mapping, parts: seq<string>, s: string)
    requires parts != [] && StrLeaves(Map(m))
    ensures AssignPath(m, parts, Str(s)).Ok? ==> StrLeaves(Map(AssignPath(m, parts, Str(s)).value))
    decreases |parts|
  {
    var k := ResolveKey(Keys(m), parts[0]);
    if |parts| == 1 {
      StrLeavesPut(m, k, Str(s));
    } else if ChildEntries(m, k).Some? {
      StrLeavesChild(m, k);
      var inner := AssignPath(ChildEntries(m, k).value, parts[1..], Str(s));
      AssignKeepsStr(ChildEntries(m, k).value, parts[1..], s);
      if inner.Ok? {
        StrLeavesPut(m, k, Map(inner.value));
      }
    }
  }

  /** Shape kept line by line: lowercase, case-unique keys over string
      leaves. */
  predicate DotEnvShape(m: Mapping) {
    StrLeaves(Map(m)) && LowerKeysValue(Map(m)) && CaseUniqueValue(Map(m))
  }

  lemma {:induction false} KindsShape(acc: Mapping, kinds: seq<LineKind>, n: nat)
    requires DotEnvShape(acc)
    ensures ParseKinds(acc, kinds, n).Ok? ==> DotEnvShape(ParseKinds(acc, kinds, n).value)
    decreases |kinds|
  {
    if kinds != [] && kinds[0].Blank? {
      KindsShape(acc, kinds[1..], n + 1);
    } else if kinds != [] && kinds[0].Pair? {
      var parts := Split(kinds[0].key, "__");
      var v := kinds[0].value;
      AssignKeepsStr(acc, parts, v);
      AssignKeepsLower(acc, parts, Str(v));
      AssignKeepsCaseUnique(acc, parts, Str(v));
      var next := AssignNested(acc, kinds[0].key, Str(v));
      if next.Ok? {
        KindsShape(next.value, kinds[1..], n + 1);
      }
    }
  }

  /** A parsed file holds only strings, under lowercase keys that are
      unique ignoring case. */
  lemma ParseShape(lines: seq<string>)
    ensures ParseDotEnv(lines).Ok? ==> DotEnvShape(ParseDotEnv(lines).value)
  {
    KindsShape([], Kinds(lines), 1);
  }

  /** `Path(start_dir) if start_dir else Path.cwd()`. */
  function StartBase(startDir: Option<string>, cwd: Path): (r: Path)
    ensures startDir.None? || startDir == Some("") ==> r == cwd
  {
    if startDir.Some? && startDir.value != "" then Parse(startDir.value) else cwd
  }

  /** `_iter_candidates(start_dir)` followed by the extras. */
  function Candidates(base: Path, extras: seq<Path>): (r: seq<Path>)
    ensures |r| == |base.parts| + 1 + |extras|
    ensures forall i :: 0 <= i <= |base.parts| ==>
              r[i] == Path(base.absolute, base.parts[..|base.parts| - i] + [".env"])
    ensures r[|base.parts| + 1..] == extras
  {
    EachChild(SelfAndParents(base), ".env") + extras
  }

  /** Index of the first candidate that is a file, or -1. */
  function FirstFile(fs: FileSystem, cands: seq<Path>): (r: int)
    ensures -1 <= r < |cands|
    ensures r >= 0 ==> IsFile(fs, cands[r]) && forall j :: 0 <= j < r ==> !IsFile(fs, cands[j])
    ensures r == -1 <==> forall j :: 0 <= j < |cands| ==> !IsFile(fs, cands[j])
  {
    if cands == [] then -1
    else if IsFile(fs, cands[0]) then 0
    else
      var r := FirstFile(fs, cands[1..]);
      assert forall j :: 1 <= j < |cands| ==> cands[j] == cands[1..][j - 1];
      if r == -1 then -1 else r + 1
  }

  /** The parsed data together with `last_loaded_path`. */
  datatype DotEnvLoad = DotEnvLoad(data: Result<Mapping, DotEnvError>, lastLoaded: Option<Path>)

  /** `DefaultDotEnvLoader(extras).load(start_dir)`: the first candidate
      that is a file is parsed and remembered, even when parsing fails. */
  function Load(fs: FileSystem, read: Path -> seq<string>, extras: seq<Path>,
                startDir: Option<string>, cwd: Path): DotEnvLoad
  {
    var cands := Candidates(StartBase(startDir, cwd), extras);
    var i := FirstFile(fs, cands);
    if i == -1 then DotEnvLoad(Ok([]), None)
    else DotEnvLoad(ParseDotEnv(read(cands[i])), Some(cands[i]))
  }

  /** The file loaded is the first existing candidate and its lines are
      the only ones read; with none, the result is empty and no path is
      recorded. */
  lemma LoadPicksFirst(fs: FileSystem, read: Path -> seq<string>, extras: seq<Path>,
                       startDir: Option<string>, cwd: Path)
    ensures var cands := Candidates(StartBase(startDir, cwd), extras);
            var r := Load(fs, read, extras, startDir, cwd);
            (r.lastLoaded.None? <==> forall j :: 0 <= j < |cands| ==> !IsFile(fs, cands[j]))
            && (r.lastLoaded.None? ==> r.data == Ok([]))
            && (r.lastLoaded.Some? ==>
                  r.data == ParseDotEnv(read(r.lastLoaded.value))
                  && exists i :: 0 <= i < |cands| && cands[i] == r.lastLoaded.value && IsFile(fs, cands[i])
                                 && forall j :: 0 <= j < i ==> !IsFile(fs, cands[j]))
  {
  }

  /** A `.env` in the start directory itself always wins. */
  lemma NearestWins(fs: FileSystem, read: Path -> seq<string>, extras: seq<Path>,
                    startDir: Option<string>, cwd: Path)
    requires var base := StartBase(startDir, cwd);
             IsFile(fs, Path(base.absolute, base.parts + [".env"]))
    ensures var base := StartBase(startDir, cwd);
            Load(fs, read, extras, startDir, cwd).lastLoaded == Some(Path(base.absolute, base.parts + [".env"]))
  {
    var base := StartBase(startDir, cwd);
    assert base.parts[..|base.parts| - 0] == base.parts;
  }

  /** An extra location is used only when no directory on the way up
      holds a `.env` file. */
  lemma ExtrasLast(fs: FileSystem, read: Path -> seq<string>, extras: seq<Path>,
                   startDir: Option<string>, cwd: Path, k: nat)
    requires var base := StartBase(startDir, cwd);
             k <= |base.parts| && IsFile(fs, Path(base.absolute, base.parts[..k] + [".env"]))
    ensures Load(fs, read, extras, startDir, cwd).lastLoaded.Some?
    ensures var base := StartBase(startDir, cwd);
            var cands := Candidates(base, extras);
            Load(fs, read, extras, startDir, cwd).lastLoaded.value in cands[..|base.parts| + 1]
  {
    var base := StartBase(startDir, cwd);
    var cands := Candidates(base, extras);
    var i := |base.parts| - k;
    assert cands[i] == Path(base.absolute, base.parts[..k] + [".env"]);
    var f := FirstFile(fs, cands);
    assert f <= i;
    assert cands[f] == cands[..|base.parts| + 1][f];
  }
}
