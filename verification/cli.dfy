/** The command line's argument normalisers (cli.py): preferred suffixes,
    deployment targets and the two platform alias tables. Click's command
    wiring is not modelled; a `click.BadParameter` is the `Err` of a
    `Result`. */
module Cli {
  import opened Results
  import opened Text
  import opened Paths
  import opened Sorting
  import Core
  import Generate
  import PathResolver

  /** `_normalize_prefer`: no suffixes means no preference; otherwise each
      suffix lowercased with its leading dots removed. */
  function NormalizePrefer(values: seq<string>): Option<seq<string>> {
    if values == [] then None else Some(Core.PreferKeys(values))
  }

  /** Normalising one suffix twice changes nothing more. */
  lemma PreferKeyIdempotent(s: string)
    ensures Core.PreferKey(Core.PreferKey(s)) == Core.PreferKey(s)
  {
    var l := Lower(s);
    var r := DropLeading(l, '.');
    DropLeadingSpec(l, '.');
    var k := |l| - |r|;
    assert Lower(r) == r by {
      forall i | 0 <= i < |r| ensures Lower(r)[i] == r[i] {
        assert r[i] == l[k + i] == LowerChar(s[k + i]);
      }
    }
    if r != [] {
      assert r[0] != '.';
    }
  }

  /** `key` is `raw` lowercased with its leading dots removed: what is
      left after a run of dots, and not itself starting with a dot. */
  predicate StrippedKey(raw: string, key: string) {
    var l := Lower(raw);
    |key| <= |l| && key == l[|l| - |key|..]
    && (forall j :: 0 <= j < |l| - |key| ==> l[j] == '.')
    && (key == [] || key[0] != '.')
  }

  /** One normalised suffix is the stripped, lowercased suffix and is
      itself lowercase. */
  lemma PreferKeySpec(s: string)
    ensures StrippedKey(s, Core.PreferKey(s))
    ensures Lower(Core.PreferKey(s)) == Core.PreferKey(s)
  {
    var l := Lower(s);
    var r := Core.PreferKey(s);
    DropLeadingSpec(l, '.');
    var k := |l| - |r|;
    forall j | 0 <= j < |r| ensures Lower(r)[j] == r[j] {
      assert r[j] == l[k + j];
    }
  }

  /** The result is None exactly for no suffixes; otherwise it keeps the
      length and order, each entry being its suffix lowercased and
      stripped of leading dots. */
  lemma NormalizePreferSpec(values: seq<string>)
    ensures NormalizePrefer(values).None? <==> values == []
    ensures NormalizePrefer(values).Some? ==>
              var r := NormalizePrefer(values).value;
              |r| == |values|
              && forall i :: 0 <= i < |values| ==> StrippedKey(values[i], r[i]) && Lower(r[i]) == r[i]
  {
    if values != [] {
      var r := NormalizePrefer(values).value;
      forall i | 0 <= i < |values| ensures StrippedKey(values[i], r[i]) && Lower(r[i]) == r[i] {
        PreferKeySpec(values[i]);
      }
    }
  }

  /** Normalising an already normalised preference changes nothing. */
  lemma NormalizePreferIdempotent(values: seq<string>)
    ensures NormalizePrefer(values).Some? ==>
              NormalizePrefer(NormalizePrefer(values).value) == NormalizePrefer(values)
  {
    if values != [] {
      var r := Core.PreferKeys(values);
      forall i | 0 <= i < |r| ensures Core.PreferKeys(r)[i] == r[i] {
        PreferKeyIdempotent(values[i]);
      }
      assert Core.PreferKeys(r) == r;
      assert r != [];
    }
  }

  /** The command line normalises the suffixes before `read_config` does so
      again: file order is the same as with the suffixes as typed. */
  lemma NormalizePreferOrder(paths: seq<Path>, values: seq<string>)
    ensures Core.OrderPaths(paths, NormalizePrefer(values)) == Core.OrderPaths(paths, Some(values))
  {
    if values != [] {
      var norm := Core.PreferKeys(values);
      assert Core.PreferKeys(norm) == Core.PreferKeys(values) by {
        forall i | 0 <= i < |values| ensures Core.PreferKeys(norm)[i] == Core.PreferKeys(values)[i] {
          PreferKeyIdempotent(values[i]);
        }
      }
      SortSameKeys(paths, Core.RankKey(norm), Core.RankKey(values));
    }
  }

  /** `_normalize_targets`: each target lowercased, order kept. */
  function NormalizeTargets(values: seq<string>): (r: seq<string>)
    ensures |r| == |values|
    ensures forall i :: 0 <= i < |values| ==> r[i] == Lower(values[i])
  {
    LowerAll(values)
  }

  /** Normalising targets twice gives the same targets. */
  lemma NormalizeTargetsIdempotent(values: seq<string>)
    ensures NormalizeTargets(NormalizeTargets(values)) == NormalizeTargets(values)
  {
    forall i | 0 <= i < |values| ensures Lower(Lower(values[i])) == Lower(values[i]) {
      LowerIdempotent(values[i]);
    }
  }

  /** The alias table of `_normalize_platform`. */
  const PlatformAliases: map<string, string> :=
    map["linux" := "linux", "posix" := "linux", "darwin" := "darwin", "mac" := "darwin", "macos" := "darwin",
        "win" := "win32", "win32" := "win32", "windows" := "win32", "wine" := "win32"]

  /** The alias table of `_normalize_examples_platform`. */
  const ExamplesPlatformAliases: map<string, string> :=
    map["posix" := "posix", "linux" := "posix", "darwin" := "posix", "mac" := "posix", "macos" := "posix",
        "windows" := "windows", "win" := "windows", "win32" := "windows", "wine" := "windows"]

  /** The aliases both tables accept. */
  const AliasNames: set<string> := {"linux", "posix", "darwin", "mac", "macos", "win", "win32", "windows", "wine"}

  /** The alias as both normalisers compute it: trimmed, then lowercased. */
  function Alias(value: string): string {
    Lower(Trim(value))
  }

  /** The `click.BadParameter` each normaliser raises for an unknown
      alias; its message lists the accepted aliases of that normaliser's
      table. */
  datatype BadParameter = BadResolverPlatform | BadExamplesPlatform

  /** The lookup both normalisers make once the alias is computed: a
      blank alias means none, a known one its table entry, anything else
      the given `BadParameter`. */
  function FromAlias(alias: string, table: map<string, string>, error: BadParameter): Result<Option<string>, BadParameter> {
    if alias == "" then Ok(None)
    else if alias in table then Ok(Some(table[alias]))
    else Err(error)
  }

  /** `_normalize_platform`. */
  function NormalizePlatform(platform: Option<string>): Result<Option<string>, BadParameter> {
    if platform.None? then Ok(None)
    else FromAlias(Alias(platform.value), PlatformAliases,
                   BadResolverPlatform)
  }

  /** `_normalize_examples_platform`: the same shape with the example
      generator's table. */
  function NormalizeExamplesPlatform(platform: Option<string>): Result<Option<string>, BadParameter> {
    if platform.None? then Ok(None)
    else FromAlias(Alias(platform.value), ExamplesPlatformAliases,
                   BadExamplesPlatform)
  }

  /** The resolver table on one alias: none exactly for a blank alias,
      success exactly for a blank or known alias, and each known alias
      mapped to the platform string the resolver recognises for it. */
  lemma PlatformAlias(alias: string, error: BadParameter)
    ensures var r := FromAlias(alias, PlatformAliases, error);
            (r == Ok(None) <==> alias == "")
            && (r.Ok? <==> alias == "" || alias in AliasNames)
            && (r == Ok(Some("linux")) <==> alias in {"linux", "posix"})
            && (r == Ok(Some("darwin")) <==> alias in {"darwin", "mac", "macos"})
            && (r == Ok(Some("win32")) <==> alias in {"win", "win32", "windows", "wine"})
  {
  }

  /** The examples table on one alias: none exactly for a blank alias,
      success exactly for a blank or known alias, and each known alias
      mapped to posix or windows. */
  lemma ExamplesPlatformAlias(alias: string, error: BadParameter)
    ensures var r := FromAlias(alias, ExamplesPlatformAliases, error);
            (r == Ok(None) <==> alias == "")
            && (r.Ok? <==> alias == "" || alias in AliasNames)
            && (r == Ok(Some("posix")) <==> alias in {"posix", "linux", "darwin", "mac", "macos"})
            && (r == Ok(Some("windows")) <==> alias in {"windows", "win", "win32", "wine"})
  {
  }

  /** `_normalize_platform`: none for a missing or blank value; for any
      other value, success exactly when the trimmed, lowercased alias is
      known, with a result among linux, darwin and win32. */
  lemma NormalizePlatformSpec(platform: Option<string>)
    ensures platform.None? ==> NormalizePlatform(platform) == Ok(None)
    ensures platform.Some? ==>
              var alias := Alias(platform.value);
              var r := NormalizePlatform(platform);
              (r == Ok(None) <==> alias == "")
              && (r.Ok? <==> alias == "" || alias in AliasNames)
              && (r.Ok? && r.value.Some? ==> r.value.value in {"linux", "darwin", "win32"})
  {
    if platform.Some? {
      PlatformAlias(Alias(platform.value), BadResolverPlatform);
    }
  }

  /** `_normalize_examples_platform`: none for a missing or blank value;
      for any other value, success exactly when the alias is known, with a
      result that is posix or windows. */
  lemma NormalizeExamplesPlatformSpec(platform: Option<string>)
    ensures platform.None? ==> NormalizeExamplesPlatform(platform) == Ok(None)
    ensures platform.Some? ==>
              var alias := Alias(platform.value);
              var r := NormalizeExamplesPlatform(platform);
              (r == Ok(None) <==> alias == "")
              && (r.Ok? <==> alias == "" || alias in AliasNames)
              && (r.Ok? && r.value.Some? ==> r.value.value in {"posix", "windows"})
  {
    if platform.Some? {
      ExamplesPlatformAlias(Alias(platform.value), BadExamplesPlatform);
    }
  }

  /** The two tables accept the same aliases and agree on which are
      Windows: the examples normaliser says windows exactly when the
      resolver normaliser says win32. */
  lemma PlatformTablesAgree(platform: Option<string>)
    ensures NormalizePlatform(platform).Ok? <==> NormalizeExamplesPlatform(platform).Ok?
    ensures NormalizePlatform(platform) == Ok(None) <==> NormalizeExamplesPlatform(platform) == Ok(None)
    ensures NormalizePlatform(platform) == Ok(Some("win32")) <==> NormalizeExamplesPlatform(platform) == Ok(Some("windows"))
  {
    if platform.Some? {
      var alias := Alias(platform.value);
      PlatformAlias(alias, BadResolverPlatform);
      ExamplesPlatformAlias(alias, BadExamplesPlatform);
    }
  }

  /** A normalised platform is one the resolver recognises: linux and
      posix select Linux, the Apple aliases macOS, the Windows aliases
      Windows. */
  lemma NormalizedPlatformKnown(platform: Option<string>)
    requires platform.Some?
    ensures var r := NormalizePlatform(platform);
            var alias := Alias(platform.value);
            r.Ok? && r.value.Some? ==>
              (PathResolver.OsOf(r.value.value) == PathResolver.Linux <==> alias in {"linux", "posix"})
              && (PathResolver.OsOf(r.value.value) == PathResolver.MacOs <==> alias in {"darwin", "mac", "macos"})
              && (PathResolver.OsOf(r.value.value) == PathResolver.Windows <==> alias in {"win", "win32", "windows", "wine"})
  {
    PathResolver.OsExamples();
    PlatformAlias(Alias(platform.value), BadResolverPlatform);
  }

  /** The canonical names map to themselves in their own table. */
  lemma CanonicalEntries()
    ensures PlatformAliases["linux"] == "linux" && PlatformAliases["darwin"] == "darwin"
    ensures PlatformAliases["win32"] == "win32"
    ensures ExamplesPlatformAliases["posix"] == "posix" && ExamplesPlatformAliases["windows"] == "windows"
  {
  }

  /** The canonical resolver names normalise to themselves. */
  lemma PlatformCanonical(x: string)
    requires x == "linux" || x == "darwin" || x == "win32"
    ensures NormalizePlatform(Some(x)) == Ok(Some(x))
  {
    CanonicalAlias(x);
    CanonicalEntries();
  }

  /** The canonical example platforms normalise to themselves. */
  lemma ExamplesPlatformCanonical(x: string)
    requires x == "posix" || x == "windows"
    ensures NormalizeExamplesPlatform(Some(x)) == Ok(Some(x))
  {
    CanonicalAlias(x);
    CanonicalEntries();
  }

  /** A normalised platform normalises to itself. */
  lemma NormalizePlatformIdempotent(platform: Option<string>)
    ensures NormalizePlatform(platform).Ok? ==> NormalizePlatform(NormalizePlatform(platform).value) == NormalizePlatform(platform)
  {
    NormalizePlatformSpec(platform);
    var r := NormalizePlatform(platform);
    if r.Ok? && r.value.Some? {
      PlatformCanonical(r.value.value);
    }
  }

  /** A normalised example platform normalises to itself. */
  lemma NormalizeExamplesPlatformIdempotent(platform: Option<string>)
    ensures NormalizeExamplesPlatform(platform).Ok? ==>
              NormalizeExamplesPlatform(NormalizeExamplesPlatform(platform).value) == NormalizeExamplesPlatform(platform)
  {
    NormalizeExamplesPlatformSpec(platform);
    var r := NormalizeExamplesPlatform(platform);
    if r.Ok? && r.value.Some? {
      ExamplesPlatformCanonical(r.value.value);
    }
  }

  /** Lowercase letters and digits only: text that trimming and
      lowercasing leave alone. */
  predicate Plain(s: string) {
    forall i :: 0 <= i < |s| ==> 'a' <= s[i] <= 'z' || '0' <= s[i] <= '9'
  }

  /** The canonical names trim and lowercase to themselves. */
  lemma CanonicalAlias(x: string)
    requires x == "linux" || x == "darwin" || x == "win32" || x == "posix" || x == "windows"
    ensures Alias(x) == x
  {
    PlainAlias(x);
  }

  lemma PlainAlias(s: string)
    requires Plain(s)
    ensures Trim(s) == s && Lower(s) == s && Alias(s) == s
  {
    assert TrimStart(s) == s;
    assert TrimEnd(s) == s;
    assert Lower(s) == s;
  }

  /** The example generator keeps what the examples normaliser chose:
      posix stays posix and windows stays windows. */
  lemma ExamplesPlatformReachesGenerator(platform: Option<string>, osIsNt: bool)
    ensures var r := NormalizeExamplesPlatform(platform);
            r.Ok? && r.value.Some? ==> Generate.NormalisePlatform(r.value, osIsNt) == r.value.value
  {
    NormalizeExamplesPlatformSpec(platform);
    var r := NormalizeExamplesPlatform(platform);
    if r.Ok? && r.value.Some? {
      GeneratorKeys(r.value.value);
    }
  }

  lemma GeneratorKeys(x: string)
    requires x == "posix" || x == "windows"
    ensures StartsWith(Lower(x), "win") <==> x == "windows"
  {
    PlainAlias(x);
    if x == "posix" {
      assert x[0] == 'p';
    } else {
      assert x[..3] == "win";
    }
  }
}
