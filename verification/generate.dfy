/** The example generator (examples/generate.py): the five example files
    of a platform's layout, and the write loop that skips files already on
    disk unless forced. */
module Generate {
  import opened Results
  import opened Text
  import opened Paths
  import opened Storage
  import EnvAdapter
  import PathResolver

  /** `DEFAULT_HOST_PLACEHOLDER`. */
  const HostPlaceholder: string := "your-hostname"

  datatype ExampleSpec = ExampleSpec(relativePath: Path, content: string)

  /** `_normalise_platform`: an explicit value is `windows` when it starts
      with `win` in any case, `posix` otherwise; without one the running
      system decides (`os.name == "nt"`). */
  function NormalisePlatform(value: Option<string>, osIsNt: bool): (r: string)
    ensures r == "windows" || r == "posix"
    ensures value.None? ==> (r == "windows" <==> osIsNt)
    ensures value.Some? ==> (r == "windows" <==> StartsWith(Lower(value.value), "win"))
  {
    if value.None? then (if osIsNt then "windows" else "posix")
    else if StartsWith(Lower(value.value), "win") then "windows"
    else "posix"
  }

  function AppDefaults(slug: string): string {
    "# Application-wide defaults for " + slug + "\n[service]\nendpoint = \"https://api.example.com\"\ntimeout = 10\n"
  }

  const HostOverrides: string := "# Host overrides (replace filename with the machine hostname)\n[service]\ntimeout = 15\n"

  function UserPreferences(vendor: string, app: string): string {
    "# User-specific preferences for " + vendor + " " + app + "\n[service]\nretry = 2\n"
  }

  const SplitOverrides: string := "# Split overrides live in config.d/ and apply in lexical order\n[service]\nretry = 3\n"

  /** The variable `.env.example` sets: the slug with `-` turned into `_`,
      uppercased, then `_SERVICE__PASSWORD`. */
  function EnvExampleName(slug: string): string {
    Upper(ReplaceChar(slug, '-', '_')) + "_SERVICE__PASSWORD"
  }

  function EnvExample(slug: string): string {
    "# Copy to .env to provide secrets and local overrides\n" + EnvExampleName(slug) + "=changeme\n"
  }

  /** `Path(".env.example")`. */
  const EnvExamplePath: Path := Path(false, [".env.example"])

  /** What the five examples hold, in order: application defaults, host
      overrides, user preferences, a `config.d` override and
      `.env.example`. Both layouts use the same texts. */
  function Contents(slug: string, vendor: string, app: string): seq<string> {
    [AppDefaults(slug), HostOverrides, UserPreferences(vendor, app), SplitOverrides, EnvExample(slug)]
  }

  /** The Windows layout: `ProgramData/<vendor>/<app>` for the app and host
      files, `AppData/Roaming/<vendor>/<app>` for the user files. */
  function WindowsPaths(vendor: string, app: string): seq<Path> {
    var winApp := Div(Div(Path(false, ["ProgramData"]), vendor), app);
    var winUser := Div(Div(Path(false, ["AppData", "Roaming"]), vendor), app);
    [Child(winApp, "config.toml"),
     Child(Child(winApp, "hosts"), HostPlaceholder + ".toml"),
     Child(winUser, "config.toml"),
     Child(Child(winUser, "config.d"), "10-override.toml"),
     EnvExamplePath]
  }

  /** The POSIX layout: `etc/<slug>` for the app and host files,
      `xdg/<slug>` for the user files, each path parsed from the string
      its pieces make when joined by `/`. */
  function PosixPaths(slug: string): seq<Path> {
    ParseEach([["etc", slug, "config.toml"],
               ["etc", slug, "hosts", HostPlaceholder + ".toml"],
               ["xdg", slug, "config.toml"],
               ["xdg", slug, "config.d", "10-override.toml"],
               [".env.example"]])
  }

  /** `Path("/".join(pieces))` for each list of pieces. */
  function ParseEach(pieces: seq<seq<string>>): (r: seq<Path>)
    ensures |r| == |pieces|
  {
    if pieces == [] then [] else [Parse(Join(pieces[0], "/"))] + ParseEach(pieces[1..])
  }

  /** A non-empty list of plain segments. */
  predicate Segments(parts: seq<string>) {
    parts != [] && forall j :: 0 <= j < |parts| ==> IsPart(parts[j])
  }

  lemma {:induction false} ParseEachSegments(pieces: seq<seq<string>>)
    requires forall i :: 0 <= i < |pieces| ==> Segments(pieces[i])
    ensures forall i :: 0 <= i < |pieces| ==> ParseEach(pieces)[i] == Path(false, pieces[i])
    decreases |pieces|
  {
    if pieces != [] {
      ParseSegments(pieces[0]);
      ParseEachSegments(pieces[1..]);
      forall i | 0 < i < |pieces| ensures ParseEach(pieces)[i] == Path(false, pieces[i]) {
        assert ParseEach(pieces)[i] == ParseEach(pieces[1..])[i - 1];
      }
    }
  }

  /** Pairs each path with its content. */
  function Specs(paths: seq<Path>, contents: seq<string>): (r: seq<ExampleSpec>)
    requires |paths| == |contents|
    ensures |r| == |paths|
    ensures forall i :: 0 <= i < |r| ==> r[i] == ExampleSpec(paths[i], contents[i])
  {
    if paths == [] then [] else [ExampleSpec(paths[0], contents[0])] + Specs(paths[1..], contents[1..])
  }

  /** `_build_specs`: `windows` selects the Windows layout, any other
      platform key the POSIX one; the texts are the same for both. */
  function BuildSpecs(slug: string, vendor: string, app: string, platform: string): seq<ExampleSpec> {
    Specs(if platform == "windows" then WindowsPaths(vendor, app) else PosixPaths(slug), Contents(slug, vendor, app))
  }

  /** Parsing segments joined by `/` gives the relative path of those segments. */
  lemma ParseSegments(parts: seq<string>)
    requires parts != []
    requires forall i :: 0 <= i < |parts| ==> IsPart(parts[i])
    ensures Parse(Join(parts, "/")) == Path(false, parts)
  {
    RenderParse(Path(false, parts));
  }

  /** The fixed names the layouts use are plain segments. */
  lemma PlainNames()
    ensures HostPlaceholder + ".toml" == "your-hostname.toml"
    ensures IsPart("etc") && IsPart("xdg") && IsPart("hosts") && IsPart("config.d") && IsPart("config.toml")
    ensures IsPart("your-hostname.toml") && IsPart("10-override.toml") && IsPart(".env.example")
  {
  }

  /** With a one-segment slug, the POSIX example paths are exactly these
      segment lists. */
  lemma PosixLayout(slug: string)
    requires IsPart(slug)
    ensures var ps := PosixPaths(slug);
            |ps| == 5
            && ps[0] == Path(false, ["etc", slug, "config.toml"])
            && ps[1] == Path(false, ["etc", slug, "hosts", "your-hostname.toml"])
            && ps[2] == Path(false, ["xdg", slug, "config.toml"])
            && ps[3] == Path(false, ["xdg", slug, "config.d", "10-override.toml"])
            && ps[4] == Path(false, [".env.example"])
  {
    PlainNames();
    var pieces := [["etc", slug, "config.toml"],
                   ["etc", slug, "hosts", "your-hostname.toml"],
                   ["xdg", slug, "config.toml"],
                   ["xdg", slug, "config.d", "10-override.toml"],
                   [".env.example"]];
    assert Segments(pieces[0]) && Segments(pieces[1]) && Segments(pieces[2]);
    assert Segments(pieces[3]) && Segments(pieces[4]);
    ParseEachSegments(pieces);
  }

  /** With one-segment vendor and application names, the Windows example
      paths are exactly these segment lists. */
  lemma WindowsLayout(vendor: string, app: string)
    requires IsPart(vendor) && IsPart(app)
    ensures var ps := WindowsPaths(vendor, app);
            |ps| == 5
            && ps[0] == Path(false, ["ProgramData", vendor, app, "config.toml"])
            && ps[1] == Path(false, ["ProgramData", vendor, app, "hosts", "your-hostname.toml"])
            && ps[2] == Path(false, ["AppData", "Roaming", vendor, app, "config.toml"])
            && ps[3] == Path(false, ["AppData", "Roaming", vendor, app, "config.d", "10-override.toml"])
            && ps[4] == Path(false, [".env.example"])
  {
    var ps := WindowsPaths(vendor, app);
    PlainNames();
    RootBelow(["ProgramData"], vendor, app, "config.toml", "hosts", "your-hostname.toml");
    assert ps[0] == Path(false, ["ProgramData", vendor, app, "config.toml"]);
    assert ps[1] == Path(false, ["ProgramData", vendor, app, "hosts", "your-hostname.toml"]);
    RootBelow(["AppData", "Roaming"], vendor, app, "config.toml", "config.d", "10-override.toml");
    assert ps[2] == Path(false, ["AppData", "Roaming", vendor, app, "config.toml"]);
  }

  /** Below `root / vendor / app` with one-segment names, a file and a
      file one directory further down. */
  lemma RootBelow(root: seq<string>, vendor: string, app: string, file: string, dir: string, inner: string)
    requires IsPart(vendor) && IsPart(app)
    ensures var base := Div(Div(Path(false, root), vendor), app);
            Child(base, file) == Path(false, root + [vendor, app, file])
            && Child(Child(base, dir), inner) == Path(false, root + [vendor, app, dir, inner])
  {
    DivName(Path(false, root), vendor);
    DivName(Path(false, root + [vendor]), app);
    assert root + [vendor] + [app] + [file] == root + [vendor, app, file];
    assert root + [vendor] + [app] + [dir] + [inner] == root + [vendor, app, dir, inner];
  }

  /** The variable in `.env.example`, read by the environment adapter with
      the slug's default prefix, is seen as `SERVICE__PASSWORD`, the
      nested key `service.password`. The slug must not end in `-` or `_`,
      which would leave a doubled underscore after the prefix. */
  lemma EnvExampleKey(slug: string, value: string)
    requires slug != [] && slug[|slug| - 1] != '-' && slug[|slug| - 1] != '_'
    ensures EnvAdapter.NamespaceEntries([(EnvExampleName(slug), value)],
                                        EnvAdapter.NormalizePrefix(EnvAdapter.DefaultEnvPrefix(slug)))
            == [("SERVICE__PASSWORD", value)]
  {
    var prefix := EnvAdapter.DefaultEnvPrefix(slug);
    var last := prefix[|prefix| - 1];
    assert last == UpperChar(ReplaceChar(slug, '-', '_')[|slug| - 1]);
    assert last != '_';
    assert !EndsWith(prefix, "_");
    var name := EnvExampleName(slug);
    assert name == prefix + "_" + "SERVICE__PASSWORD";
    assert StartsWith(name, prefix + "_");
    assert name[|prefix + "_"|..] == "SERVICE__PASSWORD";
  }

  /** `_should_write`. */
  predicate ShouldWrite(fs: FileSystem, path: Path, force: bool) {
    force || !Exists(fs, path)
  }

  /** `destination / spec.relative_path` for each spec. */
  function Targets(dest: Path, specs: seq<ExampleSpec>): (r: seq<Path>)
    ensures |r| == |specs|
    ensures forall i :: 0 <= i < |specs| ==> r[i] == JoinPath(dest, specs[i].relativePath)
  {
    if specs == [] then [] else [JoinPath(dest, specs[0].relativePath)] + Targets(dest, specs[1..])
  }

  /** `_write_examples`: walks the specs in order, writing each one that
      `_should_write` allows; returns the paths written and the disk after. */
  function WriteExamples(dest: Path, specs: seq<ExampleSpec>, force: bool, d: Disk): (seq<Path>, Disk)
    decreases |specs|
  {
    if specs == [] then ([], d)
    else
      var path := JoinPath(dest, specs[0].relativePath);
      if ShouldWrite(d.fs, path, force) then
        var rest := WriteExamples(dest, specs[1..], force, Write(d, path, specs[0].content));
        ([path] + rest.0, rest.1)
      else WriteExamples(dest, specs[1..], force, d)
  }

  /** `generate_examples`. */
  function GenerateExamples(dest: Path, slug: string, vendor: string, app: string, force: bool,
                            platform: Option<string>, osIsNt: bool, d: Disk): (seq<Path>, Disk)
  {
    WriteExamples(dest, BuildSpecs(slug, vendor, app, NormalisePlatform(platform, osIsNt)), force, d)
  }

  /** The targets that a run starting from `fs` selects, when writing one
      never changes whether another exists. */
  function Selected(targets: seq<Path>, force: bool, fs: FileSystem): (r: seq<Path>)
    ensures forall p :: p in r <==> p in targets && ShouldWrite(fs, p, force)
  {
    if targets == [] then []
    else (if ShouldWrite(fs, targets[0], force) then [targets[0]] else []) + Selected(targets[1..], force, fs)
  }

  lemma {:induction false} SelectedLength(targets: seq<Path>, force: bool, fs: FileSystem)
    ensures |Selected(targets, force, fs)| <= |targets|
    decreases |targets|
  {
    if targets != [] {
      SelectedLength(targets[1..], force, fs);
    }
  }

  /** No target is written twice and none is a directory above a later one. */
  predicate Independent(targets: seq<Path>) {
    forall i, j :: 0 <= i < j < |targets| ==> targets[j] != targets[i] && targets[j] !in Ancestors(targets[i])
  }

  lemma {:induction false} SelectedSame(targets: seq<Path>, force: bool, a: FileSystem, b: FileSystem)
    requires forall i :: 0 <= i < |targets| ==> (Exists(a, targets[i]) <==> Exists(b, targets[i]))
    ensures Selected(targets, force, a) == Selected(targets, force, b)
    decreases |targets|
  {
    if targets != [] {
      SelectedSame(targets[1..], force, a, b);
    }
  }

  /** Without interference between targets, the paths written are exactly
      the targets that were missing at the start (all of them when
      forced), in spec order. */
  lemma {:induction false} WrittenExactly(dest: Path, specs: seq<ExampleSpec>, force: bool, d: Disk)
    requires Independent(Targets(dest, specs))
    ensures WriteExamples(dest, specs, force, d).0 == Selected(Targets(dest, specs), force, d.fs)
    decreases |specs|
  {
    if specs != [] {
      var ts := Targets(dest, specs);
      var path := ts[0];
      assert Targets(dest, specs[1..]) == ts[1..];
      assert Independent(ts[1..]) by {
        forall i, j | 0 <= i < j < |ts[1..]|
          ensures ts[1..][j] != ts[1..][i] && ts[1..][j] !in Ancestors(ts[1..][i])
        {
          assert ts[1..][j] == ts[j + 1] && ts[1..][i] == ts[i + 1];
        }
      }
      if ShouldWrite(d.fs, path, force) {
        var d' := Write(d, path, specs[0].content);
        WrittenExactly(dest, specs[1..], force, d');
        forall i | 0 <= i < |ts[1..]| ensures Exists(d'.fs, ts[1..][i]) <==> Exists(d.fs, ts[1..][i]) {
          assert ts[1..][i] == ts[i + 1];
        }
        SelectedSame(ts[1..], force, d'.fs, d.fs);
      } else {
        WrittenExactly(dest, specs[1..], force, d);
      }
    }
  }

  /** A run never makes an existing path disappear. */
  lemma {:induction false} WriteKeeps(dest: Path, specs: seq<ExampleSpec>, force: bool, d: Disk, q: Path)
    requires Exists(d.fs, q)
    ensures Exists(WriteExamples(dest, specs, force, d).1.fs, q)
    decreases |specs|
  {
    if specs != [] {
      var path := JoinPath(dest, specs[0].relativePath);
      if ShouldWrite(d.fs, path, force) {
        WriteKeeps(dest, specs[1..], force, Write(d, path, specs[0].content), q);
      } else {
        WriteKeeps(dest, specs[1..], force, d, q);
      }
    }
  }

  /** After a run every target exists: written now, or there already. */
  lemma {:induction false} WriteCovers(dest: Path, specs: seq<ExampleSpec>, force: bool, d: Disk)
    ensures forall p :: p in Targets(dest, specs) ==> Exists(WriteExamples(dest, specs, force, d).1.fs, p)
    decreases |specs|
  {
    if specs != [] {
      var path := JoinPath(dest, specs[0].relativePath);
      var d' := if ShouldWrite(d.fs, path, force) then Write(d, path, specs[0].content) else d;
      assert WriteExamples(dest, specs, force, d).1 == WriteExamples(dest, specs[1..], force, d').1;
      assert Exists(d'.fs, path);
      WriteKeeps(dest, specs[1..], force, d', path);
      WriteCovers(dest, specs[1..], force, d');
      assert Targets(dest, specs) == [path] + Targets(dest, specs[1..]);
    }
  }

  /** Without `force`, a run over targets that all exist writes nothing. */
  lemma {:induction false} NothingMissing(dest: Path, specs: seq<ExampleSpec>, d: Disk)
    requires forall p :: p in Targets(dest, specs) ==> Exists(d.fs, p)
    ensures WriteExamples(dest, specs, false, d) == ([], d)
    decreases |specs|
  {
    if specs != [] {
      assert JoinPath(dest, specs[0].relativePath) in Targets(dest, specs);
      assert Targets(dest, specs) == [JoinPath(dest, specs[0].relativePath)] + Targets(dest, specs[1..]);
      NothingMissing(dest, specs[1..], d);
    }
  }

  /** Running again without `force` writes nothing and leaves the disk as
      the first run left it. */
  lemma SecondRunWritesNothing(dest: Path, specs: seq<ExampleSpec>, force: bool, d: Disk)
    ensures var after := WriteExamples(dest, specs, force, d).1;
            WriteExamples(dest, specs, false, after) == ([], after)
  {
    WriteCovers(dest, specs, force, d);
    NothingMissing(dest, specs, WriteExamples(dest, specs, force, d).1);
  }

  /** With `force` every target is written, and, when no two targets
      coincide, each ends up holding its own spec's content. */
  lemma {:induction false} ForceWritesAll(dest: Path, specs: seq<ExampleSpec>, d: Disk)
    ensures WriteExamples(dest, specs, true, d).0 == Targets(dest, specs)
    ensures Independent(Targets(dest, specs)) ==>
              forall i :: 0 <= i < |specs| ==>
                var after := WriteExamples(dest, specs, true, d).1;
                Targets(dest, specs)[i] in after.contents
                && after.contents[Targets(dest, specs)[i]] == specs[i].content
    decreases |specs|
  {
    if specs != [] {
      var ts := Targets(dest, specs);
      var d' := Write(d, ts[0], specs[0].content);
      ForceWritesAll(dest, specs[1..], d');
      assert Targets(dest, specs[1..]) == ts[1..];
      if Independent(ts) {
        assert Independent(ts[1..]) by {
          forall i, j | 0 <= i < j < |ts[1..]|
            ensures ts[1..][j] != ts[1..][i] && ts[1..][j] !in Ancestors(ts[1..][i])
          {
            assert ts[1..][j] == ts[j + 1] && ts[1..][i] == ts[i + 1];
          }
        }
        ForceKeepsContent(dest, specs[1..], d', ts[0]);
        forall i | 0 <= i < |specs|
          ensures var after := WriteExamples(dest, specs, true, d).1;
                  ts[i] in after.contents && after.contents[ts[i]] == specs[i].content
        {
          if i > 0 {
            assert ts[i] == ts[1..][i - 1] && specs[i] == specs[1..][i - 1];
          }
        }
      }
    }
  }

  /** A path no later target names keeps its content through a run. */
  lemma {:induction false} ForceKeepsContent(dest: Path, specs: seq<ExampleSpec>, d: Disk, q: Path)
    requires q !in Targets(dest, specs) && q in d.contents
    ensures var after := WriteExamples(dest, specs, true, d).1;
            q in after.contents && after.contents[q] == d.contents[q]
    decreases |specs|
  {
    if specs != [] {
      var path := JoinPath(dest, specs[0].relativePath);
      assert Targets(dest, specs) == [path] + Targets(dest, specs[1..]);
      ForceKeepsContent(dest, specs[1..], Write(d, path, specs[0].content), q);
    }
  }

  /** Paths that differ at some segment are distinct, and neither is a
      directory above the other. */
  lemma Diverge(p: Path, q: Path, m: nat)
    requires m < |p.parts| && m < |q.parts| && p.parts[m] != q.parts[m]
    ensures q != p && q !in Ancestors(p) && p !in Ancestors(q)
  {
    forall k | 0 <= k < |p.parts| ensures Path(p.absolute, p.parts[..k]) != q {
      if m < k {
        assert p.parts[..k][m] != q.parts[m];
      }
    }
    forall k | 0 <= k < |q.parts| ensures Path(q.absolute, q.parts[..k]) != p {
      if m < k {
        assert q.parts[..k][m] != p.parts[m];
      }
    }
  }

  /** Two relative paths, neither at or above the other, keep that
      relation below any destination. */
  lemma BelowPair(dest: Path, a: Path, b: Path)
    requires !a.absolute && !b.absolute && b != a && b !in Ancestors(a)
    ensures JoinPath(dest, b) != JoinPath(dest, a) && JoinPath(dest, b) !in Ancestors(JoinPath(dest, a))
  {
    var n := |dest.parts|;
    var pa, pb := dest.parts + a.parts, dest.parts + b.parts;
    assert pa[n..] == a.parts && pb[n..] == b.parts;
    forall k | 0 <= k < |pa| ensures Path(dest.absolute, pa[..k]) != JoinPath(dest, b) {
      if n <= k {
        assert pa[..k] == dest.parts + a.parts[..k - n];
        assert Path(false, a.parts[..k - n]) in Ancestors(a);
        assert (dest.parts + a.parts[..k - n])[n..] == a.parts[..k - n];
      }
    }
  }

  /** Independence of relative paths carries over to the same paths
      below any destination. */
  lemma IndependentBelow(dest: Path, rels: seq<Path>, contents: seq<string>)
    requires |rels| == |contents|
    requires forall i :: 0 <= i < |rels| ==> !rels[i].absolute
    requires Independent(rels)
    ensures Independent(Targets(dest, Specs(rels, contents)))
  {
    var ts := Targets(dest, Specs(rels, contents));
    forall i, j | 0 <= i < j < |ts| ensures ts[j] != ts[i] && ts[j] !in Ancestors(ts[i]) {
      BelowPair(dest, rels[i], rels[j]);
    }
  }

  /** The shape both layouts share: a config file and a host file under
      one root, a config file and a drop-in under a second root whose
      first segment differs, and one top-level file. No path of this
      shape sits at or above another. */
  lemma LayoutIndependent(ps: seq<Path>, r1: seq<string>, r2: seq<string>, config: string, hosts: string,
                          dropins: string, top: string)
    requires r1 != [] && r2 != [] && r1[0] != r2[0] && top != r1[0] && top != r2[0]
    requires config != hosts && config != dropins
    requires |ps| == 5 && ps[4] == Path(false, [top])
    requires ps[0].parts == r1 + [config] && ps[2].parts == r2 + [config]
    requires |ps[1].parts| > |r1| + 1 && ps[1].parts[..|r1| + 1] == r1 + [hosts]
    requires |ps[3].parts| > |r2| + 1 && ps[3].parts[..|r2| + 1] == r2 + [dropins]
    ensures Independent(ps)
  {
    assert ps[1].parts[0] == r1[0] && ps[1].parts[|r1|] == hosts by {
      assert ps[1].parts[..|r1| + 1][0] == r1[0];
    }
    assert ps[3].parts[0] == r2[0] && ps[3].parts[|r2|] == dropins by {
      assert ps[3].parts[..|r2| + 1][0] == r2[0];
    }
    Diverge(ps[0], ps[1], |r1|); Diverge(ps[0], ps[2], 0); Diverge(ps[0], ps[3], 0); Diverge(ps[0], ps[4], 0);
    Diverge(ps[1], ps[2], 0); Diverge(ps[1], ps[3], 0); Diverge(ps[1], ps[4], 0);
    Diverge(ps[2], ps[3], |r2|); Diverge(ps[2], ps[4], 0);
    Diverge(ps[3], ps[4], 0);
  }

  /** With a one-segment slug no POSIX example sits at or above another. */
  lemma PosixIndependent(slug: string)
    requires IsPart(slug)
    ensures Independent(PosixPaths(slug))
  {
    var ps := PosixPaths(slug);
    PosixLayout(slug);
    assert "etc" != "xdg" by { assert "etc"[0] != "xdg"[0]; }
    LayoutIndependent(ps, ["etc", slug], ["xdg", slug], "config.toml", "hosts", "config.d", ".env.example");
  }

  /** With one-segment vendor and application names no Windows example
      sits at or above another. */
  lemma WindowsIndependent(vendor: string, app: string)
    requires IsPart(vendor) && IsPart(app)
    ensures Independent(WindowsPaths(vendor, app))
  {
    WindowsLayout(vendor, app);
    var ps := WindowsPaths(vendor, app);
    LayoutIndependent(ps, ["ProgramData", vendor, app], ["AppData", "Roaming", vendor, app],
                      "config.toml", "hosts", "config.d", ".env.example");
  }

  lemma PosixTargetsIndependent(dest: Path, slug: string, contents: seq<string>)
    requires IsPart(slug) && |contents| == 5
    ensures Independent(Targets(dest, Specs(PosixPaths(slug), contents)))
  {
    PosixIndependent(slug);
    PosixLayout(slug);
    IndependentBelow(dest, PosixPaths(slug), contents);
  }

  lemma WindowsTargetsIndependent(dest: Path, vendor: string, app: string, contents: seq<string>)
    requires IsPart(vendor) && IsPart(app) && |contents| == 5
    ensures Independent(Targets(dest, Specs(WindowsPaths(vendor, app), contents)))
  {
    WindowsIndependent(vendor, app);
    WindowsLayout(vendor, app);
    IndependentBelow(dest, WindowsPaths(vendor, app), contents);
  }

  /** With one-segment slug, vendor and application names, writing one
      example never affects whether another exists, so the generator
      writes exactly the examples missing at the start. */
  lemma GeneratedIndependent(dest: Path, slug: string, vendor: string, app: string, platform: string)
    requires IsPart(slug) && IsPart(vendor) && IsPart(app)
    ensures Independent(Targets(dest, BuildSpecs(slug, vendor, app, platform)))
  {
    if platform == "windows" {
      WindowsTargetsIndependent(dest, vendor, app, Contents(slug, vendor, app));
    } else {
      PosixTargetsIndependent(dest, slug, Contents(slug, vendor, app));
    }
  }

  /** `generate_examples` with one-segment names: the files written are
      exactly the examples of the chosen layout that were missing (all
      five when forced), in layout order; afterwards every example exists,
      so a second run without `force` writes nothing. */
  lemma GenerateExamplesSpec(dest: Path, slug: string, vendor: string, app: string, force: bool,
                             platform: Option<string>, osIsNt: bool, d: Disk)
    requires IsPart(slug) && IsPart(vendor) && IsPart(app)
    ensures var specs := BuildSpecs(slug, vendor, app, NormalisePlatform(platform, osIsNt));
            var (written, after) := GenerateExamples(dest, slug, vendor, app, force, platform, osIsNt, d);
            written == Selected(Targets(dest, specs), force, d.fs)
            && |written| <= 5
            && (forall p :: p in Targets(dest, specs) ==> Exists(after.fs, p))
            && GenerateExamples(dest, slug, vendor, app, false, platform, osIsNt, after) == ([], after)
  {
    var specs := BuildSpecs(slug, vendor, app, NormalisePlatform(platform, osIsNt));
    GeneratedIndependent(dest, slug, vendor, app, NormalisePlatform(platform, osIsNt));
    WrittenExactly(dest, specs, force, d);
    WriteCovers(dest, specs, force, d);
    SecondRunWritesNothing(dest, specs, force, d);
    SelectedLength(Targets(dest, specs), force, d.fs);
  }
}
