/** The default path resolver (adapters/path_resolvers/default.py): where
    each configuration layer looks for files on Linux, macOS and Windows,
    and where `.env` files are searched.

    Everything the resolver consults is in the `Context`: the environment
    (already merged), the platform string, the hostname, the home
    directory, the working directory and the filesystem. Results are the
    `str()` of each path found, as in the source. */
module PathResolver {
  import opened Results
  import opened Text
  import opened Paths
  import opened Sorting

  /** `_ALLOWED_EXTENSIONS`. */
  const AllowedExtensions: seq<string> := [".toml", ".yaml", ".yml", ".json"]

  datatype Context = Context(vendor: string, app: string, slug: string, cwd: Path,
                             env: map<string, string>, platform: string, hostname: string,
                             home: Path, fs: FileSystem)

  /** `{**os.environ, **(env or {})}`: the explicit entries win. */
  function MergedEnv(process: map<string, string>, explicit: map<string, string>): (r: map<string, string>)
    ensures r.Keys == process.Keys + explicit.Keys
    ensures forall k :: k in explicit ==> r[k] == explicit[k]
    ensures forall k :: k in process && k !in explicit ==> r[k] == process[k]
  {
    process + explicit
  }

  /** `value or fallback` for an optional string. */
  function OrElse(value: Option<string>, fallback: string): (r: string)
    ensures value.Some? && value.value != "" ==> r == value.value
    ensures value.None? || value.value == "" ==> r == fallback
  {
    if value.Some? && value.value != "" then value.value else fallback
  }

  /** `DefaultPathResolver.__init__`: the working directory, platform and
      hostname default to the process's own. */
  function MakeContext(vendor: string, app: string, slug: string, cwd: Option<Path>, processCwd: Path,
                       processEnv: map<string, string>, env: map<string, string>,
                       platform: Option<string>, sysPlatform: string,
                       hostname: Option<string>, sysHostname: string,
                       home: Path, fs: FileSystem): Context
  {
    Context(vendor, app, slug, cwd.GetOr(processCwd), MergedEnv(processEnv, env),
            OrElse(platform, sysPlatform), OrElse(hostname, sysHostname), home, fs)
  }

  datatype Os = Linux | MacOs | Windows | Unknown

  /** `_is_linux`, `_is_macos`, `_is_windows`, checked in that order. The
      three tests never overlap, so the order does not matter. */
  function OsOf(platform: string): (r: Os)
    ensures r == Linux <==> StartsWith(platform, "linux")
    ensures r == MacOs <==> platform == "darwin"
    ensures r == Windows <==> StartsWith(platform, "win")
  {
    if StartsWith(platform, "linux") then
      assert platform[0] == "linux"[0];
      Linux
    else if platform == "darwin" then MacOs
    else if StartsWith(platform, "win") then Windows
    else Unknown
  }

  lemma OsExamples()
    ensures OsOf("linux") == Linux && OsOf("win32") == Windows && OsOf("darwin") == MacOs
    ensures OsOf("cygwin") == Unknown
  {
    assert StartsWith("linux", "linux");
    assert StartsWith("win32", "win");
    assert !StartsWith("cygwin", "linux") && !StartsWith("cygwin", "win");
  }

  /** `Path(env.get(key, default))`. */
  function EnvPath(env: map<string, string>, key: string, default: Path): (r: Path)
    ensures key !in env ==> r == default
    ensures key in env ==> r == Parse(env[key])
  {
    if key in env then Parse(env[key]) else default
  }

  /** A `config.d` entry that counts: a file whose lowercased suffix is
      one of the allowed extensions. */
  predicate Allowed(fs: FileSystem, p: Path) {
    IsFile(fs, p) && Lower(Suffix(Name(p))) in AllowedExtensions
  }

  /** `d / name` for each name. */
  function Under(dir: Path, names: seq<string>): (r: seq<Path>)
    ensures |r| == |names|
    ensures forall i :: 0 <= i < |names| ==> r[i] == Div(dir, names[i])
  {
    if names == [] then [] else [Div(dir, names[0])] + Under(dir, names[1..])
  }

  /** `str(p)` for each path. */
  function Rendered(ps: seq<Path>): (r: seq<string>)
    ensures |r| == |ps|
    ensures forall i :: 0 <= i < |ps| ==> r[i] == Render(ps[i])
  {
    if ps == [] then [] else [Render(ps[0])] + Rendered(ps[1..])
  }

  /** The `config.d` files of a layer directory, by name. */
  function ConfigDNames(fs: FileSystem, base: Path): seq<string> {
    var configDir := Child(base, "config.d");
    if IsDir(fs, configDir) then Filter(SortNames(Entries(fs, configDir)), n => Allowed(fs, Div(configDir, n))) else []
  }

  /** `_collect_layer(base)`: `config.toml` when it is a file, then the
      allowed files of `config.d` sorted by name. */
  function CollectLayerPaths(fs: FileSystem, base: Path): seq<Path> {
    var configFile := Child(base, "config.toml");
    (if IsFile(fs, configFile) then [configFile] else [])
      + Under(Child(base, "config.d"), ConfigDNames(fs, base))
  }

  function CollectLayer(fs: FileSystem, base: Path): seq<string> {
    Rendered(CollectLayerPaths(fs, base))
  }

  /** What a layer directory contributes, and in what order: `config.toml`
      first when it is a file; then exactly the allowed files listed in
      `config.d`, in name order. */
  lemma CollectLayerSpec(fs: FileSystem, base: Path)
    ensures var r := CollectLayerPaths(fs, base);
            var configFile := Child(base, "config.toml");
            var configDir := Child(base, "config.d");
            var names := ConfigDNames(fs, base);
            (IsFile(fs, configFile) ==> r[0] == configFile)
            && NamesSorted(names)
            && (forall n :: n in names <==> IsDir(fs, configDir) && n in Entries(fs, configDir)
                                            && Allowed(fs, Div(configDir, n)))
            && r[|r| - |names|..] == Under(configDir, names)
  {
    var configDir := Child(base, "config.d");
    if IsDir(fs, configDir) {
      var es := Entries(fs, configDir);
      SortNamesPermutes(es);
      SortNamesSorted(es);
      FilterNamesSorted(SortNames(es), n => Allowed(fs, Div(configDir, n)));
      forall n ensures n in SortNames(es) <==> n in es {
        assert n in SortNames(es) <==> n in multiset(SortNames(es));
        assert n in es <==> n in multiset(es);
      }
    }
  }

  /** Every path the layer yields is an existing file. */
  lemma CollectLayerFiles(fs: FileSystem, base: Path)
    ensures forall p :: p in CollectLayerPaths(fs, base) ==> IsFile(fs, p)
  {
    CollectLayerSpec(fs, base);
  }

  /** `<base>/hosts/<hostname>.toml` when it is a file. */
  function HostFile(fs: FileSystem, base: Path, hostname: string): (r: seq<Path>)
    ensures |r| <= 1
    ensures forall p :: p in r ==> IsFile(fs, p)
  {
    var candidate := Div(Child(base, "hosts"), hostname + ".toml");
    if IsFile(fs, candidate) then [candidate] else []
  }

  /** `XDG_CONFIG_HOME` when set and non-empty, else `~/.config`. */
  function XdgConfigHome(env: map<string, string>, home: Path): (r: Path)
    ensures "XDG_CONFIG_HOME" !in env || env["XDG_CONFIG_HOME"] == "" ==> r == Child(home, ".config")
  {
    if "XDG_CONFIG_HOME" in env && env["XDG_CONFIG_HOME"] != "" then Parse(env["XDG_CONFIG_HOME"])
    else Child(home, ".config")
  }

  /** The Linux user layer directory, `<XDG_CONFIG_HOME>/<slug>`. */
  function LinuxUserBase(env: map<string, string>, home: Path, slug: string): Path {
    Div(XdgConfigHome(env, home), slug)
  }

  /** `LIB_LAYERED_CONFIG_ETC`, default `/etc`. */
  function EtcRoot(ctx: Context): Path {
    EnvPath(ctx.env, "LIB_LAYERED_CONFIG_ETC", Path(true, ["etc"]))
  }

  /** `LIB_LAYERED_CONFIG_MAC_APP_ROOT`, default `/Library/Application Support`. */
  function MacAppRoot(ctx: Context): Path {
    EnvPath(ctx.env, "LIB_LAYERED_CONFIG_MAC_APP_ROOT", Path(true, ["Library", "Application Support"]))
  }

  /** `LIB_LAYERED_CONFIG_MAC_HOME_ROOT`, default `~/Library/Application Support`. */
  function MacHomeRoot(ctx: Context): Path {
    EnvPath(ctx.env, "LIB_LAYERED_CONFIG_MAC_HOME_ROOT",
            Path(ctx.home.absolute, ctx.home.parts + ["Library", "Application Support"]))
  }

  /** `_program_data_root`: the override, then `ProgramData`, then the
      literal `C:\\ProgramData`, read with POSIX path rules. */
  function ProgramDataRoot(ctx: Context): Path {
    EnvPath(ctx.env, "LIB_LAYERED_CONFIG_PROGRAMDATA",
            EnvPath(ctx.env, "ProgramData", Path(false, ["C:\\\\ProgramData"])))
  }

  /** `_appdata_root`: the override, then `APPDATA`, then `~/AppData/Roaming`. */
  function AppDataRoot(ctx: Context): Path {
    EnvPath(ctx.env, "LIB_LAYERED_CONFIG_APPDATA",
            EnvPath(ctx.env, "APPDATA", Child(Child(ctx.home, "AppData"), "Roaming")))
  }

  /** `_localappdata_root`: the override, then `LOCALAPPDATA`, then `~/AppData/Local`. */
  function LocalAppDataRoot(ctx: Context): Path {
    EnvPath(ctx.env, "LIB_LAYERED_CONFIG_LOCALAPPDATA",
            EnvPath(ctx.env, "LOCALAPPDATA", Child(Child(ctx.home, "AppData"), "Local")))
  }

  /** `root / vendor / application`. */
  function VendorApp(ctx: Context, root: Path): Path {
    Div(Div(root, ctx.vendor), ctx.app)
  }

  /** The directory the user layer reads; on Windows the roaming
      directory when it exists, else the local one. */
  function UserBase(ctx: Context): Path {
    match OsOf(ctx.platform)
    case Linux => LinuxUserBase(ctx.env, ctx.home, ctx.slug)
    case MacOs => VendorApp(ctx, MacHomeRoot(ctx))
    case Windows =>
      if Exists(ctx.fs, VendorApp(ctx, AppDataRoot(ctx))) then VendorApp(ctx, AppDataRoot(ctx))
      else VendorApp(ctx, LocalAppDataRoot(ctx))
    case Unknown => ctx.cwd
  }

  /** The directory the app and host layers read. */
  function AppBase(ctx: Context): Path {
    match OsOf(ctx.platform)
    case Linux => Div(EtcRoot(ctx), ctx.slug)
    case MacOs => VendorApp(ctx, MacAppRoot(ctx))
    case Windows => VendorApp(ctx, ProgramDataRoot(ctx))
    case Unknown => ctx.cwd
  }

  /** `_platform_paths(layer)` before `str()`: the layer's builder for the
      platform, nothing for an unknown platform or layer name. */
  function LayerPaths(ctx: Context, layer: string): (r: seq<Path>) {
    if OsOf(ctx.platform) == Unknown then []
    else if layer == "app" then CollectLayerPaths(ctx.fs, AppBase(ctx))
    else if layer == "host" then HostFile(ctx.fs, AppBase(ctx), ctx.hostname)
    else if layer == "user" then CollectLayerPaths(ctx.fs, UserBase(ctx))
    else []
  }

  /** `app()`, `host()` and `user()`. */
  function PlatformPaths(ctx: Context, layer: string): seq<string> {
    Rendered(LayerPaths(ctx, layer))
  }

  /** Every layer yields only existing files, the host layer at most one,
      and nothing at all on an unrecognised platform or layer name. */
  lemma LayerPathsSpec(ctx: Context, layer: string)
    ensures forall p :: p in LayerPaths(ctx, layer) ==> IsFile(ctx.fs, p)
    ensures layer == "host" ==> |LayerPaths(ctx, layer)| <= 1
    ensures OsOf(ctx.platform) == Unknown || layer !in {"app", "host", "user"} ==> LayerPaths(ctx, layer) == []
  {
    CollectLayerFiles(ctx.fs, AppBase(ctx));
    CollectLayerFiles(ctx.fs, UserBase(ctx));
  }

  /** On Windows the user layer falls back to the local application data
      directory exactly when the roaming one does not exist. */
  lemma WindowsUserFallback(ctx: Context)
    requires OsOf(ctx.platform) == Windows
    ensures !Exists(ctx.fs, VendorApp(ctx, AppDataRoot(ctx))) ==>
              LayerPaths(ctx, "user") == CollectLayerPaths(ctx.fs, VendorApp(ctx, LocalAppDataRoot(ctx)))
    ensures Exists(ctx.fs, VendorApp(ctx, AppDataRoot(ctx))) ==>
              LayerPaths(ctx, "user") == CollectLayerPaths(ctx.fs, VendorApp(ctx, AppDataRoot(ctx)))
  {
  }

  /** `_project_dotenv_paths` over the candidates, skipping any already
      seen. */
  function ProjectFrom(fs: FileSystem, cands: seq<Path>, seen: set<Path>): seq<Path>
    decreases |cands|
  {
    if cands == [] then []
    else if cands[0] in seen then ProjectFrom(fs, cands[1..], seen)
    else (if IsFile(fs, cands[0]) then [cands[0]] else []) + ProjectFrom(fs, cands[1..], seen + {cands[0]})
  }

  /** The candidates that are files, in order. */
  function FilesAmong(fs: FileSystem, cands: seq<Path>): (r: seq<Path>)
    ensures forall p :: p in r <==> p in cands && IsFile(fs, p)
  {
    if cands == [] then [] else (if IsFile(fs, cands[0]) then [cands[0]] else []) + FilesAmong(fs, cands[1..])
  }

  predicate Distinct<T(==)>(s: seq<T>) {
    forall i, j :: 0 <= i < j < |s| ==> s[i] != s[j]
  }

  /** With distinct candidates, none of them seen yet, the `seen` check
      never skips one. */
  lemma {:induction false} ProjectFromDistinct(fs: FileSystem, cands: seq<Path>, seen: set<Path>)
    requires Distinct(cands)
    requires forall i :: 0 <= i < |cands| ==> cands[i] !in seen
    ensures ProjectFrom(fs, cands, seen) == FilesAmong(fs, cands)
    decreases |cands|
  {
    if cands != [] {
      var rest := cands[1..];
      assert forall i :: 0 <= i < |rest| ==> rest[i] == cands[i + 1];
      ProjectFromDistinct(fs, rest, seen + {cands[0]});
    }
  }

  lemma {:induction false} FilesAmongDistinct(fs: FileSystem, cands: seq<Path>)
    requires Distinct(cands)
    ensures Distinct(FilesAmong(fs, cands))
    decreases |cands|
  {
    if cands != [] {
      var rest := cands[1..];
      FilesAmongDistinct(fs, rest);
      var r := FilesAmong(fs, cands);
      var tail := FilesAmong(fs, rest);
      if IsFile(fs, cands[0]) {
        forall i, j | 0 <= i < j < |r| ensures r[i] != r[j] {
          if i == 0 {
            assert r[j] == tail[j - 1] && tail[j - 1] in rest;
          } else {
            assert r[i] == tail[i - 1] && r[j] == tail[j - 1];
          }
        }
      }
    }
  }

  lemma EnvFilesDistinct(p: Path)
    ensures Distinct(EnvFilesOf(p))
  {
    SelfAndParentsDistinct(p);
    var ds := SelfAndParents(p);
    forall i, j | 0 <= i < j < |ds| ensures EnvFilesOf(p)[i] != EnvFilesOf(p)[j] {
      assert |EnvFilesOf(p)[i].parts| != |EnvFilesOf(p)[j].parts|;
    }
  }

  /** `d / ".env"` for `d` in `[p, *p.parents]`. */
  function EnvFilesOf(p: Path): (r: seq<Path>)
    ensures |r| == |p.parts| + 1
    ensures forall i :: 0 <= i <= |p.parts| ==> r[i] == Child(SelfAndParents(p)[i], ".env")
  {
    EachChild(SelfAndParents(p), ".env")
  }

  function ProjectDotenvPaths(ctx: Context): seq<Path> {
    ProjectFrom(ctx.fs, EnvFilesOf(ctx.cwd), {})
  }

  /** The project `.env` files: those that exist from the working
      directory up to the root, nearest first, each once. */
  lemma ProjectDotenvSpec(ctx: Context)
    ensures ProjectDotenvPaths(ctx) == FilesAmong(ctx.fs, EnvFilesOf(ctx.cwd))
    ensures Distinct(ProjectDotenvPaths(ctx))
  {
    EnvFilesDistinct(ctx.cwd);
    ProjectFromDistinct(ctx.fs, EnvFilesOf(ctx.cwd), {});
    FilesAmongDistinct(ctx.fs, EnvFilesOf(ctx.cwd));
  }

  /** The Linux platform `.env` as written: `XDG_CONFIG_HOME` is read
      with `env.get`, so a variable set to the empty string gives the
      relative `<slug>/.env`. */
  function LinuxDotenvAsWritten(env: map<string, string>, home: Path, slug: string): Path {
    Child(Div(EnvPath(env, "XDG_CONFIG_HOME", Child(home, ".config")), slug), ".env")
  }

  /** The Linux platform `.env`, reading `XDG_CONFIG_HOME` the way the
      user layer does: empty counts as unset. */
  function LinuxDotenv(env: map<string, string>, home: Path, slug: string): Path {
    Child(LinuxUserBase(env, home, slug), ".env")
  }

  /** `_platform_dotenv_path` as written. */
  function PlatformDotenvPathAsWritten(ctx: Context): Option<Path> {
    match OsOf(ctx.platform)
    case Linux => Some(LinuxDotenvAsWritten(ctx.env, ctx.home, ctx.slug))
    case MacOs => Some(Child(VendorApp(ctx, MacHomeRoot(ctx)), ".env"))
    case Windows => Some(Child(VendorApp(ctx, AppDataRoot(ctx)), ".env"))
    case Unknown => None
  }

  /** `_platform_dotenv_path` with the Linux case corrected. */
  function PlatformDotenvPath(ctx: Context): Option<Path> {
    match OsOf(ctx.platform)
    case Linux => Some(LinuxDotenv(ctx.env, ctx.home, ctx.slug))
    case MacOs => Some(Child(VendorApp(ctx, MacHomeRoot(ctx)), ".env"))
    case Windows => Some(Child(VendorApp(ctx, AppDataRoot(ctx)), ".env"))
    case Unknown => None
  }

  /** The platform `.env` sits in the directory the user layer reads (on
      Windows, the roaming one, so only while it exists). */
  lemma DotenvBesideUser(ctx: Context)
    requires OsOf(ctx.platform) != Unknown
    requires OsOf(ctx.platform) == Windows ==> Exists(ctx.fs, VendorApp(ctx, AppDataRoot(ctx)))
    ensures PlatformDotenvPath(ctx) == Some(Child(UserBase(ctx), ".env"))
  {
  }

  /** The two readings agree whenever `XDG_CONFIG_HOME` is unset or
      non-empty. */
  lemma LinuxDotenvAgrees(env: map<string, string>, home: Path, slug: string)
    requires "XDG_CONFIG_HOME" in env ==> env["XDG_CONFIG_HOME"] != ""
    ensures LinuxDotenvAsWritten(env, home, slug) == LinuxDotenv(env, home, slug)
  {
  }

  /** With `XDG_CONFIG_HOME` set to "", the user layer reads
      `~/.config/<slug>` but the `.env` looked for is the relative
      `<slug>/.env`, which is never inside the user layer directory. */
  lemma XdgEmptyMismatch(env: map<string, string>, home: Path, slug: string)
    requires "XDG_CONFIG_HOME" in env && env["XDG_CONFIG_HOME"] == "" && IsPart(slug)
    ensures LinuxDotenvAsWritten(env, home, slug) == Path(false, [slug, ".env"])
    ensures LinuxUserBase(env, home, slug) == Path(home.absolute, home.parts + [".config", slug])
    ensures LinuxDotenvAsWritten(env, home, slug) != Child(LinuxUserBase(env, home, slug), ".env")
  {
    ParseEmpty();
    var written := EnvPath(env, "XDG_CONFIG_HOME", Child(home, ".config"));
    DivName(written, slug);
    var config := Child(home, ".config");
    DivName(config, slug);
    assert home.parts + [".config"] + [slug] == home.parts + [".config", slug];
    assert |Child(LinuxUserBase(env, home, slug), ".env").parts| == |home.parts| + 3;
  }

  function DotenvPaths(ctx: Context): seq<Path> {
    var extra := PlatformDotenvPath(ctx);
    ProjectDotenvPaths(ctx) + (if extra.Some? && IsFile(ctx.fs, extra.value) then [extra.value] else [])
  }

  /** `dotenv()`: the project `.env` files, then the platform one if it is
      a file. */
  function Dotenv(ctx: Context): seq<string> {
    Rendered(DotenvPaths(ctx))
  }

  /** Every dotenv candidate exists; the project ones come first, nearest
      first; the platform one, when present, comes last. */
  lemma DotenvPathsSpec(ctx: Context)
    ensures forall p :: p in DotenvPaths(ctx) ==> IsFile(ctx.fs, p)
    ensures DotenvPaths(ctx)[..|ProjectDotenvPaths(ctx)|] == FilesAmong(ctx.fs, EnvFilesOf(ctx.cwd))
    ensures |DotenvPaths(ctx)| <= |ProjectDotenvPaths(ctx)| + 1
  {
    ProjectDotenvSpec(ctx);
  }
}
