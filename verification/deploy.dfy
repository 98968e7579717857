/** Deploying one configuration file into the layer directories the
    default path resolver reads (examples/deploy.py): each requested
    target names a layer, each layer a canonical file, and the source is
    copied there unless the copy would overwrite the source itself or an
    existing file without `force`.

    What the running process supplies (working directory, environment,
    `sys.platform`, hostname, home directory and `Path.resolve`) is the
    `Process` parameter. File contents are strings rather than bytes. */
module Deploy {
  import opened Results
  import opened Text
  import opened Paths
  import opened Storage
  import PathResolver

  /** The process the deployment runs in. `resolve` is `Path.resolve`. */
  datatype Process = Process(cwd: Path, env: map<string, string>, platform: string,
                             hostname: string, home: Path, resolve: Path -> Path)

  /** `FileNotFoundError` for a missing source, `ValueError` for a target
      outside `_VALID_TARGETS` (carrying the target as given). */
  datatype DeployError = SourceNotFound(source: Path) | UnsupportedTarget(raw: string)

  /** The paths created or overwritten, or the error raised, together with
      the disk afterwards: an error leaves the copies made before it. */
  datatype Outcome = Outcome(created: Result<seq<Path>, DeployError>, disk: Disk)

  /** `_VALID_TARGETS` after lowercasing. */
  predicate IsLayer(t: string) {
    t == "app" || t == "host" || t == "user"
  }

  predicate ValidTarget(raw: string) {
    IsLayer(Lower(raw))
  }

  predicate AllValid(targets: seq<string>) {
    forall i :: 0 <= i < |targets| ==> ValidTarget(targets[i])
  }

  /** `_prepare_resolver`: a `DefaultPathResolver` for `slug or app`, with
      the platform override when one is given and the process's own
      environment. */
  function DeployContext(vendor: string, app: string, slug: Option<string>, platform: Option<string>,
                         proc: Process, fs: FileSystem): PathResolver.Context
  {
    PathResolver.MakeContext(vendor, app, PathResolver.OrElse(slug, app), None, proc.cwd, proc.env, map[],
                             platform, proc.platform, None, proc.hostname, proc.home, fs)
  }

  /** `_resolve_for_linux`; also the fallback for an unknown platform. */
  function LinuxDestination(ctx: PathResolver.Context, target: string): Option<Path> {
    var etc := PathResolver.EtcRoot(ctx);
    if target == "app" then Some(Div(Div(etc, ctx.slug), "config.toml"))
    else if target == "host" then Some(Div(Div(Div(etc, ctx.slug), "hosts"), ctx.hostname + ".toml"))
    else if target == "user" then
      var base := if "XDG_CONFIG_HOME" in ctx.env && ctx.env["XDG_CONFIG_HOME"] != ""
                  then Parse(ctx.env["XDG_CONFIG_HOME"]) else Div(ctx.home, ".config");
      Some(Div(Div(base, ctx.slug), "config.toml"))
    else None
  }

  /** `_resolve_for_macos`. */
  function MacDestination(ctx: PathResolver.Context, target: string): Option<Path> {
    var appRoot := PathResolver.VendorApp(ctx, PathResolver.MacAppRoot(ctx));
    if target == "app" then Some(Div(appRoot, "config.toml"))
    else if target == "host" then Some(Div(Div(appRoot, "hosts"), ctx.hostname + ".toml"))
    else if target == "user" then Some(Div(PathResolver.VendorApp(ctx, PathResolver.MacHomeRoot(ctx)), "config.toml"))
    else None
  }

  /** `_resolve_for_windows`. The resolver's environment already holds the
      process environment, so the `os.environ` fallbacks add nothing. */
  function WindowsDestination(ctx: PathResolver.Context, target: string): Option<Path> {
    var programData := PathResolver.VendorApp(ctx, PathResolver.ProgramDataRoot(ctx));
    if target == "app" then Some(Div(programData, "config.toml"))
    else if target == "host" then Some(Div(Div(programData, "hosts"), ctx.hostname + ".toml"))
    else if target == "user" then Some(Div(PathResolver.VendorApp(ctx, PathResolver.AppDataRoot(ctx)), "config.toml"))
    else None
  }

  /** `_resolve_destination`: Linux, macOS and Windows by the resolver's
      platform string, Linux for anything else. */
  function Destination(ctx: PathResolver.Context, target: string): Option<Path> {
    match PathResolver.OsOf(ctx.platform)
    case MacOs => MacDestination(ctx, target)
    case Windows => WindowsDestination(ctx, target)
    case _ => LinuxDestination(ctx, target)
  }

  /** `_resolve_destination` for one resolver. */
  function DestOf(ctx: PathResolver.Context): string -> Option<Path> {
    t => Destination(ctx, t)
  }

  /** `_should_copy`: never onto the source itself; onto an existing file
      only with `force`. */
  predicate ShouldCopy(resolve: Path -> Path, source: Path, dest: Path, fs: FileSystem, force: bool) {
    resolve(dest) != resolve(source) && (force || !Exists(fs, dest))
  }

  /** The loop of `deploy_config` over `_destinations_for`: targets are
      checked lazily, so an unsupported one raises after the copies for
      the targets before it are made. `destOf` is `_resolve_destination`
      for the deployment's resolver. */
  function CopyTargets(destOf: string -> Option<Path>, resolve: Path -> Path, source: Path, payload: string,
                       targets: seq<string>, force: bool, d: Disk): Outcome
    decreases |targets|
  {
    if targets == [] then Outcome(Ok([]), d)
    else if !ValidTarget(targets[0]) then Outcome(Err(UnsupportedTarget(targets[0])), d)
    else
      var dest := destOf(Lower(targets[0]));
      if dest.None? || !ShouldCopy(resolve, source, dest.value, d.fs, force) then
        CopyTargets(destOf, resolve, source, payload, targets[1..], force, d)
      else
        var rest := CopyTargets(destOf, resolve, source, payload, targets[1..], force, Write(d, dest.value, payload));
        Outcome(if rest.created.Ok? then Ok([dest.value] + rest.created.value) else rest.created, rest.disk)
  }

  /** `deploy_config`. */
  function DeployConfig(source: Path, vendor: string, app: string, targets: seq<string>, slug: Option<string>,
                        platform: Option<string>, force: bool, proc: Process, d: Disk): Outcome
  {
    if !IsFile(d.fs, source) then Outcome(Err(SourceNotFound(source)), d)
    else
      CopyTargets(DestOf(DeployContext(vendor, app, slug, platform, proc, d.fs)), proc.resolve, source,
                  Read(d, source), targets, force, d)
  }

  /** Every layer name has a destination on every platform. */
  lemma DestinationDefined(ctx: PathResolver.Context, t: string)
    ensures Destination(ctx, t).Some? <==> IsLayer(t)
  {
  }

  /** The destination depends on the environment, platform and names, not
      on what is on disk. */
  lemma DestinationIgnoresDisk(ctx: PathResolver.Context, fs: FileSystem, t: string)
    ensures Destination(ctx.(fs := fs), t) == Destination(ctx, t)
  {
  }

  /** Success exactly when every target is supported; otherwise the error
      names the first unsupported target as given. */
  lemma {:induction false} CopyTargetsResult(destOf: string -> Option<Path>, resolve: Path -> Path, source: Path,
                                            payload: string, targets: seq<string>, force: bool, d: Disk)
    ensures var o := CopyTargets(destOf, resolve, source, payload, targets, force, d);
            (o.created.Ok? <==> AllValid(targets))
            && (o.created.Err? ==>
                  exists k :: 0 <= k < |targets| && AllValid(targets[..k]) && !ValidTarget(targets[k])
                              && o.created.error == UnsupportedTarget(targets[k]))
    decreases |targets|
  {
    if targets != [] && ValidTarget(targets[0]) {
      var dest := destOf(Lower(targets[0]));
      var d' := if dest.None? || !ShouldCopy(resolve, source, dest.value, d.fs, force) then d else Write(d, dest.value, payload);
      CopyTargetsResult(destOf, resolve, source, payload, targets[1..], force, d');
      var o := CopyTargets(destOf, resolve, source, payload, targets, force, d);
      assert AllValid(targets) <==> AllValid(targets[1..]) by {
        forall i | 1 <= i < |targets| ensures targets[i] == targets[1..][i - 1] { }
      }
      if o.created.Err? {
        var k :| 0 <= k < |targets[1..]| && AllValid(targets[1..][..k]) && !ValidTarget(targets[1..][k])
                 && o.created.error == UnsupportedTarget(targets[1..][k]);
        assert targets[..k + 1] == [targets[0]] + targets[1..][..k];
        assert AllValid(targets[..k + 1]);
      }
    } else if targets != [] {
      assert targets[..0] == [];
    }
  }

  /** `q` is the destination of none of the targets. */
  predicate Untargeted(destOf: string -> Option<Path>, targets: seq<string>, q: Path) {
    forall i :: 0 <= i < |targets| ==> destOf(Lower(targets[i])) != Some(q)
  }

  /** A deployment removes nothing: files stay files, directories stay
      directories. */
  lemma {:induction false} CopyTargetsGrows(destOf: string -> Option<Path>, resolve: Path -> Path, source: Path,
                                           payload: string, targets: seq<string>, force: bool, d: Disk)
    ensures var o := CopyTargets(destOf, resolve, source, payload, targets, force, d);
            (forall q :: IsFile(d.fs, q) ==> IsFile(o.disk.fs, q))
            && (forall q :: IsDir(d.fs, q) ==> IsDir(o.disk.fs, q))
    decreases |targets|
  {
    if targets != [] && ValidTarget(targets[0]) {
      var dest := destOf(Lower(targets[0]));
      if dest.None? || !ShouldCopy(resolve, source, dest.value, d.fs, force) {
        CopyTargetsGrows(destOf, resolve, source, payload, targets[1..], force, d);
      } else {
        CopyTargetsGrows(destOf, resolve, source, payload, targets[1..], force, Write(d, dest.value, payload));
      }
    }
  }

  /** A path that is no target's destination keeps whether it is a file
      and what it holds. */
  lemma {:induction false} CopyTargetsUntouched(destOf: string -> Option<Path>, resolve: Path -> Path, source: Path,
                                               payload: string, targets: seq<string>, force: bool, d: Disk, q: Path)
    requires Untargeted(destOf, targets, q)
    ensures var o := CopyTargets(destOf, resolve, source, payload, targets, force, d);
            (IsFile(o.disk.fs, q) <==> IsFile(d.fs, q)) && Read(o.disk, q) == Read(d, q)
    decreases |targets|
  {
    if targets != [] && ValidTarget(targets[0]) {
      var dest := destOf(Lower(targets[0]));
      var rest := targets[1..];
      assert Untargeted(destOf, rest, q) by {
        forall i | 0 <= i < |rest| ensures destOf(Lower(rest[i])) != Some(q) {
          assert rest[i] == targets[i + 1];
        }
      }
      if dest.None? || !ShouldCopy(resolve, source, dest.value, d.fs, force) {
        CopyTargetsUntouched(destOf, resolve, source, payload, rest, force, d, q);
      } else {
        assert dest != Some(q);
        CopyTargetsUntouched(destOf, resolve, source, payload, rest, force, Write(d, dest.value, payload), q);
      }
    }
  }

  /** `p` is a file holding `payload`, below directories that exist. */
  predicate Holds(d: Disk, p: Path, payload: string) {
    IsFile(d.fs, p) && Read(d, p) == payload && forall q :: q in Ancestors(p) ==> IsDir(d.fs, q)
  }

  /** Every path in `ps` holds the payload. */
  predicate AllHold(d: Disk, ps: seq<Path>, payload: string) {
    forall i :: 0 <= i < |ps| ==> Holds(d, ps[i], payload)
  }

  /** Every path a deployment reports is on disk with the payload, below
      directories that exist. */
  lemma {:induction false} CopyTargetsCreated(destOf: string -> Option<Path>, resolve: Path -> Path, source: Path,
                                             payload: string, targets: seq<string>, force: bool, d: Disk)
    ensures var o := CopyTargets(destOf, resolve, source, payload, targets, force, d);
            o.created.Ok? ==> AllHold(o.disk, o.created.value, payload)
    decreases |targets|
  {
    if targets != [] && ValidTarget(targets[0]) {
      var dest := destOf(Lower(targets[0]));
      if dest.None? || !ShouldCopy(resolve, source, dest.value, d.fs, force) {
        CopyTargetsCreated(destOf, resolve, source, payload, targets[1..], force, d);
      } else {
        var d' := Write(d, dest.value, payload);
        CopyTargetsCreated(destOf, resolve, source, payload, targets[1..], force, d');
        assert Holds(d', dest.value, payload);
        CopyTargetsPayload(destOf, resolve, source, payload, targets[1..], force, d', dest.value);
        var o := CopyTargets(destOf, resolve, source, payload, targets, force, d);
        var o' := CopyTargets(destOf, resolve, source, payload, targets[1..], force, d');
        if o.created.Ok? {
          var ps := o.created.value;
          assert ps == [dest.value] + o'.created.value;
          forall i | 0 <= i < |ps| ensures Holds(o.disk, ps[i], payload) {
            if i > 0 {
              assert ps[i] == o'.created.value[i - 1];
            }
          }
        }
      }
    }
  }

  /** Every path a deployment reports is the destination of one of its
      targets. */
  lemma {:induction false} CreatedAreDestinations(destOf: string -> Option<Path>, resolve: Path -> Path, source: Path,
                                                 payload: string, targets: seq<string>, force: bool, d: Disk)
    ensures var o := CopyTargets(destOf, resolve, source, payload, targets, force, d);
            o.created.Ok? ==>
              forall p :: p in o.created.value ==> exists i :: 0 <= i < |targets| && destOf(Lower(targets[i])) == Some(p)
    decreases |targets|
  {
    if targets != [] && ValidTarget(targets[0]) {
      var dest := destOf(Lower(targets[0]));
      var rest := targets[1..];
      var o := CopyTargets(destOf, resolve, source, payload, targets, force, d);
      var d' := if dest.None? || !ShouldCopy(resolve, source, dest.value, d.fs, force) then d
                else Write(d, dest.value, payload);
      var o' := CopyTargets(destOf, resolve, source, payload, rest, force, d');
      CreatedAreDestinations(destOf, resolve, source, payload, rest, force, d');
      if o.created.Ok? {
        forall p | p in o.created.value
          ensures exists i :: 0 <= i < |targets| && destOf(Lower(targets[i])) == Some(p)
        {
          if p in o'.created.value {
            var i :| 0 <= i < |rest| && destOf(Lower(rest[i])) == Some(p);
            assert rest[i] == targets[i + 1];
          } else {
            assert destOf(Lower(targets[0])) == Some(p);
          }
        }
      }
    }
  }

  /** A file written earlier still holds the payload: later copies write
      the same payload and remove nothing. */
  lemma {:induction false} CopyTargetsPayload(destOf: string -> Option<Path>, resolve: Path -> Path, source: Path,
                                             payload: string, targets: seq<string>, force: bool, d: Disk, p: Path)
    requires Holds(d, p, payload)
    ensures Holds(CopyTargets(destOf, resolve, source, payload, targets, force, d).disk, p, payload)
    decreases |targets|
  {
    if targets != [] && ValidTarget(targets[0]) {
      var dest := destOf(Lower(targets[0]));
      if dest.None? || !ShouldCopy(resolve, source, dest.value, d.fs, force) {
        CopyTargetsPayload(destOf, resolve, source, payload, targets[1..], force, d, p);
      } else {
        CopyTargetsPayload(destOf, resolve, source, payload, targets[1..], force, Write(d, dest.value, payload), p);
      }
    }
  }

  /** `_destinations_for` run to the end: the destinations of the targets
      in order, or the error for the first unsupported one. */
  function DestinationsFor(destOf: string -> Option<Path>, targets: seq<string>): Result<seq<Path>, DeployError>
    decreases |targets|
  {
    if targets == [] then Ok([])
    else if !ValidTarget(targets[0]) then Err(UnsupportedTarget(targets[0]))
    else
      var dest := destOf(Lower(targets[0]));
      var rest := DestinationsFor(destOf, targets[1..]);
      if dest.None? || rest.Err? then rest else Ok([dest.value] + rest.value)
  }

  /** With `force`, and no destination that is the source itself, every
      destination is written and reported, in target order; the error, if
      any, is the one `_destinations_for` raises. */
  lemma {:induction false} CopyTargetsForce(destOf: string -> Option<Path>, resolve: Path -> Path, source: Path,
                                           payload: string, targets: seq<string>, d: Disk)
    requires forall i :: 0 <= i < |targets| && destOf(Lower(targets[i])).Some? ==>
               resolve(destOf(Lower(targets[i])).value) != resolve(source)
    ensures CopyTargets(destOf, resolve, source, payload, targets, true, d).created == DestinationsFor(destOf, targets)
    decreases |targets|
  {
    if targets != [] && ValidTarget(targets[0]) {
      var dest := destOf(Lower(targets[0]));
      var rest := targets[1..];
      assert forall i :: 0 <= i < |rest| ==> rest[i] == targets[i + 1];
      var d' := if dest.None? then d else Write(d, dest.value, payload);
      CopyTargetsForce(destOf, resolve, source, payload, rest, d');
    }
  }

  /** A path that resolves to the source, or that exists when `force` is
      off, is never written: it is not reported and keeps what it holds. */
  lemma {:induction false} CopyTargetsSpares(destOf: string -> Option<Path>, resolve: Path -> Path, source: Path,
                                            payload: string, targets: seq<string>, force: bool, d: Disk, q: Path)
    requires resolve(q) == resolve(source) || (!force && Exists(d.fs, q))
    ensures var o := CopyTargets(destOf, resolve, source, payload, targets, force, d);
            (o.created.Ok? ==> q !in o.created.value)
            && (IsFile(o.disk.fs, q) <==> IsFile(d.fs, q)) && Read(o.disk, q) == Read(d, q)
    decreases |targets|
  {
    if targets != [] && ValidTarget(targets[0]) {
      var dest := destOf(Lower(targets[0]));
      if dest.None? || !ShouldCopy(resolve, source, dest.value, d.fs, force) {
        CopyTargetsSpares(destOf, resolve, source, payload, targets[1..], force, d, q);
      } else {
        assert dest.value != q;
        CopyTargetsSpares(destOf, resolve, source, payload, targets[1..], force, Write(d, dest.value, payload), q);
      }
    }
  }

  /** Nothing is left to copy without `force`: each supported target up to
      the first unsupported one has no destination, or one that resolves
      to the source or already exists. */
  predicate Settled(destOf: string -> Option<Path>, resolve: Path -> Path, source: Path,
                    targets: seq<string>, fs: FileSystem)
    decreases |targets|
  {
    targets == [] || !ValidTarget(targets[0])
    || ((destOf(Lower(targets[0])).None? || !ShouldCopy(resolve, source, destOf(Lower(targets[0])).value, fs, false))
        && Settled(destOf, resolve, source, targets[1..], fs))
  }

  lemma {:induction false} SettledGrows(destOf: string -> Option<Path>, resolve: Path -> Path, source: Path,
                                       targets: seq<string>, fs: FileSystem, fs': FileSystem)
    requires Settled(destOf, resolve, source, targets, fs)
    requires forall q :: Exists(fs, q) ==> Exists(fs', q)
    ensures Settled(destOf, resolve, source, targets, fs')
    decreases |targets|
  {
    if targets != [] && ValidTarget(targets[0]) {
      SettledGrows(destOf, resolve, source, targets[1..], fs, fs');
    }
  }

  /** After a deployment nothing is left to copy. */
  lemma {:induction false} CopyTargetsSettles(destOf: string -> Option<Path>, resolve: Path -> Path, source: Path,
                                             payload: string, targets: seq<string>, force: bool, d: Disk)
    ensures Settled(destOf, resolve, source, targets,
                    CopyTargets(destOf, resolve, source, payload, targets, force, d).disk.fs)
    decreases |targets|
  {
    if targets != [] && ValidTarget(targets[0]) {
      var dest := destOf(Lower(targets[0]));
      var d' := if dest.None? || !ShouldCopy(resolve, source, dest.value, d.fs, force) then d
                else Write(d, dest.value, payload);
      CopyTargetsSettles(destOf, resolve, source, payload, targets[1..], force, d');
      CopyTargetsGrows(destOf, resolve, source, payload, targets[1..], force, d');
      if dest.Some? && !(resolve(dest.value) == resolve(source)) {
        var o := CopyTargets(destOf, resolve, source, payload, targets, force, d);
        assert Exists(d'.fs, dest.value);
        assert IsFile(d'.fs, dest.value) ==> IsFile(o.disk.fs, dest.value);
        assert IsDir(d'.fs, dest.value) ==> IsDir(o.disk.fs, dest.value);
        assert !ShouldCopy(resolve, source, dest.value, o.disk.fs, false);
      }
    }
  }

  /** With nothing left to copy, a deployment without `force` reports
      nothing and leaves the disk as it is. */
  lemma {:induction false} SettledCopiesNothing(destOf: string -> Option<Path>, resolve: Path -> Path, source: Path,
                                               payload: string, targets: seq<string>, e: Disk)
    requires Settled(destOf, resolve, source, targets, e.fs)
    ensures var o := CopyTargets(destOf, resolve, source, payload, targets, false, e);
            o.disk == e && (o.created.Ok? ==> o.created.value == [])
    decreases |targets|
  {
    if targets != [] && ValidTarget(targets[0]) {
      SettledCopiesNothing(destOf, resolve, source, payload, targets[1..], e);
    }
  }

  /** Deploying again without `force` writes nothing and reports nothing. */
  lemma CopyTargetsRepeat(destOf: string -> Option<Path>, resolve: Path -> Path, source: Path,
                          payload: string, payload': string, targets: seq<string>, force: bool, d: Disk)
    ensures var o := CopyTargets(destOf, resolve, source, payload, targets, force, d);
            var o' := CopyTargets(destOf, resolve, source, payload', targets, false, o.disk);
            o'.disk == o.disk && (o'.created.Ok? ==> o'.created.value == [])
  {
    CopyTargetsSettles(destOf, resolve, source, payload, targets, force, d);
    SettledCopiesNothing(destOf, resolve, source, payload', targets,
                         CopyTargets(destOf, resolve, source, payload, targets, force, d).disk);
  }

  /** Only what the destination function yields matters, not how it is
      built. */
  lemma {:induction false} CopyTargetsSameDestinations(f: string -> Option<Path>, g: string -> Option<Path>,
                                                      resolve: Path -> Path, source: Path, payload: string,
                                                      targets: seq<string>, force: bool, d: Disk)
    requires forall t :: f(t) == g(t)
    ensures CopyTargets(f, resolve, source, payload, targets, force, d)
            == CopyTargets(g, resolve, source, payload, targets, force, d)
    decreases |targets|
  {
    if targets != [] && ValidTarget(targets[0]) {
      var dest := f(Lower(targets[0]));
      CopyTargetsSameDestinations(f, g, resolve, source, payload, targets[1..], force, d);
      if dest.Some? {
        CopyTargetsSameDestinations(f, g, resolve, source, payload, targets[1..], force, Write(d, dest.value, payload));
      }
    }
  }

  /** The names deploy appends are single segments. */
  lemma LayerNames(p: Path)
    ensures Div(p, "config.toml") == Child(p, "config.toml")
    ensures Div(p, "hosts") == Child(p, "hosts")
    ensures Div(p, ".config") == Child(p, ".config")
  {
    DivName(p, "config.toml");
    DivName(p, "hosts");
    DivName(p, ".config");
  }

  /** A file at `base/config.toml` is the first file the layer at `base`
      yields. */
  lemma ConfigFileCollected(fs: FileSystem, base: Path)
    requires IsFile(fs, Child(base, "config.toml"))
    ensures Child(base, "config.toml") in PathResolver.CollectLayerPaths(fs, base)
  {
  }

  /** A deployed file is read back: once the destination of a layer is a
      file below existing directories, the resolver on a recognised
      platform lists it for that layer. On Windows the user layer reads
      the roaming directory because deploying created it. */
  lemma FoundByResolver(ctx: PathResolver.Context, t: string, fs: FileSystem)
    requires PathResolver.OsOf(ctx.platform) != PathResolver.Unknown
    requires IsLayer(t)
    requires Destination(ctx, t).Some? && IsFile(fs, Destination(ctx, t).value)
    requires forall q :: q in Ancestors(Destination(ctx, t).value) ==> IsDir(fs, q)
    ensures Destination(ctx, t).value in PathResolver.LayerPaths(ctx.(fs := fs), t)
  {
    var ctx' := ctx.(fs := fs);
    var dest := Destination(ctx, t).value;
    var base := PathResolver.AppBase(ctx');
    LayerNames(base);
    if t == "user" {
      var user := PathResolver.UserBase(ctx');
      LayerNames(ctx.home);
      if PathResolver.OsOf(ctx.platform) == PathResolver.Windows {
        var roaming := PathResolver.VendorApp(ctx, PathResolver.AppDataRoot(ctx));
        LayerNames(roaming);
        assert dest == Child(roaming, "config.toml");
        assert roaming == Path(dest.absolute, dest.parts[..|dest.parts| - 1]);
        assert IsDir(fs, roaming);
        assert user == roaming;
      } else {
        LayerNames(PathResolver.VendorApp(ctx, PathResolver.MacHomeRoot(ctx)));
        LayerNames(Div(PathResolver.XdgConfigHome(ctx.env, ctx.home), ctx.slug));
        assert dest == Child(user, "config.toml");
      }
      ConfigFileCollected(fs, user);
    } else if t == "app" {
      assert dest == Child(base, "config.toml");
      ConfigFileCollected(fs, base);
    } else {
      assert dest == Div(Child(base, "hosts"), ctx.hostname + ".toml");
    }
  }

  /** `deploy_config`'s outcome: `FileNotFoundError`, with nothing written,
      exactly when the source is not a file; otherwise success exactly when
      every target is supported, and else the error for the first
      unsupported target. */
  lemma DeployOutcome(source: Path, vendor: string, app: string, targets: seq<string>, slug: Option<string>,
                      platform: Option<string>, force: bool, proc: Process, d: Disk)
    ensures var o := DeployConfig(source, vendor, app, targets, slug, platform, force, proc, d);
            (o.created == Err(SourceNotFound(source)) <==> !IsFile(d.fs, source))
            && (!IsFile(d.fs, source) ==> o.disk == d)
            && (o.created.Ok? <==> IsFile(d.fs, source) && AllValid(targets))
            && (IsFile(d.fs, source) && o.created.Err? ==>
                  exists k :: 0 <= k < |targets| && AllValid(targets[..k]) && !ValidTarget(targets[k])
                              && o.created.error == UnsupportedTarget(targets[k]))
  {
    if IsFile(d.fs, source) {
      CopyTargetsResult(DestOf(DeployContext(vendor, app, slug, platform, proc, d.fs)), proc.resolve, source,
                        Read(d, source), targets, force, d);
    }
  }

  /** Deploying never touches its source, and without `force` never
      overwrites or reports a path that already existed. */
  lemma DeploySpares(source: Path, vendor: string, app: string, targets: seq<string>, slug: Option<string>,
                     platform: Option<string>, force: bool, proc: Process, d: Disk, q: Path)
    requires q == source || (!force && Exists(d.fs, q))
    ensures var o := DeployConfig(source, vendor, app, targets, slug, platform, force, proc, d);
            (o.created.Ok? ==> q !in o.created.value)
            && (IsFile(o.disk.fs, q) <==> IsFile(d.fs, q)) && Read(o.disk, q) == Read(d, q)
  {
    if IsFile(d.fs, source) {
      CopyTargetsSpares(DestOf(DeployContext(vendor, app, slug, platform, proc, d.fs)), proc.resolve, source,
                        Read(d, source), targets, force, d, q);
    }
  }

  /** Every path deploy reports holds the source's content, and is the
      destination of one of the targets. */
  lemma DeployCreated(source: Path, vendor: string, app: string, targets: seq<string>, slug: Option<string>,
                      platform: Option<string>, force: bool, proc: Process, d: Disk)
    ensures var o := DeployConfig(source, vendor, app, targets, slug, platform, force, proc, d);
            var ctx := DeployContext(vendor, app, slug, platform, proc, d.fs);
            o.created.Ok? ==>
              AllHold(o.disk, o.created.value, Read(d, source))
              && forall p :: p in o.created.value ==>
                   exists i :: 0 <= i < |targets| && Destination(ctx, Lower(targets[i])) == Some(p)
  {
    if IsFile(d.fs, source) {
      var f := DestOf(DeployContext(vendor, app, slug, platform, proc, d.fs));
      CopyTargetsCreated(f, proc.resolve, source, Read(d, source), targets, force, d);
      CreatedAreDestinations(f, proc.resolve, source, Read(d, source), targets, force, d);
    }
  }

  /** Deploying a second time without `force` writes and reports nothing. */
  lemma DeployRepeat(source: Path, vendor: string, app: string, targets: seq<string>, slug: Option<string>,
                     platform: Option<string>, force: bool, proc: Process, d: Disk)
    ensures var o := DeployConfig(source, vendor, app, targets, slug, platform, force, proc, d);
            var o' := DeployConfig(source, vendor, app, targets, slug, platform, false, proc, o.disk);
            o'.disk == o.disk && (o'.created.Ok? ==> o'.created.value == [])
  {
    var o := DeployConfig(source, vendor, app, targets, slug, platform, force, proc, d);
    if IsFile(d.fs, source) {
      var f := DestOf(DeployContext(vendor, app, slug, platform, proc, d.fs));
      var g := DestOf(DeployContext(vendor, app, slug, platform, proc, o.disk.fs));
      CopyTargetsGrows(f, proc.resolve, source, Read(d, source), targets, force, d);
      CopyTargetsRepeat(f, proc.resolve, source, Read(d, source), Read(o.disk, source), targets, force, d);
      forall t ensures f(t) == g(t) {
        DestinationIgnoresDisk(DeployContext(vendor, app, slug, platform, proc, d.fs), o.disk.fs, t);
      }
      CopyTargetsSameDestinations(f, g, proc.resolve, source, Read(o.disk, source), targets, false, o.disk);
    }
  }

  /** With `force`, and no destination resolving to the source, deploy
      writes and reports every destination in target order. */
  lemma DeployForce(source: Path, vendor: string, app: string, targets: seq<string>, slug: Option<string>,
                    platform: Option<string>, proc: Process, d: Disk)
    requires IsFile(d.fs, source)
    requires var ctx := DeployContext(vendor, app, slug, platform, proc, d.fs);
             forall t :: Destination(ctx, t).Some? ==> proc.resolve(Destination(ctx, t).value) != proc.resolve(source)
    ensures DeployConfig(source, vendor, app, targets, slug, platform, true, proc, d).created
            == DestinationsFor(DestOf(DeployContext(vendor, app, slug, platform, proc, d.fs)), targets)
  {
    CopyTargetsForce(DestOf(DeployContext(vendor, app, slug, platform, proc, d.fs)), proc.resolve, source,
                     Read(d, source), targets, d);
  }

  /** On a recognised platform every file deploy reports is read back by
      the default path resolver for the same names: it is among the files
      of the layer its target names. */
  lemma DeployFoundByResolver(source: Path, vendor: string, app: string, targets: seq<string>, slug: Option<string>,
                              platform: Option<string>, force: bool, proc: Process, d: Disk)
    requires PathResolver.OsOf(DeployContext(vendor, app, slug, platform, proc, d.fs).platform) != PathResolver.Unknown
    ensures var o := DeployConfig(source, vendor, app, targets, slug, platform, force, proc, d);
            var ctx' := DeployContext(vendor, app, slug, platform, proc, o.disk.fs);
            o.created.Ok? ==>
              forall p :: p in o.created.value ==>
                exists i :: 0 <= i < |targets| && p in PathResolver.LayerPaths(ctx', Lower(targets[i]))
  {
    var o := DeployConfig(source, vendor, app, targets, slug, platform, force, proc, d);
    var ctx := DeployContext(vendor, app, slug, platform, proc, d.fs);
    DeployCreated(source, vendor, app, targets, slug, platform, force, proc, d);
    DeployOutcome(source, vendor, app, targets, slug, platform, force, proc, d);
    if o.created.Ok? {
      forall p | p in o.created.value
        ensures exists i :: 0 <= i < |targets| && p in PathResolver.LayerPaths(ctx.(fs := o.disk.fs), Lower(targets[i]))
      {
        var i :| 0 <= i < |targets| && Destination(ctx, Lower(targets[i])) == Some(p);
        var k :| 0 <= k < |o.created.value| && o.created.value[k] == p;
        assert Holds(o.disk, o.created.value[k], Read(d, source));
        assert ValidTarget(targets[i]);
        FoundByResolver(ctx, Lower(targets[i]), o.disk.fs);
      }
    }
  }

  /** On an unrecognised platform deploy still writes to the Linux
      locations, which the resolver does not read there. */
  lemma UnknownPlatformFallback(ctx: PathResolver.Context, t: string)
    requires PathResolver.OsOf(ctx.platform) == PathResolver.Unknown
    ensures Destination(ctx, t) == LinuxDestination(ctx, t)
    ensures IsLayer(t) ==> Destination(ctx, t).Some? && PathResolver.LayerPaths(ctx, t) == []
  {
  }
}
