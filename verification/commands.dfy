/** The command line's two writing commands (cli.py `_deploy_layers` and
    `_generate_example_tree`): normalise the options, then call the
    library. Click's parsing, exit codes and JSON output are not
    modelled. */
module Commands {
  import opened Results
  import opened Text
  import opened Paths
  import opened Storage
  import Cli
  import Deploy
  import Generate
  import PathResolver

  /** A rejected option, or the library's own error. */
  datatype CommandError = BadOption(option: Cli.BadParameter) | DeployFailed(error: Deploy.DeployError)

  /** `_deploy_layers`: targets lowercased, the platform normalised (an
      unknown one is rejected before anything is read), then
      `deploy_config`. */
  function DeployLayers(source: Path, vendor: string, app: string, slug: string, targets: seq<string>,
                        platform: Option<string>, force: bool, proc: Deploy.Process, d: Disk)
    : (Result<seq<Path>, CommandError>, Disk)
  {
    var normalizedTargets := Cli.NormalizeTargets(targets);
    var normalizedPlatform := Cli.NormalizePlatform(platform);
    if normalizedPlatform.Err? then (Err(BadOption(normalizedPlatform.error)), d)
    else
      var o := Deploy.DeployConfig(source, vendor, app, normalizedTargets, Some(slug), normalizedPlatform.value,
                                   force, proc, d);
      (if o.created.Ok? then Ok(o.created.value) else Err(DeployFailed(o.created.error)), o.disk)
  }

  /** `_generate_example_tree`: the platform normalised with the examples
      table (an unknown one is rejected), then `generate_examples`. */
  function GenerateExampleTree(destination: Path, slug: string, vendor: string, app: string,
                               platform: Option<string>, force: bool, osIsNt: bool, d: Disk)
    : (Result<seq<Path>, CommandError>, Disk)
  {
    var normalizedPlatform := Cli.NormalizeExamplesPlatform(platform);
    if normalizedPlatform.Err? then (Err(BadOption(normalizedPlatform.error)), d)
    else
      var (written, after) := Generate.GenerateExamples(destination, slug, vendor, app, force,
                                                        normalizedPlatform.value, osIsNt, d);
      (Ok(written), after)
  }

  /** Lowercasing the targets first changes nothing a deployment does: the
      same files are written and reported, and the same targets are
      rejected, the error then naming the lowercased target. */
  lemma {:induction false} CopyTargetsNormalized(destOf: string -> Option<Path>, resolve: Path -> Path, source: Path,
                                                payload: string, targets: seq<string>, force: bool, d: Disk)
    ensures var a := Deploy.CopyTargets(destOf, resolve, source, payload, Cli.NormalizeTargets(targets), force, d);
            var b := Deploy.CopyTargets(destOf, resolve, source, payload, targets, force, d);
            a.disk == b.disk
            && (a.created.Ok? <==> b.created.Ok?)
            && (a.created.Ok? ==> a.created.value == b.created.value)
            && (a.created.Err? ==> b.created.Err? && b.created.error.UnsupportedTarget?
                                   && a.created.error == Deploy.UnsupportedTarget(Lower(b.created.error.raw)))
    decreases |targets|
  {
    if targets != [] {
      var n := Cli.NormalizeTargets(targets);
      assert n[1..] == Cli.NormalizeTargets(targets[1..]);
      LowerIdempotent(targets[0]);
      var dest := destOf(Lower(targets[0]));
      if Deploy.ValidTarget(targets[0]) {
        if dest.None? || !Deploy.ShouldCopy(resolve, source, dest.value, d.fs, force) {
          CopyTargetsNormalized(destOf, resolve, source, payload, targets[1..], force, d);
        } else {
          CopyTargetsNormalized(destOf, resolve, source, payload, targets[1..], force, Write(d, dest.value, payload));
        }
      }
    }
  }

  /** An unknown platform is rejected before anything else, even before a
      missing source is noticed, and nothing is written. */
  lemma DeployLayersBadPlatform(source: Path, vendor: string, app: string, slug: string, targets: seq<string>,
                                platform: Option<string>, force: bool, proc: Deploy.Process, d: Disk)
    ensures var (r, after) := DeployLayers(source, vendor, app, slug, targets, platform, force, proc, d);
            (r == Err(BadOption(Cli.BadResolverPlatform)) <==> Cli.NormalizePlatform(platform).Err?)
            && (r.Err? && r.error.BadOption? ==> after == d)
  {
    Cli.NormalizePlatformSpec(platform);
  }

  /** The command deploys exactly as the library does with the targets as
      typed and the normalised platform: same files written, same paths
      reported, the same targets rejected. */
  lemma DeployLayersAsTyped(source: Path, vendor: string, app: string, slug: string, targets: seq<string>,
                            platform: Option<string>, force: bool, proc: Deploy.Process, d: Disk)
    requires Cli.NormalizePlatform(platform).Ok?
    ensures var (r, after) := DeployLayers(source, vendor, app, slug, targets, platform, force, proc, d);
            var o := Deploy.DeployConfig(source, vendor, app, targets, Some(slug), Cli.NormalizePlatform(platform).value,
                                         force, proc, d);
            after == o.disk && (r.Ok? <==> o.created.Ok?) && (r.Ok? ==> r.value == o.created.value)
  {
    var p := Cli.NormalizePlatform(platform).value;
    if IsFile(d.fs, source) {
      var ctx := Deploy.DeployContext(vendor, app, Some(slug), p, proc, d.fs);
      CopyTargetsNormalized(Deploy.DestOf(ctx), proc.resolve, source, Read(d, source), targets, force, d);
    }
  }

  /** With a platform given on the command line and accepted, every file
      the command reports is read back by the default path resolver for
      that platform, in the layer one of the targets names. */
  lemma DeployLayersReadBack(source: Path, vendor: string, app: string, slug: string, targets: seq<string>,
                             platform: Option<string>, force: bool, proc: Deploy.Process, d: Disk)
    requires Cli.NormalizePlatform(platform).Ok? && Cli.NormalizePlatform(platform).value.Some?
    ensures var (r, after) := DeployLayers(source, vendor, app, slug, targets, platform, force, proc, d);
            var ctx := Deploy.DeployContext(vendor, app, Some(slug), Cli.NormalizePlatform(platform).value,
                                            proc, after.fs);
            r.Ok? ==> forall p :: p in r.value ==>
                        exists i :: 0 <= i < |targets| && p in PathResolver.LayerPaths(ctx, Lower(targets[i]))
  {
    var v := Cli.NormalizePlatform(platform).value;
    var n := Cli.NormalizeTargets(targets);
    Cli.NormalizePlatformSpec(platform);
    PathResolver.OsExamples();
    assert Deploy.DeployContext(vendor, app, Some(slug), v, proc, d.fs).platform == v.value;
    Deploy.DeployFoundByResolver(source, vendor, app, n, Some(slug), v, force, proc, d);
    var o := Deploy.DeployConfig(source, vendor, app, n, Some(slug), v, force, proc, d);
    if o.created.Ok? {
      forall p | p in o.created.value
        ensures exists i :: 0 <= i < |targets| &&
                  p in PathResolver.LayerPaths(Deploy.DeployContext(vendor, app, Some(slug), v, proc, o.disk.fs),
                                               Lower(targets[i]))
      {
        var i :| 0 <= i < |n| && p in PathResolver.LayerPaths(Deploy.DeployContext(vendor, app, Some(slug), v, proc, o.disk.fs),
                                                               Lower(n[i]));
        LowerIdempotent(targets[i]);
      }
    }
  }

  /** The example tree follows the platform chosen on the command line: a
      Windows alias gives the Windows layout, any other accepted alias the
      POSIX one, and no platform the host's own. For plain names the files
      written are exactly those of the layout that do not exist yet (all
      of them with `force`). */
  lemma GenerateExampleTreeLayout(destination: Path, slug: string, vendor: string, app: string,
                                  platform: Option<string>, force: bool, osIsNt: bool, d: Disk)
    requires IsPart(slug) && IsPart(vendor) && IsPart(app)
    requires Cli.NormalizeExamplesPlatform(platform).Ok?
    ensures var chosen := Cli.NormalizeExamplesPlatform(platform).value;
            var layout := if chosen.Some? then chosen.value else if osIsNt then "windows" else "posix";
            var specs := Generate.BuildSpecs(slug, vendor, app, layout);
            var (r, after) := GenerateExampleTree(destination, slug, vendor, app, platform, force, osIsNt, d);
            r.Ok? && r.value == Generate.Selected(Generate.Targets(destination, specs), force, d.fs)
            && (forall p :: p in Generate.Targets(destination, specs) ==> Exists(after.fs, p))
  {
    var chosen := Cli.NormalizeExamplesPlatform(platform).value;
    Cli.ExamplesPlatformReachesGenerator(platform, osIsNt);
    Generate.GenerateExamplesSpec(destination, slug, vendor, app, force, chosen, osIsNt, d);
  }
}
