/** The composition root (`core.py`): order each layer's files by preferred
    suffix, load them, stack the app, host and user files under the `.env`
    and environment layers, merge, and hand back a `Config`. File parsing,
    the filesystem and the process environment are inputs. */
module Core {
  import opened Results
  import opened Text
  import opened Tree
  import opened Paths
  import opened Sorting
  import opened Merge
  import opened Configuration
  import MergeTree
  import EnvAdapter
  import DotEnv
  import PathResolver

  /** What a structured file loader reports for one path. */
  datatype LoadOutcome = Loaded(data: Mapping) | NotFound | InvalidFormat(reason: string)

  /** The errors `read_config` lets escape. */
  datatype ConfigError =
    | LayerLoadError(layer: string, path: string, reason: string)
    | DotEnvFailed(cause: DotEnv.DotEnvError)
    | EnvFailed(message: string)

  /** The keys of `_FILE_LOADERS`. */
  const LoaderSuffixes: seq<string> := [".toml", ".json", ".yaml", ".yml"]

  // ---------------------------------------------------------------------
  // Suffix preference (`_order_paths`)
  // ---------------------------------------------------------------------

  /** `suffix.lower().lstrip(".")` for an entry of `prefer`. */
  function PreferKey(s: string): string {
    DropLeading(Lower(s), '.')
  }

  function PreferKeys(prefer: seq<string>): (r: seq<string>)
    ensures |r| == |prefer| && forall i :: 0 <= i < |prefer| ==> r[i] == PreferKey(prefer[i])
  {
    if prefer == [] then [] else [PreferKey(prefer[0])] + PreferKeys(prefer[1..])
  }

  /** `Path(p).suffix.lower().lstrip(".")` for a candidate path. */
  function PathKey(p: Path): string {
    DropLeading(Lower(Suffix(Name(p))), '.')
  }

  /** `{k: idx for idx, k in enumerate(keys)}`: each key is ranked by the
      LAST position it occurs at. */
  function Ranking(keys: seq<string>): map<string, int> {
    if keys == [] then map[]
    else Ranking(keys[..|keys| - 1])[keys[|keys| - 1] := |keys| - 1]
  }

  /** The ranking holds exactly the given keys, each at its last index,
      and has no more entries than there are keys. */
  lemma {:induction false} RankingSpec(keys: seq<string>)
    ensures forall x :: x in Ranking(keys) <==> x in keys
    ensures forall x :: x in Ranking(keys) ==> 0 <= Ranking(keys)[x] < |keys| && keys[Ranking(keys)[x]] == x
    ensures forall x, j :: x in Ranking(keys) && Ranking(keys)[x] < j < |keys| ==> keys[j] != x
    ensures |Ranking(keys)| <= |keys|
    decreases |keys|
  {
    if keys != [] {
      var init := keys[..|keys| - 1];
      RankingSpec(init);
      assert keys == init + [keys[|keys| - 1]];
    }
  }

  /** The rank of a path: its suffix's position, else `fallback`. */
  function RankOf(ranking: map<string, int>, p: Path, fallback: int): int {
    if PathKey(p) in ranking then ranking[PathKey(p)] else fallback
  }

  /** The sort key as written: an unknown suffix ranks `len(ranking)`,
      the number of DISTINCT preferred suffixes. */
  function RankKeyAsWritten(prefer: seq<string>): Path -> int {
    var ranking := Ranking(PreferKeys(prefer));
    p => RankOf(ranking, p, |ranking|)
  }

  /** The sort key with an unknown suffix ranked `len(prefer)`, after every
      preferred suffix. */
  function RankKey(prefer: seq<string>): Path -> int {
    var ranking := Ranking(PreferKeys(prefer));
    p => RankOf(ranking, p, |prefer|)
  }

  /** `_order_paths` as written. */
  function OrderPathsAsWritten(paths: seq<Path>, prefer: Option<seq<string>>): seq<Path> {
    if prefer.None? || prefer.value == [] then paths
    else Sort(paths, RankKeyAsWritten(prefer.value))
  }

  /** `_order_paths` with unknown suffixes ranked after all preferred ones;
      the rest of the model orders files with this. */
  function OrderPaths(paths: seq<Path>, prefer: Option<seq<string>>): seq<Path> {
    if prefer.None? || prefer.value == [] then paths
    else Sort(paths, RankKey(prefer.value))
  }

  /** The order is a permutation of the input, the input itself without a
      preference, and otherwise a stable sort by rank. */
  lemma OrderPathsSpec(paths: seq<Path>, prefer: Option<seq<string>>)
    ensures multiset(OrderPaths(paths, prefer)) == multiset(paths)
    ensures prefer.None? || prefer.value == [] ==> OrderPaths(paths, prefer) == paths
    ensures prefer.Some? && prefer.value != [] ==>
              SortedBy(OrderPaths(paths, prefer), RankKey(prefer.value))
              && forall k :: WithKey(OrderPaths(paths, prefer), k, RankKey(prefer.value))
                             == WithKey(paths, k, RankKey(prefer.value))
  {
    if prefer.Some? && prefer.value != [] {
      var key := RankKey(prefer.value);
      SortPermutes(paths, key);
      SortSorted(paths, key);
      forall k ensures WithKey(OrderPaths(paths, prefer), k, key) == WithKey(paths, k, key) {
        SortStable(paths, k, key);
      }
    }
  }

  predicate Preferred(prefer: seq<string>, p: Path) {
    PathKey(p) in Ranking(PreferKeys(prefer))
  }

  /** Every path with a preferred suffix comes before every path without
      one, and preferred paths follow the order of `prefer`. */
  lemma PreferredFirst(paths: seq<Path>, prefer: seq<string>)
    requires prefer != []
    ensures var r := OrderPaths(paths, Some(prefer));
            forall i, j :: 0 <= i < j < |r| && Preferred(prefer, r[j]) ==> Preferred(prefer, r[i])
    ensures var r := OrderPaths(paths, Some(prefer));
            forall i, j :: 0 <= i < j < |r| && Preferred(prefer, r[i]) && Preferred(prefer, r[j]) ==>
              Ranking(PreferKeys(prefer))[PathKey(r[i])] <= Ranking(PreferKeys(prefer))[PathKey(r[j])]
  {
    var key := RankKey(prefer);
    var r := OrderPaths(paths, Some(prefer));
    RankingSpec(PreferKeys(prefer));
    SortSorted(paths, key);
    forall i, j | 0 <= i < j < |r| && Preferred(prefer, r[j]) ensures Preferred(prefer, r[i]) {
      assert key(r[i]) <= key(r[j]);
    }
  }

  /** Distinct keys each get their own entry. */
  lemma {:induction false} RankingSize(keys: seq<string>)
    requires forall i, j :: 0 <= i < j < |keys| ==> keys[i] != keys[j]
    ensures |Ranking(keys)| == |keys|
    decreases |keys|
  {
    if keys != [] {
      var init := keys[..|keys| - 1];
      RankingSize(init);
      RankingSpec(init);
      assert keys == init + [keys[|keys| - 1]];
    }
  }

  /** With no suffix repeated in `prefer`, `len(ranking)` is `len(prefer)`
      and the order as written is the corrected one. */
  lemma OrderPathsAgree(paths: seq<Path>, prefer: seq<string>)
    requires forall i, j :: 0 <= i < j < |prefer| ==> PreferKey(prefer[i]) != PreferKey(prefer[j])
    ensures OrderPathsAsWritten(paths, Some(prefer)) == OrderPaths(paths, Some(prefer))
  {
    RankingSize(PreferKeys(prefer));
    assert RankKeyAsWritten(prefer) == RankKey(prefer);
  }

  lemma KeyOfName(name: string, ext: string)
    requires Suffix(name) == "." + ext && Lower(ext) == ext && (ext == [] || ext[0] != '.')
    ensures PathKey(Path(false, [name])) == ext
  {
    assert Lower("." + ext) == "." + ext;
    assert ("." + ext)[1..] == ext;
    assert DropLeading(ext, '.') == ext;
    assert DropLeading("." + ext, '.') == ext;
  }

  /** A one-segment name `<stem>.<ext>` with a lowercase, dot-free
      extension is keyed by that extension. */
  lemma KeyOfFile(stem: string, ext: string)
    requires stem != "" && ext != "" && '.' !in ext && Lower(ext) == ext
    ensures PathKey(Path(false, [stem + "." + ext])) == ext
  {
    SuffixOf(stem, ext);
    KeyOfName(stem + "." + ext, ext);
  }

  lemma OrderPathsSorts(paths: seq<Path>, prefer: seq<string>)
    requires prefer != []
    ensures OrderPathsAsWritten(paths, Some(prefer)) == Sort(paths, RankKeyAsWritten(prefer))
    ensures OrderPaths(paths, Some(prefer)) == Sort(paths, RankKey(prefer))
  {
  }

  /** The last preferred suffix has the highest rank. */
  lemma LastRank(prefer: seq<string>, p: Path)
    requires prefer != [] && PathKey(p) == PreferKey(prefer[|prefer| - 1])
    ensures PathKey(p) in Ranking(PreferKeys(prefer))
    ensures Ranking(PreferKeys(prefer))[PathKey(p)] == |prefer| - 1
  {
    var keys := PreferKeys(prefer);
    assert keys[|keys| - 1] == PathKey(p);
  }

  lemma TieRanks(prefer: seq<string>, u: Path, p: Path)
    requires prefer != [] && |Ranking(PreferKeys(prefer))| == |prefer| - 1
    requires PathKey(u) !in Ranking(PreferKeys(prefer))
    requires PathKey(p) == PreferKey(prefer[|prefer| - 1])
    ensures RankKeyAsWritten(prefer)(u) == RankKeyAsWritten(prefer)(p)
    ensures RankKey(prefer)(p) < RankKey(prefer)(u)
  {
    LastRank(prefer, p);
  }

  /** When `prefer` repeats one suffix, `len(ranking)` is one short of
      `len(prefer)`, so a path `u` with an unknown suffix ranks level with
      a path `p` carrying the last preferred suffix: listed first, `u`
      stays in front as written, and moves behind once unknown suffixes
      rank `len(prefer)`. */
  lemma UnknownTiesAsWritten(prefer: seq<string>, u: Path, p: Path)
    requires prefer != [] && |Ranking(PreferKeys(prefer))| == |prefer| - 1
    requires PathKey(u) !in Ranking(PreferKeys(prefer))
    requires PathKey(p) == PreferKey(prefer[|prefer| - 1])
    ensures OrderPathsAsWritten([u, p], Some(prefer)) == [u, p]
    ensures OrderPaths([u, p], Some(prefer)) == [p, u]
  {
    OrderPathsSorts([u, p], prefer);
    TieRanks(prefer, u, p);
    SortTwo(u, p, RankKeyAsWritten(prefer));
    SortTwo(u, p, RankKey(prefer));
  }

  /** A preference listing one suffix twice and then another, such as
      `["toml", "toml", "json"]`, meets the conditions above. */
  lemma {:induction false} RepeatedPreference(x: string, y: string)
    requires PreferKey(x) != PreferKey(y)
    ensures |Ranking(PreferKeys([x, x, y]))| == |[x, x, y]| - 1
    ensures forall k :: k in Ranking(PreferKeys([x, x, y])) <==> k == PreferKey(x) || k == PreferKey(y)
    ensures PreferKey([x, x, y][2]) == PreferKey(y)
  {
    var kx, ky := PreferKey(x), PreferKey(y);
    var keys := PreferKeys([x, x, y]);
    assert keys == [kx, kx, ky];
    assert keys[..2] == [kx, kx] && keys[..2][..1] == [kx];
    assert Ranking([kx]) == map[kx := 0];
    assert Ranking([kx, kx]) == map[kx := 1];
    assert Ranking(keys) == map[kx := 1, ky := 2];
  }

  /** The suffixes of the concrete example. */
  lemma ExampleSuffixes()
    ensures PreferKey("toml") == "toml" && PreferKey("json") == "json"
  {
    assert Lower("toml") == "toml";
    assert Lower("json") == "json";
  }

  /** With `prefer = [x, x, y]`, a path `u` with neither suffix listed
      before a path `p` with suffix `y` stays first as written, although
      `y` is preferred; the corrected order puts `p` first. */
  lemma RepeatedPreferenceTie(x: string, y: string, u: Path, p: Path)
    requires PreferKey(x) != PreferKey(y)
    requires PathKey(u) != PreferKey(x) && PathKey(u) != PreferKey(y) && PathKey(p) == PreferKey(y)
    ensures OrderPathsAsWritten([u, p], Some([x, x, y])) == [u, p]
    ensures OrderPaths([u, p], Some([x, x, y])) == [p, u]
  {
    RepeatedPreference(x, y);
    UnknownTiesAsWritten([x, x, y], u, p);
  }

  // ---------------------------------------------------------------------
  // Loading the files of one layer (`_load_entry`, `_load_files`)
  // ---------------------------------------------------------------------

  predicate HasLoader(path: Path) {
    Lower(Suffix(Name(path))) in LoaderSuffixes
  }

  /** `_load_entry`. */
  function LoadEntry(layer: string, path: Path, load: Path -> LoadOutcome): Result<Option<LayerEntry>, ConfigError> {
    if !HasLoader(path) then Ok(None)
    else match load(path)
      case NotFound => Ok(None)
      case InvalidFormat(reason) => Err(LayerLoadError(layer, Render(path), reason))
      case Loaded(data) => if data == [] then Ok(None) else Ok(Some(LayerEntry(layer, data, Some(Render(path)))))
  }

  /** No loader for the suffix, a missing file or an empty mapping give no
      entry; a malformed file aborts with the layer and path named; any
      other file gives an entry with its data and path. */
  lemma LoadEntrySpec(layer: string, path: Path, load: Path -> LoadOutcome)
    ensures var r := LoadEntry(layer, path, load);
            (r.Err? <==> HasLoader(path) && load(path).InvalidFormat?)
            && (r.Err? ==> r.error == LayerLoadError(layer, Render(path), load(path).reason))
            && (r == Ok(None) <==> !HasLoader(path) || load(path) == NotFound || load(path) == Loaded([]))
            && (r.Ok? && r.value.Some? ==>
                  r.value.value == LayerEntry(layer, load(path).data, Some(Render(path))) && load(path).data != [])
  {
  }

  function AsSeq<T>(o: Option<T>): seq<T> {
    if o.Some? then [o.value] else []
  }

  /** The loop of `_load_files` over already ordered paths, for any
      per-path step: entries in path order, stopping at the first error. */
  function Collect<P>(paths: seq<P>, step: P -> Result<Option<LayerEntry>, ConfigError>): (r: Result<seq<LayerEntry>, ConfigError>)
    ensures r.Ok? ==> |r.value| <= |paths|
  {
    if paths == [] then Ok([])
    else
      var e := step(paths[0]);
      if e.Err? then Err(e.error)
      else
        var rest := Collect(paths[1..], step);
        if rest.Err? then rest else Ok(AsSeq(e.value) + rest.value)
  }

  /** Collecting a concatenation collects the two halves in turn: order is
      kept and the first failure wins. */
  lemma {:induction false} CollectAppend<P>(a: seq<P>, b: seq<P>, step: P -> Result<Option<LayerEntry>, ConfigError>)
    ensures Collect(a + b, step) ==
              (if Collect(a, step).Err? then Collect(a, step)
               else if Collect(b, step).Err? then Collect(b, step)
               else Ok(Collect(a, step).value + Collect(b, step).value))
    decreases |a|
  {
    if a == [] {
      assert a + b == b;
      if Collect(b, step).Ok? {
        assert [] + Collect(b, step).value == Collect(b, step).value;
      }
    } else {
      assert (a + b)[0] == a[0] && (a + b)[1..] == a[1..] + b;
      CollectAppend(a[1..], b, step);
      var e := step(a[0]);
      if e.Ok? && Collect(a[1..], step).Ok? && Collect(b, step).Ok? {
        var x, y := Collect(a[1..], step).value, Collect(b, step).value;
        assert AsSeq(e.value) + (x + y) == (AsSeq(e.value) + x) + y;
      }
    }
  }

  /** Collecting succeeds exactly when no step fails; a failure is that of
      the first failing step. */
  lemma {:induction false} CollectErrors<P>(paths: seq<P>, step: P -> Result<Option<LayerEntry>, ConfigError>)
    ensures Collect(paths, step).Ok? <==> forall i :: 0 <= i < |paths| ==> step(paths[i]).Ok?
    ensures Collect(paths, step).Err? ==>
              exists i :: 0 <= i < |paths| && step(paths[i]) == Err(Collect(paths, step).error)
                          && forall j :: 0 <= j < i ==> step(paths[j]).Ok?
    decreases |paths|
  {
    if paths != [] {
      CollectErrors(paths[1..], step);
      assert forall i :: 1 <= i < |paths| ==> paths[1..][i - 1] == paths[i];
      if step(paths[0]).Ok? && Collect(paths[1..], step).Err? {
        var i :| 0 <= i < |paths[1..]| && step(paths[1..][i]) == Err(Collect(paths[1..], step).error)
                 && forall j :: 0 <= j < i ==> step(paths[1..][j]).Ok?;
        assert step(paths[i + 1]) == Err(Collect(paths, step).error);
      }
    }
  }

  /** Every entry collected is the entry of some step. */
  lemma {:induction false} CollectEntries<P>(paths: seq<P>, step: P -> Result<Option<LayerEntry>, ConfigError>)
    requires Collect(paths, step).Ok?
    ensures forall e :: e in Collect(paths, step).value ==> exists q :: q in paths && step(q) == Ok(Some(e))
    decreases |paths|
  {
    if paths != [] {
      CollectEntries(paths[1..], step);
      assert forall q :: q in paths[1..] ==> q in paths;
      assert step(paths[0]).Ok? && paths[0] in paths;
    }
  }

  /** `_load_entry` for every path of one layer. */
  function LoadAll(layer: string, paths: seq<Path>, load: Path -> LoadOutcome): Result<seq<LayerEntry>, ConfigError> {
    Collect(paths, p => LoadEntry(layer, p, load))
  }

  /** Every entry names the layer, holds a non-empty mapping and records
      the path whose load produced it. */
  lemma LoadAllEntries(layer: string, paths: seq<Path>, load: Path -> LoadOutcome)
    requires LoadAll(layer, paths, load).Ok?
    ensures forall e :: e in LoadAll(layer, paths, load).value ==>
              e.name == layer && e.data != []
              && exists q :: q in paths && e.path == Some(Render(q)) && load(q) == Loaded(e.data)
  {
    var step := p => LoadEntry(layer, p, load);
    CollectEntries(paths, step);
    forall e | e in LoadAll(layer, paths, load).value
      ensures e.name == layer && e.data != []
              && exists q :: q in paths && e.path == Some(Render(q)) && load(q) == Loaded(e.data)
    {
      var q :| q in paths && step(q) == Ok(Some(e));
      LoadedEntry(layer, q, load, e);
    }
  }

  lemma LoadedEntry(layer: string, q: Path, load: Path -> LoadOutcome, e: LayerEntry)
    requires LoadEntry(layer, q, load) == Ok(Some(e))
    ensures e.name == layer && e.data != [] && e.path == Some(Render(q)) && load(q) == Loaded(e.data)
  {
    LoadEntrySpec(layer, q, load);
  }

  /** `_load_files`. */
  function LoadFiles(layer: string, paths: seq<Path>, prefer: Option<seq<string>>,
                     load: Path -> LoadOutcome): Result<seq<LayerEntry>, ConfigError> {
    LoadAll(layer, OrderPaths(paths, prefer), load)
  }

  // ---------------------------------------------------------------------
  // The layer stack (`_gather_layers`)
  // ---------------------------------------------------------------------

  /** `_collect_path_layers`: app, host and user files, in that order. */
  function PathLayers(app: seq<Path>, host: seq<Path>, user: seq<Path>, prefer: Option<seq<string>>,
                      load: Path -> LoadOutcome): (r: Result<seq<LayerEntry>, ConfigError>)
  {
    var a := LoadFiles("app", app, prefer, load);
    if a.Err? then Err(a.error)
    else
      var h := LoadFiles("host", host, prefer, load);
      if h.Err? then Err(h.error)
      else
        var u := LoadFiles("user", user, prefer, load);
        if u.Err? then Err(u.error)
        else Ok(a.value + h.value + u.value)
  }

  /** `_dotenv_layer`: present only with data, carrying the path loaded. */
  function DotenvLayer(d: DotEnv.DotEnvLoad): (r: Result<Option<LayerEntry>, ConfigError>)
    ensures r.Err? <==> d.data.Err?
    ensures r.Ok? ==> (r.value.Some? <==> d.data.value != [])
    ensures r.Ok? && r.value.Some? ==>
              r.value.value.name == "dotenv" && r.value.value.data == d.data.value
              && r.value.value.path == (if d.lastLoaded.Some? then Some(Render(d.lastLoaded.value)) else None)
  {
    if d.data.Err? then Err(DotEnvFailed(d.data.error))
    else if d.data.value == [] then Ok(None)
    else
      var path := if d.lastLoaded.Some? then Some(Render(d.lastLoaded.value)) else None;
      Ok(Some(LayerEntry("dotenv", d.data.value, path)))
  }

  /** `_env_layer`: present only with data, with no path. */
  function EnvLayer(data: Result<Mapping, string>): (r: Result<Option<LayerEntry>, ConfigError>)
    ensures r.Err? <==> data.Err?
    ensures r.Ok? ==> (r.value.Some? <==> data.value != [])
    ensures r.Ok? && r.value.Some? ==> r.value.value == LayerEntry("env", data.value, None)
  {
    if data.Err? then Err(EnvFailed(data.error))
    else if data.value == [] then Ok(None)
    else Ok(Some(LayerEntry("env", data.value, None)))
  }

  /** `_gather_layers`: the file layers, then `.env`, then the environment;
      the first failure wins. */
  function GatherLayers(files: Result<seq<LayerEntry>, ConfigError>, dotenv: DotEnv.DotEnvLoad,
                        env: Result<Mapping, string>): Result<seq<LayerEntry>, ConfigError>
  {
    if files.Err? then Err(files.error)
    else
      var d := DotenvLayer(dotenv);
      if d.Err? then Err(d.error)
      else
        var e := EnvLayer(env);
        if e.Err? then Err(e.error)
        else Ok(files.value + AsSeq(d.value) + AsSeq(e.value))
  }

  /** Precedence position of a layer name. */
  function LayerRank(name: string): int {
    if name == "app" then 0
    else if name == "host" then 1
    else if name == "user" then 2
    else if name == "dotenv" then 3
    else 4
  }

  /** Every entry of `es` belongs to layer `name` and holds data. */
  predicate AllOf(es: seq<LayerEntry>, name: string) {
    forall i :: 0 <= i < |es| ==> es[i].name == name && es[i].data != []
  }

  lemma LoadFilesOf(layer: string, paths: seq<Path>, prefer: Option<seq<string>>, load: Path -> LoadOutcome)
    requires LoadFiles(layer, paths, prefer, load).Ok?
    ensures AllOf(LoadFiles(layer, paths, prefer, load).value, layer)
  {
    var es := LoadFiles(layer, paths, prefer, load).value;
    LoadAllEntries(layer, OrderPaths(paths, prefer), load);
    assert forall i :: 0 <= i < |es| ==> es[i] in es;
  }

  lemma ThreeRuns(a: seq<LayerEntry>, h: seq<LayerEntry>, u: seq<LayerEntry>)
    requires AllOf(a, "app") && AllOf(h, "host") && AllOf(u, "user")
    ensures var ls := a + h + u;
            forall i, j :: 0 <= i < j < |ls| ==> LayerRank(ls[i].name) <= LayerRank(ls[j].name)
    ensures var ls := a + h + u;
            forall i :: 0 <= i < |ls| ==> ls[i].data != [] && LayerRank(ls[i].name) <= 2
  {
    var ls := a + h + u;
    forall i | 0 <= i < |ls|
      ensures ls[i].data != [] && LayerRank(ls[i].name) == (if i < |a| then 0 else if i < |a| + |h| then 1 else 2)
    {
      if i < |a| {
        assert ls[i] == a[i];
      } else if i < |a| + |h| {
        assert ls[i] == h[i - |a|];
      } else {
        assert ls[i] == u[i - |a| - |h|];
      }
    }
  }

  /** The file layers come out app, then host, then user, each entry
      holding data. */
  lemma PathLayersOrder(app: seq<Path>, host: seq<Path>, user: seq<Path>, prefer: Option<seq<string>>,
                        load: Path -> LoadOutcome)
    requires PathLayers(app, host, user, prefer, load).Ok?
    ensures var ls := PathLayers(app, host, user, prefer, load).value;
            forall i, j :: 0 <= i < j < |ls| ==> LayerRank(ls[i].name) <= LayerRank(ls[j].name)
    ensures var ls := PathLayers(app, host, user, prefer, load).value;
            forall i :: 0 <= i < |ls| ==> ls[i].data != [] && LayerRank(ls[i].name) <= 2
  {
    LoadFilesOf("app", app, prefer, load);
    LoadFilesOf("host", host, prefer, load);
    LoadFilesOf("user", user, prefer, load);
    ThreeRuns(LoadFiles("app", app, prefer, load).value, LoadFiles("host", host, prefer, load).value,
              LoadFiles("user", user, prefer, load).value);
  }

  /** The stack is app files, host files, user files, at most one `.env`
      entry, then at most one environment entry; every entry holds data. */
  lemma GatherOrder(files: Result<seq<LayerEntry>, ConfigError>, dotenv: DotEnv.DotEnvLoad,
                    env: Result<Mapping, string>)
    requires files.Ok?
    requires forall i, j :: 0 <= i < j < |files.value| ==> LayerRank(files.value[i].name) <= LayerRank(files.value[j].name)
    requires forall i :: 0 <= i < |files.value| ==> files.value[i].data != [] && LayerRank(files.value[i].name) <= 2
    requires GatherLayers(files, dotenv, env).Ok?
    ensures var ls := GatherLayers(files, dotenv, env).value;
            forall i, j :: 0 <= i < j < |ls| ==> LayerRank(ls[i].name) < LayerRank(ls[j].name) || LayerRank(ls[j].name) <= 2
    ensures var ls := GatherLayers(files, dotenv, env).value;
            forall i :: 0 <= i < |ls| ==> ls[i].data != []
    ensures var ls := GatherLayers(files, dotenv, env).value;
            |files.value| <= |ls| <= |files.value| + 2 && ls[..|files.value|] == files.value
  {
    var f := files.value;
    var d := AsSeq(DotenvLayer(dotenv).value);
    var e := AsSeq(EnvLayer(env).value);
    var ls := f + d + e;
    assert forall i :: |f| <= i < |f| + |d| ==> ls[i] == d[i - |f|] && LayerRank(ls[i].name) == 3;
    assert forall i :: |f| + |d| <= i < |ls| ==> ls[i] == e[i - |f| - |d|] && LayerRank(ls[i].name) == 4;
    assert ls[..|f|] == f;
  }

  // ---------------------------------------------------------------------
  // Merging and the empty short-circuit
  // ---------------------------------------------------------------------

  /** `_merge_or_empty`: nothing to merge gives `({}, {})`. */
  function MergeOrEmpty(layers: seq<LayerEntry>): (r: Merged)
    ensures layers == [] ==> r.tree == [] && r.meta == map[]
    ensures r == MergeLayers(layers)
  {
    if layers == [] then Empty else MergeLayers(layers)
  }

  /** `read_config`'s last step: empty data gives `EMPTY_CONFIG`. */
  function ConfigOf(m: Merged): (r: Config)
    ensures r.data == m.tree
    ensures m.tree == [] ==> r == EmptyConfig
  {
    if m.tree == [] then EmptyConfig else Config(m.tree, m.meta)
  }

  /** A stack of layers that each hold data merges to a non-empty tree. */
  lemma {:induction false} MergedEmptyIffNoLayers(layers: seq<LayerEntry>)
    requires forall i :: 0 <= i < |layers| ==> layers[i].data != []
    ensures MergeLayers(layers).tree == [] <==> layers == []
  {
    MergeTree.MergeLayersTree(layers);
    if layers != [] {
      var init, last := layers[..|layers| - 1], layers[|layers| - 1];
      MergeTree.TreeMergeHasKeys(MergeTree.LayersTree(init), last.data, true);
      assert last.data[0].0 in Keys(last.data);
    }
  }

  /** The short-circuit never discards provenance: for a stack of
      non-empty layers, the result is exactly the merged configuration. */
  lemma ShortCircuitExact(layers: seq<LayerEntry>)
    requires forall i :: 0 <= i < |layers| ==> layers[i].data != []
    ensures ConfigOf(MergeOrEmpty(layers)) == FromMerge(layers)
  {
    MergedEmptyIffNoLayers(layers);
  }

  // ---------------------------------------------------------------------
  // `read_config_raw` and `read_config`
  // ---------------------------------------------------------------------

  /** The process as the library sees it: filesystem, working directory,
      environment, platform, hostname, home, and the file readers. */
  datatype World = World(fs: FileSystem, cwd: Path, environ: EnvAdapter.Environ, platform: string,
                         hostname: string, home: Path, load: Path -> LoadOutcome,
                         read: Path -> seq<string>, isFloat: string -> bool)

  /** `os.environ` as a lookup table. */
  function EnvMap(environ: EnvAdapter.Environ): (r: map<string, string>)
    ensures forall k :: k in r <==> exists i :: 0 <= i < |environ| && environ[i].0 == k
  {
    if environ == [] then map[]
    else
      var init := environ[..|environ| - 1];
      assert forall i :: 0 <= i < |init| ==> init[i] == environ[i];
      EnvMap(init)[environ[|environ| - 1].0 := environ[|environ| - 1].1]
  }

  /** `Path(start_dir) if start_dir else None`. */
  function StartCwd(startDir: Option<string>): Option<Path> {
    if startDir.Some? && startDir.value != "" then Some(Parse(startDir.value)) else None
  }

  /** `_build_resolver`: the resolver sees the process environment only. */
  function ResolverOf(vendor: string, app: string, slug: string, startDir: Option<string>, w: World): PathResolver.Context {
    PathResolver.MakeContext(vendor, app, slug, StartCwd(startDir), w.cwd, EnvMap(w.environ), map[],
                             None, w.platform, None, w.hostname, w.home, w.fs)
  }

  /** The layer stack `read_config_raw` merges. */
  function Layers(vendor: string, app: string, slug: string, prefer: Option<seq<string>>,
                  startDir: Option<string>, w: World): Result<seq<LayerEntry>, ConfigError>
  {
    var ctx := ResolverOf(vendor, app, slug, startDir, w);
    var files := PathLayers(PathResolver.LayerPaths(ctx, "app"), PathResolver.LayerPaths(ctx, "host"),
                            PathResolver.LayerPaths(ctx, "user"), prefer, w.load);
    var extras := PathResolver.DotenvPaths(ctx);
    var dotenv := DotEnv.Load(w.fs, w.read, extras, startDir, w.cwd);
    var env := EnvAdapter.Load(w.environ, EnvAdapter.DefaultEnvPrefix(slug), w.isFloat);
    GatherLayers(files, dotenv, env)
  }

  /** `read_config_raw`. */
  function ReadConfigRaw(vendor: string, app: string, slug: string, prefer: Option<seq<string>>,
                         startDir: Option<string>, w: World): Result<Merged, ConfigError>
  {
    var layers := Layers(vendor, app, slug, prefer, startDir, w);
    if layers.Err? then Err(layers.error) else Ok(MergeOrEmpty(layers.value))
  }

  /** `read_config`. */
  function ReadConfig(vendor: string, app: string, slug: string, prefer: Option<seq<string>>,
                      startDir: Option<string>, w: World): Result<Config, ConfigError>
  {
    var raw := ReadConfigRaw(vendor, app, slug, prefer, startDir, w);
    if raw.Err? then Err(raw.error) else Ok(ConfigOf(raw.value))
  }

  /** `read_config` returns the merge of a stack that runs app, host, user,
      `.env`, environment, and its provenance is the merge's. */
  lemma ReadConfigSpec(vendor: string, app: string, slug: string, prefer: Option<seq<string>>,
                       startDir: Option<string>, w: World)
    ensures ReadConfig(vendor, app, slug, prefer, startDir, w).Ok? <==> Layers(vendor, app, slug, prefer, startDir, w).Ok?
    ensures ReadConfig(vendor, app, slug, prefer, startDir, w).Ok? ==>
              var ls := Layers(vendor, app, slug, prefer, startDir, w).value;
              ReadConfig(vendor, app, slug, prefer, startDir, w).value == FromMerge(ls)
              && (forall i, j :: 0 <= i < j < |ls| ==> LayerRank(ls[i].name) < LayerRank(ls[j].name) || LayerRank(ls[j].name) <= 2)
  {
    var ctx := ResolverOf(vendor, app, slug, startDir, w);
    var files := PathLayers(PathResolver.LayerPaths(ctx, "app"), PathResolver.LayerPaths(ctx, "host"),
                            PathResolver.LayerPaths(ctx, "user"), prefer, w.load);
    var dotenv := DotEnv.Load(w.fs, w.read, PathResolver.DotenvPaths(ctx), startDir, w.cwd);
    var env := EnvAdapter.Load(w.environ, EnvAdapter.DefaultEnvPrefix(slug), w.isFloat);
    if Layers(vendor, app, slug, prefer, startDir, w).Ok? {
      PathLayersOrder(PathResolver.LayerPaths(ctx, "app"), PathResolver.LayerPaths(ctx, "host"),
                      PathResolver.LayerPaths(ctx, "user"), prefer, w.load);
      GatherOrder(files, dotenv, env);
      ShortCircuitExact(GatherLayers(files, dotenv, env).value);
    }
  }
}
